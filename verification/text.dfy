/** The JavaScript string operations the console relies on: `toLowerCase`,
    `includes`, `trim`, `Array.prototype.join` and number-to-text conversion. */
module Text {

  /** `toLowerCase` on one character, for the ASCII letters. */
  function LowerChar(c: char): char {
    if 'A' <= c <= 'Z' then (c as int + 32) as char else c
  }

  function Lower(s: string): (r: string)
    ensures |r| == |s|
    ensures forall i :: 0 <= i < |s| ==> r[i] == LowerChar(s[i])
  {
    seq(|s|, i requires 0 <= i < |s| => LowerChar(s[i]))
  }

  /** Lowercasing twice is lowercasing once. */
  lemma LowerIdempotent(s: string)
    ensures Lower(Lower(s)) == Lower(s)
  {
  }

  predicate StartsWith(s: string, w: string) {
    |w| <= |s| && s[..|w|] == w
  }

  /** `s.includes(w)`: `w` occurs at some position of `s`. */
  predicate Contains(s: string, w: string)
    decreases |s|
  {
    StartsWith(s, w) || (s != [] && Contains(s[1..], w))
  }

  /** `w` occurs in `s` starting at position `i`. */
  predicate OccursAt(s: string, w: string, i: nat) {
    i + |w| <= |s| && s[i..i + |w|] == w
  }

  /** An occurrence at position `i` is found. */
  lemma {:induction false} ContainsAt(s: string, w: string, i: nat)
    requires OccursAt(s, w, i)
    ensures Contains(s, w)
    decreases i
  {
    if i > 0 {
      assert s[1..][i - 1..i - 1 + |w|] == s[i..i + |w|];
      ContainsAt(s[1..], w, i - 1);
    }
  }

  /** Every occurrence found has a position. */
  lemma {:induction false} ContainsHasPosition(s: string, w: string)
    requires Contains(s, w)
    ensures exists i :: OccursAt(s, w, i)
    decreases |s|
  {
    if StartsWith(s, w) {
      assert OccursAt(s, w, 0);
    } else {
      ContainsHasPosition(s[1..], w);
      var i: nat :| OccursAt(s[1..], w, i);
      assert s[1..][i..i + |w|] == s[i + 1..i + 1 + |w|];
      assert OccursAt(s, w, i + 1);
    }
  }

  /** `s.includes(w)` holds exactly when `w` occurs at some position of `s`. */
  lemma ContainsIffOccurs(s: string, w: string)
    ensures Contains(s, w) <==> exists i: nat :: OccursAt(s, w, i)
  {
    if Contains(s, w) {
      ContainsHasPosition(s, w);
    }
    forall i: nat | OccursAt(s, w, i) ensures Contains(s, w) {
      ContainsAt(s, w, i);
    }
  }

  /** A word with a character that `s` lacks does not occur in `s`. */
  lemma {:induction false} MissingChar(s: string, w: string, k: nat)
    requires k < |w| && w[k] !in s
    ensures !Contains(s, w)
    decreases |s|
  {
    if s != [] {
      assert forall c :: c in s[1..] ==> c in s;
      MissingChar(s[1..], w, k);
    }
  }

  /** A lowercase letter is absent from `Lower(s)` when neither it nor its
      capital occurs in `s`. */
  lemma LowerLacks(s: string, c: char)
    requires 'a' <= c <= 'z' && c !in s && (c as int - 32) as char !in s
    ensures c !in Lower(s)
  {
    forall i | 0 <= i < |s| ensures Lower(s)[i] != c {
      assert s[i] in s;
    }
  }

  /** A word with a letter that `s` lacks in both cases does not occur in
      `Lower(s)`. */
  lemma MissingLetter(s: string, w: string, k: nat)
    requires k < |w| && 'a' <= w[k] <= 'z'
    requires w[k] !in s && (w[k] as int - 32) as char !in s
    ensures !Contains(Lower(s), w)
  {
    LowerLacks(s, w[k]);
    MissingChar(Lower(s), w, k);
  }

  /** `s.includes(w)` for some `w` of `words` (the `||` chains of the source). */
  predicate ContainsAny(s: string, words: seq<string>) {
    exists w :: w in words && Contains(s, w)
  }

  /** The code points ECMAScript's `trim` removes: WhiteSpace and LineTerminator. */
  predicate IsSpace(c: char) {
    var n := c as int;
    n == 0x09 || n == 0x0A || n == 0x0B || n == 0x0C || n == 0x0D || n == 0x20
    || n == 0xA0 || n == 0x1680 || (0x2000 <= n <= 0x200A) || n == 0x2028
    || n == 0x2029 || n == 0x202F || n == 0x205F || n == 0x3000 || n == 0xFEFF
  }

  predicate IsBlank(s: string) {
    forall i :: 0 <= i < |s| ==> IsSpace(s[i])
  }

  /** Drops the leading white space: the result is the suffix after it. */
  function TrimStart(s: string): (r: string)
    ensures |r| <= |s| && r == s[|s| - |r|..]
    ensures r != [] ==> !IsSpace(r[0])
    decreases |s|
  {
    if s != [] && IsSpace(s[0]) then
      var r := TrimStart(s[1..]);
      assert s[1..][|s| - 1 - |r|..] == s[|s| - |r|..];
      r
    else s
  }

  /** What `TrimStart` drops is white space. */
  lemma {:induction false} TrimStartDropsSpace(s: string)
    ensures forall i :: 0 <= i < |s| - |TrimStart(s)| ==> IsSpace(s[i])
    decreases |s|
  {
    if s != [] && IsSpace(s[0]) {
      TrimStartDropsSpace(s[1..]);
      assert forall i :: 1 <= i < |s| - |TrimStart(s)| ==> s[i] == s[1..][i - 1];
    }
  }

  /** Drops the trailing white space: the result is the prefix before it. */
  function TrimEnd(s: string): (r: string)
    ensures |r| <= |s| && r == s[..|r|]
    ensures r != [] ==> !IsSpace(r[|r| - 1])
    decreases |s|
  {
    if s != [] && IsSpace(s[|s| - 1]) then
      var r := TrimEnd(s[..|s| - 1]);
      assert s[..|s| - 1][..|r|] == s[..|r|];
      r
    else s
  }

  /** What `TrimEnd` drops is white space. */
  lemma {:induction false} TrimEndDropsSpace(s: string)
    ensures forall i :: |TrimEnd(s)| <= i < |s| ==> IsSpace(s[i])
    decreases |s|
  {
    if s != [] && IsSpace(s[|s| - 1]) {
      TrimEndDropsSpace(s[..|s| - 1]);
      assert forall i :: |TrimEnd(s)| <= i < |s| - 1 ==> s[i] == s[..|s| - 1][i];
    }
  }

  /** `s.trim()`: the piece of `s` between its first and last non-space
      characters; `TrimEmptyIffBlank` and `TrimEndsNotSpace` say what it is. */
  function Trim(s: string): (r: string)
    ensures |r| <= |s|
  {
    TrimEnd(TrimStart(s))
  }

  /** Trimming leaves no white space at either end. */
  lemma TrimEndsNotSpace(s: string)
    ensures var r := Trim(s);
      r != [] ==> !IsSpace(r[0]) && !IsSpace(r[|r| - 1])
  {
    var t := TrimStart(s);
    var r := TrimEnd(t);
    if r != [] {
      assert r[0] == t[0];
    }
  }

  /** The trimmed text is empty exactly when the text is all white space. */
  lemma TrimEmptyIffBlank(s: string)
    ensures Trim(s) == [] <==> IsBlank(s)
  {
    var t := TrimStart(s);
    var r := TrimEnd(t);
    var d := |s| - |t|;
    if r == [] {
      TrimEndDropsSpace(t);
      assert t == [];
      TrimStartDropsSpace(s);
    } else {
      assert t != [] && s[d] == t[0];
    }
  }

  /** Trimming twice is trimming once. */
  lemma TrimIdempotent(s: string)
    ensures Trim(Trim(s)) == Trim(s)
  {
    TrimEndsNotSpace(s);
    TrimKeepsTrimmed(Trim(s));
  }

  /** A text without white space at either end is its own trim. */
  lemma TrimKeepsTrimmed(r: string)
    requires r != [] ==> !IsSpace(r[0]) && !IsSpace(r[|r| - 1])
    ensures Trim(r) == r
  {
    if r != [] {
      assert TrimStart(r) == r;
      assert TrimEnd(r) == r;
    }
  }

  /** `parts.join(sep)`. */
  function Join(parts: seq<string>, sep: string): string
    decreases |parts|
  {
    if |parts| == 0 then ""
    else if |parts| == 1 then parts[0]
    else parts[0] + sep + Join(parts[1..], sep)
  }

  function DigitChar(d: nat): char
    requires d < 10
  {
    ('0' as int + d) as char
  }

  /** The decimal text of a natural number (template-literal interpolation). */
  function NatToString(n: nat): (r: string)
    ensures |r| >= 1
    ensures forall i :: 0 <= i < |r| ==> '0' <= r[i] <= '9'
    decreases n
  {
    if n < 10 then [DigitChar(n)] else NatToString(n / 10) + [DigitChar(n % 10)]
  }
}
