/** The resource ranking engine: after an edit is committed every resource's
    distance, ETA and suggestion flag are recomputed for the incident, the
    resources are stable-sorted (suggested first, then by ETA) and the first
    suggested one is selected. */
module Ranking {
  import opened Common
  import opened Text
  import opened Model

  // ---------------------------------------------------------------------
  // Suggestion: a three-bucket substring classifier over the incident type

  datatype Bucket = FireIncident | ViolentIncident | MedicalIncident | Unclassified

  /** The words that put a (lowercased) incident type into a bucket. */
  function Keywords(b: Bucket): seq<string> {
    match b
    case FireIncident => ["fire"]
    case ViolentIncident => ["murder", "fight", "violence", "robbery"]
    case MedicalIncident => ["cardiac", "heart", "pregnancy", "medical", "breathing"]
    case Unclassified => []
  }

  /** The buckets are tried in this order; the first that matches wins. */
  function Priority(b: Bucket): nat {
    match b
    case FireIncident => 0
    case ViolentIncident => 1
    case MedicalIncident => 2
    case Unclassified => 3
  }

  /** The resource-type words a bucket accepts (lowercased substrings). */
  function Accepted(b: Bucket): seq<string> {
    match b
    case FireIncident => ["fire", "police", "ambulance"]
    case ViolentIncident => ["police", "ambulance"]
    case MedicalIncident => ["ambulance"]
    case Unclassified => []
  }

  predicate Matches(incidentType: string, b: Bucket) {
    ContainsAny(Lower(incidentType), Keywords(b))
  }

  function Classify(incidentType: string): Bucket {
    var t := Lower(incidentType);
    if Contains(t, "fire") then FireIncident
    else if ContainsAny(t, Keywords(ViolentIncident)) then ViolentIncident
    else if ContainsAny(t, Keywords(MedicalIncident)) then MedicalIncident
    else Unclassified
  }

  /** Classification is first-match in priority order: the bucket chosen
      matches and no earlier bucket does; no bucket is chosen exactly when
      none matches. */
  lemma ClassifyFirstMatch(incidentType: string, b: Bucket)
    ensures b != Unclassified ==>
      (Classify(incidentType) == b <==>
        Matches(incidentType, b)
        && forall e: Bucket :: Priority(e) < Priority(b) ==> !Matches(incidentType, e))
    ensures Classify(incidentType) == Unclassified <==>
      forall e: Bucket :: !Matches(incidentType, e)
  {
    var t := Lower(incidentType);
    assert Matches(incidentType, FireIncident) == Contains(t, "fire") by {
      if Contains(t, "fire") {
        assert "fire" in Keywords(FireIncident);
      }
    }
    assert Matches(incidentType, ViolentIncident) == ContainsAny(t, Keywords(ViolentIncident));
    assert Matches(incidentType, MedicalIncident) == ContainsAny(t, Keywords(MedicalIncident));
    assert !Matches(incidentType, Unclassified);
    forall e: Bucket
      ensures Priority(e) < Priority(Classify(incidentType)) ==> !Matches(incidentType, e)
      ensures Classify(incidentType) == Unclassified ==> !Matches(incidentType, e)
    {
      match e
      case FireIncident =>
      case ViolentIncident =>
      case MedicalIncident =>
      case Unclassified =>
    }
  }

  /** `isAiSuggested`: the lowercased unit type contains a word accepted by
      the incident's bucket. */
  predicate Suggested(incidentType: string, kind: string) {
    ContainsAny(Lower(kind), Accepted(Classify(incidentType)))
  }

  /** The accepted sets are nested: a unit suggested for a medical incident
      would be suggested for a violent one, and that for a fire. */
  lemma AcceptedNested(kind: string)
    ensures ContainsAny(kind, Accepted(MedicalIncident)) ==> ContainsAny(kind, Accepted(ViolentIncident))
    ensures ContainsAny(kind, Accepted(ViolentIncident)) ==> ContainsAny(kind, Accepted(FireIncident))
  {
    if ContainsAny(kind, Accepted(MedicalIncident)) {
      assert Contains(kind, "ambulance");
      assert "ambulance" in Accepted(ViolentIncident);
    }
    if ContainsAny(kind, Accepted(ViolentIncident)) {
      var w :| w in Accepted(ViolentIncident) && Contains(kind, w);
      assert w in Accepted(FireIncident);
    }
  }

  /** An incident type that matches no bucket suggests nothing. */
  lemma UnclassifiedSuggestsNothing(incidentType: string, kind: string)
    requires forall e: Bucket :: !Matches(incidentType, e)
    ensures !Suggested(incidentType, kind)
  {
    ClassifyFirstMatch(incidentType, Unclassified);
  }

  // ---------------------------------------------------------------------
  // Derived fields

  /** `round1(2 * distance + 1)`: two minutes per km plus one minute, in
      tenths; at least one minute. */
  function EtaTenths(distTenths: nat): (eta: nat)
    ensures eta >= 10
  {
    2 * distTenths + 10
  }

  /** A longer distance always means a later arrival. */
  lemma EtaStrictlyIncreasing(d1: nat, d2: nat)
    requires d1 < d2
    ensures EtaTenths(d1) < EtaTenths(d2)
  {
  }

  /** The derived fields of `r` are those of an incident at `incident` of
      type `incidentType`, with `distance` giving tenths of a km. */
  ghost predicate Current(r: Resource, incident: Coord, incidentType: string, distance: (Coord, Coord) -> nat) {
    && r.distTenths == distance(r.base, incident)
    && r.etaTenths == EtaTenths(r.distTenths)
    && r.suggested == Suggested(incidentType, r.kind)
  }

  /** The non-derived part of a resource: id, type and both coordinate pairs. */
  function Identity(r: Resource): Resource {
    r.(etaTenths := 0, distTenths := 0, suggested := false)
  }

  function Identities(rs: seq<Resource>): (ids: seq<Resource>)
    ensures |ids| == |rs|
    ensures forall i :: 0 <= i < |rs| ==> ids[i] == Identity(rs[i])
  {
    seq(|rs|, i requires 0 <= i < |rs| => Identity(rs[i]))
  }

  lemma IdentitiesCons(x: Resource, rs: seq<Resource>)
    ensures Identities([x] + rs) == [Identity(x)] + Identities(rs)
  {
    var l, r := Identities([x] + rs), [Identity(x)] + Identities(rs);
    assert |l| == |r|;
    forall i | 0 <= i < |l| ensures l[i] == r[i] {
      if i > 0 {
        assert ([x] + rs)[i] == rs[i - 1];
      }
    }
  }

  /** The spread `{...r, distance, eta, isAiSuggested}`. */
  function Refresh(r: Resource, incident: Coord, incidentType: string, distance: (Coord, Coord) -> nat): (u: Resource)
    ensures Identity(u) == Identity(r)
    ensures Current(u, incident, incidentType, distance)
  {
    var d := distance(r.base, incident);
    r.(distTenths := d, etaTenths := EtaTenths(d), suggested := Suggested(incidentType, r.kind))
  }

  /** `resources.map(...)`. */
  function RefreshAll(rs: seq<Resource>, incident: Coord, incidentType: string, distance: (Coord, Coord) -> nat): (us: seq<Resource>)
    ensures |us| == |rs|
    ensures Identities(us) == Identities(rs)
    ensures forall u :: u in us ==> Current(u, incident, incidentType, distance)
    decreases |rs|
  {
    if rs == [] then []
    else
      var u, us := Refresh(rs[0], incident, incidentType, distance), RefreshAll(rs[1..], incident, incidentType, distance);
      IdentitiesCons(u, us);
      IdentitiesCons(rs[0], rs[1..]);
      assert [rs[0]] + rs[1..] == rs;
      [u] + us
  }

  // ---------------------------------------------------------------------
  // Ordering: the comparator and a stable sort

  /** The comparator is negative: `a` is suggested and `b` is not, or both
      are in the same group and `a` arrives sooner. */
  predicate Before(a: Resource, b: Resource) {
    if a.suggested == b.suggested then a.etaTenths < b.etaTenths else a.suggested
  }

  /** The comparator is a strict weak order, as `Array.prototype.sort`
      requires: irreflexive, transitive, and two units neither of which
      precedes the other have the same key. */
  lemma BeforeIsStrictWeakOrder(a: Resource, b: Resource, c: Resource)
    ensures !Before(a, a)
    ensures Before(a, b) && Before(b, c) ==> Before(a, c)
    ensures !Before(a, b) && !Before(b, a) ==> SameKey(a, b)
  {
  }

  /** The comparator is zero. */
  predicate SameKey(a: Resource, b: Resource) {
    a.suggested == b.suggested && a.etaTenths == b.etaTenths
  }

  /** The comparator is not positive: `b` may follow `a`. */
  predicate NotAfter(a: Resource, b: Resource) {
    (b.suggested ==> a.suggested) && (a.suggested == b.suggested ==> a.etaTenths <= b.etaTenths)
  }

  /** Suggested resources first; within each group ETA does not decrease. */
  predicate Sorted(rs: seq<Resource>) {
    forall i, j :: 0 <= i < j < |rs| ==> NotAfter(rs[i], rs[j])
  }

  /** Places `x` before the first element that does not strictly precede it. */
  function Insert(x: Resource, rs: seq<Resource>): (r: seq<Resource>)
    ensures multiset(r) == multiset(rs) + multiset{x}
    decreases |rs|
  {
    if rs == [] || !Before(rs[0], x) then [x] + rs
    else
      assert rs == [rs[0]] + rs[1..];
      [rs[0]] + Insert(x, rs[1..])
  }

  lemma {:induction false} InsertSorted(x: Resource, rs: seq<Resource>)
    requires Sorted(rs)
    ensures Sorted(Insert(x, rs))
    decreases |rs|
  {
    if rs == [] || !Before(rs[0], x) {
      forall j | 0 <= j < |rs| ensures NotAfter(x, rs[j]) {
        assert NotAfter(rs[0], rs[j]) || j == 0;
      }
      ConsSorted(x, rs);
    } else {
      var tail := Insert(x, rs[1..]);
      assert Sorted(rs[1..]) by {
        forall i, j | 0 <= i < j < |rs[1..]| ensures NotAfter(rs[1..][i], rs[1..][j]) {
          assert rs[1..][i] == rs[i + 1] && rs[1..][j] == rs[j + 1];
        }
      }
      InsertSorted(x, rs[1..]);
      forall j | 0 <= j < |tail| ensures NotAfter(rs[0], tail[j]) {
        assert tail[j] in multiset(tail);
        assert tail[j] == x || tail[j] in rs[1..];
        if tail[j] != x {
          var m :| 0 <= m < |rs[1..]| && rs[1..][m] == tail[j];
          assert rs[m + 1] == tail[j];
        }
      }
      ConsSorted(rs[0], tail);
    }
  }

  /** An element that no element of a sorted list must precede can be put
      in front of it. */
  lemma ConsSorted(y: Resource, rs: seq<Resource>)
    requires Sorted(rs)
    requires forall j :: 0 <= j < |rs| ==> NotAfter(y, rs[j])
    ensures Sorted([y] + rs)
  {
    var r := [y] + rs;
    forall i, j | 0 <= i < j < |r| ensures NotAfter(r[i], r[j]) {
      assert r[j] == rs[j - 1];
      if i > 0 {
        assert r[i] == rs[i - 1];
      }
    }
  }

  /** The stable sort of the comparator: every element is inserted ahead of
      the later elements it does not follow. */
  function Sort(rs: seq<Resource>): (r: seq<Resource>)
    ensures Sorted(r)
    ensures multiset(r) == multiset(rs)
    decreases |rs|
  {
    if rs == [] then []
    else
      assert rs == [rs[0]] + rs[1..];
      InsertSorted(rs[0], Sort(rs[1..]));
      Insert(rs[0], Sort(rs[1..]))
  }

  /** The elements of `rs` whose key equals that of `k`, in order. */
  function Tier(rs: seq<Resource>, k: Resource): seq<Resource>
    decreases |rs|
  {
    if rs == [] then []
    else (if SameKey(rs[0], k) then [rs[0]] else []) + Tier(rs[1..], k)
  }

  lemma {:induction false} InsertTier(x: Resource, rs: seq<Resource>, k: Resource)
    ensures Tier(Insert(x, rs), k) == Tier([x] + rs, k)
    decreases |rs|
  {
    if rs == [] || !Before(rs[0], x) {
    } else {
      var y := rs[0];
      InsertTier(x, rs[1..], k);
      assert ([y] + Insert(x, rs[1..]))[1..] == Insert(x, rs[1..]);
      assert ([x] + rs[1..])[1..] == rs[1..];
      assert ([x] + rs)[1..] == rs;
      assert !(SameKey(y, k) && SameKey(x, k));
    }
  }

  /** Stability: resources the comparator calls equal keep their relative
      order, for every key. */
  lemma {:induction false} SortStable(rs: seq<Resource>, k: Resource)
    ensures Tier(Sort(rs), k) == Tier(rs, k)
    decreases |rs|
  {
    if rs != [] {
      SortStable(rs[1..], k);
      InsertTier(rs[0], Sort(rs[1..]), k);
      assert ([rs[0]] + Sort(rs[1..]))[1..] == Sort(rs[1..]);
    }
  }

  lemma {:induction false} InsertIdentities(x: Resource, rs: seq<Resource>)
    ensures multiset(Identities(Insert(x, rs))) == multiset(Identities(rs)) + multiset{Identity(x)}
    decreases |rs|
  {
    if rs == [] || !Before(rs[0], x) {
      IdentitiesCons(x, rs);
    } else {
      InsertIdentities(x, rs[1..]);
      IdentitiesCons(rs[0], Insert(x, rs[1..]));
      IdentitiesCons(rs[0], rs[1..]);
      assert [rs[0]] + rs[1..] == rs;
    }
  }

  /** Sorting moves whole resources: the multiset of identities is kept. */
  lemma {:induction false} SortIdentities(rs: seq<Resource>)
    ensures multiset(Identities(Sort(rs))) == multiset(Identities(rs))
    decreases |rs|
  {
    if rs != [] {
      SortIdentities(rs[1..]);
      InsertIdentities(rs[0], Sort(rs[1..]));
      IdentitiesCons(rs[0], rs[1..]);
      assert [rs[0]] + rs[1..] == rs;
    }
  }

  // ---------------------------------------------------------------------
  // The whole recompute

  /** The resources after a commit: refreshed for the incident, then sorted. */
  function Rank(rs: seq<Resource>, incident: Coord, incidentType: string, distance: (Coord, Coord) -> nat): seq<Resource> {
    Sort(RefreshAll(rs, incident, incidentType, distance))
  }

  /** The recompute neither creates nor drops a resource and rewrites only
      the derived fields; every derived field is current; the order is the
      comparator's. */
  lemma RankSpec(rs: seq<Resource>, incident: Coord, incidentType: string, distance: (Coord, Coord) -> nat)
    ensures |Rank(rs, incident, incidentType, distance)| == |rs|
    ensures multiset(Identities(Rank(rs, incident, incidentType, distance))) == multiset(Identities(rs))
    ensures forall r :: r in Rank(rs, incident, incidentType, distance) ==> Current(r, incident, incidentType, distance)
    ensures Sorted(Rank(rs, incident, incidentType, distance))
  {
    var us := RefreshAll(rs, incident, incidentType, distance);
    var ranked := Sort(us);
    SortIdentities(us);
    assert |ranked| == |multiset(ranked)| == |multiset(us)| == |us|;
    forall r | r in ranked ensures Current(r, incident, incidentType, distance) {
      assert r in multiset(us);
    }
  }

  /** Rank keeps each group's prior relative order among equal keys. */
  lemma RankStable(rs: seq<Resource>, incident: Coord, incidentType: string, distance: (Coord, Coord) -> nat, k: Resource)
    ensures Tier(Rank(rs, incident, incidentType, distance), k) == Tier(RefreshAll(rs, incident, incidentType, distance), k)
  {
    SortStable(RefreshAll(rs, incident, incidentType, distance), k);
  }

  // ---------------------------------------------------------------------
  // Auto-selection

  /** `find(r => r.isAiSuggested)`, as a position. */
  function FirstSuggested(rs: seq<Resource>): (k: Option<nat>)
    ensures k.Some? ==> k.value < |rs| && rs[k.value].suggested
    ensures k.Some? ==> forall i :: 0 <= i < k.value ==> !rs[i].suggested
    ensures k.None? ==> forall i :: 0 <= i < |rs| ==> !rs[i].suggested
    decreases |rs|
  {
    if rs == [] then None
    else if rs[0].suggested then Some(0)
    else match FirstSuggested(rs[1..])
      case None => None
      case Some(k) => Some(k + 1)
  }

  /** The selection after a commit: exactly the first suggested resource
      when there is one; otherwise the previous selection. */
  function AutoSelect(previous: seq<string>, ranked: seq<Resource>): (selection: seq<string>)
    ensures (exists i :: 0 <= i < |ranked| && ranked[i].suggested) ==>
      exists k :: 0 <= k < |ranked| && ranked[k].suggested
        && (forall m :: 0 <= m < k ==> !ranked[m].suggested)
        && selection == [ranked[k].id]
    ensures (forall i :: 0 <= i < |ranked| ==> !ranked[i].suggested) ==> selection == previous
  {
    match FirstSuggested(ranked)
    case Some(k) =>
      assert ranked[k].suggested && forall m :: 0 <= m < k ==> !ranked[m].suggested;
      [ranked[k].id]
    case None => previous
  }

  /** On a ranked list the selection is the head, a suggested resource no
      other suggested resource beats on ETA. */
  lemma AutoSelectLowestEta(previous: seq<string>, ranked: seq<Resource>)
    requires Sorted(ranked)
    requires exists i :: 0 <= i < |ranked| && ranked[i].suggested
    ensures ranked[0].suggested
    ensures AutoSelect(previous, ranked) == [ranked[0].id]
    ensures forall i :: 0 <= i < |ranked| && ranked[i].suggested ==> ranked[0].etaTenths <= ranked[i].etaTenths
  {
    var i :| 0 <= i < |ranked| && ranked[i].suggested;
    if i > 0 {
      assert ranked[0].suggested;
    }
  }

  // ---------------------------------------------------------------------
  // The in-place sort

  /** `Insert` puts `x` after exactly the leading elements that precede it. */
  lemma {:induction false} InsertAt(x: Resource, rs: seq<Resource>, k: nat)
    requires k <= |rs|
    requires forall m :: 0 <= m < k ==> Before(rs[m], x)
    requires k < |rs| ==> !Before(rs[k], x)
    ensures Insert(x, rs) == rs[..k] + [x] + rs[k..]
    decreases k
  {
    if k == 0 {
      assert rs[k..] == rs;
    } else {
      var tail := rs[1..];
      forall m | 0 <= m < k - 1 ensures Before(tail[m], x) {
        assert tail[m] == rs[m + 1];
      }
      assert k - 1 < |tail| ==> tail[k - 1] == rs[k];
      InsertAt(x, tail, k - 1);
      assert Insert(x, rs) == [rs[0]] + Insert(x, tail);
      SpliceCons(rs, x, k);
    }
  }

  /** Splicing into the tail and consing the head back is splicing one
      place further in. */
  lemma SpliceCons<T>(rs: seq<T>, x: T, k: nat)
    requires 1 <= k <= |rs|
    ensures [rs[0]] + (rs[1..][..k - 1] + [x] + rs[1..][k - 1..]) == rs[..k] + [x] + rs[k..]
  {
    assert rs[1..][..k - 1] == rs[1..k];
    assert rs[1..][k - 1..] == rs[k..];
    assert rs[..k] == [rs[0]] + rs[1..k];
  }

  /** One step of the in-place sort: `a[i]` is moved into the sorted run
      `a[i+1..]`, shifting the elements that precede it one place left. */
  method InsertStep(a: array<Resource>, i: nat)
    requires i < a.Length
    modifies a
    ensures a[..i] == old(a[..i])
    ensures a[i..] == Insert(old(a[i]), old(a[i + 1..]))
  {
    ghost var b := a[..];
    var x := a[i];
    var j := i;
    while j + 1 < a.Length && Before(a[j + 1], x)
      invariant i <= j < a.Length
      invariant forall m :: 0 <= m < i ==> a[m] == b[m]
      invariant forall m :: i <= m < j ==> a[m] == b[m + 1]
      invariant forall m :: j < m < a.Length ==> a[m] == b[m]
      invariant forall m :: i < m <= j ==> Before(b[m], x)
    {
      a[j] := a[j + 1];
      j := j + 1;
    }
    a[j] := x;
    Placed(a[..], b, i, j);
  }

  /** After the shift, the array holds the old prefix, then the insertion
      of the old `b[i]` into the old run after it. */
  lemma Placed(c: seq<Resource>, b: seq<Resource>, i: nat, j: nat)
    requires i <= j < |b| == |c|
    requires forall m {:trigger c[m]} :: 0 <= m < i ==> c[m] == b[m]
    requires forall m :: i <= m < j ==> c[m] == b[m + 1]
    requires c[j] == b[i]
    requires forall m {:trigger c[m]} :: j < m < |b| ==> c[m] == b[m]
    requires forall m :: i < m <= j ==> Before(b[m], b[i])
    requires j + 1 < |b| ==> !Before(b[j + 1], b[i])
    ensures c[..i] == b[..i]
    ensures c[i..] == Insert(b[i], b[i + 1..])
  {
    var run := b[i + 1..];
    RunPrecedes(b, i, j, run);
    InsertAt(b[i], run, j - i);
    ShiftedRun(c, b, i, j);
  }

  /** The shift passed exactly the leading elements of the run that
      precede `b[i]`. */
  lemma RunPrecedes(b: seq<Resource>, i: nat, j: nat, run: seq<Resource>)
    requires i <= j < |b| && run == b[i + 1..]
    requires forall m :: i < m <= j ==> Before(b[m], b[i])
    requires j + 1 < |b| ==> !Before(b[j + 1], b[i])
    ensures forall m :: 0 <= m < j - i ==> Before(run[m], b[i])
    ensures j - i < |run| ==> !Before(run[j - i], b[i])
  {
    forall m | 0 <= m < j - i ensures Before(run[m], b[i]) {
      assert run[m] == b[i + 1 + m];
    }
    assert j - i < |run| ==> run[j - i] == b[j + 1];
  }

  /** After the shift, `c[i..]` is the old run after `b[i]` with `b[i]`
      placed at offset `j - i`. */
  lemma ShiftedRun(c: seq<Resource>, b: seq<Resource>, i: nat, j: nat)
    requires i <= j < |b| == |c|
    requires forall m :: i <= m < j ==> c[m] == b[m + 1]
    requires c[j] == b[i]
    requires forall m {:trigger c[m]} :: j < m < |b| ==> c[m] == b[m]
    ensures c[i..] == b[i + 1..][..j - i] + [b[i]] + b[i + 1..][j - i..]
  {
    var run := b[i + 1..];
    var k := j - i;
    var front := run[..k] + [b[i]];
    var inserted := front + run[k..];
    forall m | i <= m < |c|
      ensures c[m] == inserted[m - i]
    {
      if m < j {
        assert inserted[m - i] == front[m - i] == run[..k][m - i] == run[m - i];
      } else if m > j {
        assert |front| == k + 1;
        assert inserted[m - i] == run[k..][m - i - |front|] == run[m - i - 1];
      }
    }
  }

  /** `Array.prototype.sort` with the comparator, in place: an insertion
      sort that grows a sorted suffix leftwards. */
  method SortInPlace(a: array<Resource>)
    modifies a
    ensures a[..] == Sort(old(a[..]))
  {
    ghost var b := a[..];
    var i := a.Length;
    while i > 0
      invariant 0 <= i <= a.Length
      invariant a[..i] == b[..i]
      invariant a[i..] == Sort(b[i..])
    {
      i := i - 1;
      assert a[..i] == a[..i + 1][..i] == b[..i + 1][..i] == b[..i];
      assert a[i] == b[i] && a[i + 1..] == Sort(b[i + 1..]);
      InsertStep(a, i);
      SortSuffix(b, i);
    }
    assert a[..] == a[0..];
  }

  /** Sorting a suffix inserts its head into the sorted rest. */
  lemma SortSuffix(b: seq<Resource>, i: nat)
    requires i < |b|
    ensures Sort(b[i..]) == Insert(b[i], Sort(b[i + 1..]))
  {
    assert b[i..][1..] == b[i + 1..];
  }
}
