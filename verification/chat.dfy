/** The agent chat panel: a keyword reply classifier and an append-only
    message list whose ids follow the list's length. */
module AgentChat {
  import opened Common
  import opened Text

  // ---------------------------------------------------------------------
  // The reply classifier

  const StepReply := "The next step is: Check breathing and pulse. If no pulse, begin CPR immediately."
  const AmbulanceReply := "The nearest ambulance (AMB-042) is 5.2 minutes away. I recommend dispatching it immediately."
  const HospitalReply := "The nearest cardiac center is City Hospital, 12 minutes away."
  const DefaultReply := "I've noted that. Is there anything specific you need help with regarding the protocol?"

  /** The canned reply to a message: the first group of keywords the
      lowercased message contains decides it. */
  function Reply(input: string): (r: string)
    ensures r in {StepReply, AmbulanceReply, HospitalReply, DefaultReply}
  {
    var t := Lower(input);
    if Contains(t, "step") || Contains(t, "next") then StepReply
    else if Contains(t, "ambulance") || Contains(t, "eta") then AmbulanceReply
    else if Contains(t, "hospital") then HospitalReply
    else DefaultReply
  }

  /** Which reply a message gets, in the order the keyword groups are
      tried: a group decides exactly when it matches and no earlier group
      does. */
  lemma ReplyPrecedence(input: string)
    ensures var t := Lower(input);
      && (Reply(input) == StepReply <==> Contains(t, "step") || Contains(t, "next"))
      && (Reply(input) == AmbulanceReply <==>
            !(Contains(t, "step") || Contains(t, "next")) && (Contains(t, "ambulance") || Contains(t, "eta")))
      && (Reply(input) == HospitalReply <==>
            !(Contains(t, "step") || Contains(t, "next")) && !(Contains(t, "ambulance") || Contains(t, "eta"))
            && Contains(t, "hospital"))
      && (Reply(input) == DefaultReply <==>
            !Contains(t, "step") && !Contains(t, "next") && !Contains(t, "ambulance") && !Contains(t, "eta")
            && !Contains(t, "hospital"))
  {
    assert StepReply != AmbulanceReply && StepReply != HospitalReply && StepReply != DefaultReply;
    assert AmbulanceReply != HospitalReply && AmbulanceReply != DefaultReply;
    assert HospitalReply != DefaultReply;
  }

  /** The classifier ignores letter case. */
  lemma ReplyIgnoresCase(input: string)
    ensures Reply(Lower(input)) == Reply(input)
  {
    LowerIdempotent(input);
  }

  /** Keywords match anywhere, inside longer words too: "details" holds
      "eta", so a request for details gets the ambulance reply. (The text
      is a parameter pinned by `requires`, as in the catalog lemmas, to keep
      the literal out of the conclusion.) */
  lemma DetailsAskGetsAmbulanceReply(input: string)
    requires input == "Send the details"
    ensures Reply(input) == AmbulanceReply
  {
    DetailsLacksStepWords(input);
    DetailsHoldsEta(input);
  }

  /** "Send the details" has no 'p' and no 'x', so neither "step" nor "next". */
  lemma DetailsLacksStepWords(input: string)
    requires input == "Send the details"
    ensures !Contains(Lower(input), "step") && !Contains(Lower(input), "next")
  {
    forall i | 0 <= i < |input|
      ensures input[i] != 'p' && input[i] != 'P' && input[i] != 'x' && input[i] != 'X'
    {
    }
    MissingLetter(input, "step", 3);
    MissingLetter(input, "next", 2);
  }

  /** "details" holds "eta" at position 10 of the lowered text. */
  lemma DetailsHoldsEta(input: string)
    requires input == "Send the details"
    ensures Contains(Lower(input), "eta")
  {
    var t := Lower(input);
    assert t[10] == 'e' && t[11] == 't' && t[12] == 'a';
    assert t[10..13] == "eta";
    ContainsAt(t, "eta", 10);
  }

  // ---------------------------------------------------------------------
  // The message list

  datatype Sender = AgentSender | UserSender

  /** A chat message. The timestamp is not modelled. */
  datatype Message = Message(id: nat, sender: Sender, text: string)

  const Greeting := "Hello, I've analyzed the call. The patient is likely suffering from Cardiac Arrest (94% confidence)."
  const ProtocolIntro := "I recommend following the Cardiac Arrest protocol. Here are the first few steps:\n"

  /** `steps.slice(0, 3).map(s => `- ${s}`)`. */
  function Bullets(steps: seq<string>): (r: seq<string>)
    ensures |r| == if |steps| < 3 then |steps| else 3
    ensures forall i :: 0 <= i < |r| ==> r[i] == "- " + steps[i]
  {
    var n := if |steps| < 3 then |steps| else 3;
    seq(n, i requires 0 <= i < n => "- " + steps[i])
  }

  /** The second opening message: the intro, then the first three steps
      one per line. */
  function ProtocolMessage(steps: seq<string>): string {
    ProtocolIntro + Join(Bullets(steps), "\n")
  }

  /** With three steps or more, the opening lists exactly the first three,
      one bullet per line, whatever follows them. */
  lemma {:induction false} ProtocolMessageListsFirstThree(steps: seq<string>)
    requires |steps| >= 3
    ensures ProtocolMessage(steps)
      == ProtocolIntro + "- " + steps[0] + "\n" + "- " + steps[1] + "\n" + "- " + steps[2]
    ensures ProtocolMessage(steps) == ProtocolMessage(steps[..3])
  {
    var b := Bullets(steps);
    assert b == ["- " + steps[0], "- " + steps[1], "- " + steps[2]];
    assert Bullets(steps[..3]) == b;
    assert b[1..][1..] == [b[2]];
    assert Join(b[1..][1..], "\n") == b[2];
    assert Join(b[1..], "\n") == b[1] + "\n" + b[2];
    assert Join(b, "\n") == b[0] + "\n" + (b[1] + "\n" + b[2]);
  }

  /** Ids run 1, 2, 3, ... in list order. */
  predicate Numbered(messages: seq<Message>) {
    forall i :: 0 <= i < |messages| ==> messages[i].id == i + 1
  }

  class ChatPanel {
    var messages: seq<Message>
    var input: string

    ghost predicate Valid()
      reads this
    {
      Numbered(messages)
    }

    /** The panel opens with two agent messages and an empty input. */
    constructor Open(initialSteps: seq<string>)
      ensures Valid()
      ensures messages == [Message(1, AgentSender, Greeting), Message(2, AgentSender, ProtocolMessage(initialSteps))]
      ensures input == ""
    {
      messages := [Message(1, AgentSender, Greeting), Message(2, AgentSender, ProtocolMessage(initialSteps))];
      input := "";
    }

    /** Typing into the input box. */
    method Type(text: string)
      modifies this
      ensures input == text && messages == old(messages)
    {
      input := text;
    }

    /** Send: a blank input does nothing. Otherwise the input, untrimmed, is
        appended as a user message numbered after the list, the box is
        cleared, and the text the reply will answer is returned. */
    method SendMessage() returns (pending: Option<string>)
      requires Valid()
      modifies this
      ensures Valid()
      ensures pending.None? <==> IsBlank(old(input))
      ensures pending.None? ==> messages == old(messages) && input == old(input)
      ensures pending.Some? ==>
        && pending.value == old(input)
        && messages == old(messages) + [Message(|old(messages)| + 1, UserSender, old(input))]
        && input == ""
    {
      TrimEmptyIffBlank(input);
      if Trim(input) == "" {
        return None;
      }
      pending := Some(input);
      messages := messages + [Message(|messages| + 1, UserSender, input)];
      input := "";
    }

    /** The agent's reply lands: it answers the sent text and is numbered
        after the list as it then stands. */
    method DeliverReply(sent: string)
      requires Valid()
      modifies this
      ensures Valid()
      ensures messages == old(messages) + [Message(|old(messages)| + 1, AgentSender, Reply(sent))]
      ensures input == old(input)
    {
      messages := messages + [Message(|messages| + 1, AgentSender, Reply(sent))];
    }
  }

  /** Appending a message numbered one past the length keeps the numbering,
      and it is the only id that does. */
  lemma AppendNumbered(messages: seq<Message>, m: Message)
    requires Numbered(messages)
    ensures Numbered(messages + [m]) <==> m.id == |messages| + 1
  {
    if m.id == |messages| + 1 {
      forall i | 0 <= i < |messages| + 1 ensures (messages + [m])[i].id == i + 1 {
        if i < |messages| {
          assert (messages + [m])[i] == messages[i];
        }
      }
    } else {
      assert (messages + [m])[|messages|] == m;
    }
  }
}
