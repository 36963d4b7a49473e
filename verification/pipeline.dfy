/** The intake pipeline: extract facts from the caller's words, audit them,
    ask for the first missing field, and log the exchange. The three model
    calls (extractor, verifier, question writer) are parameters. */
module Pipeline {
  import opened Common

  // ---------------------------------------------------------------------
  // Data

  /** A value in the extracted record. */
  datatype FieldValue = Text(s: string) | Count(n: int) | Null

  type Info = map<string, FieldValue>

  /** The record's defaults, used when nothing has been collected yet. */
  const DefaultInfo: Info := map[
    "caller_name" := Text("N/A"),
    "emergency_type" := Text("unknown"),
    "location" := Text("N/A"),
    "number_of_people_involved" := Count(1),
    "age_group" := Text("unknown"),
    "immediate_dangers" := Text("N/A"),
    "medical_conditions" := Text("N/A"),
    "description" := Text("")
  ]

  /** The auditor's verdict. */
  datatype Verification = Verification(isSufficient: bool, missingFields: seq<string>)

  /** The model calls: extraction from (transcript, record so far, history);
      the audit of a record; a question about a field given the history. */
  datatype Agents = Agents(
    extract: (string, Info, seq<string>) -> Info,
    verify: Info -> Verification,
    question: (string, seq<string>) -> string)

  /** The graph's state. A key the dictionary does not hold is `None`. */
  datatype AgentState = AgentState(
    transcript: Option<string>,
    collectedData: Option<Info>,
    missingFields: Option<seq<string>>,
    nextQuestion: Option<string>,
    isComplete: Option<bool>,
    history: Option<seq<string>>)

  // ---------------------------------------------------------------------
  // The nodes

  /** Extraction: the extractor sees the collected record, or the defaults
      when nothing has been collected; only the record is replaced. */
  function ExtractionStep(agents: Agents, s: AgentState): (r: AgentState)
    requires s.transcript.Some?
    ensures r == s.(collectedData := r.collectedData)
    ensures (s.collectedData.None? || s.collectedData.value == map[]) ==>
      r.collectedData == Some(agents.extract(s.transcript.value, DefaultInfo, s.history.GetOr([])))
    ensures s.collectedData.Some? && s.collectedData.value != map[] ==>
      r.collectedData == Some(agents.extract(s.transcript.value, s.collectedData.value, s.history.GetOr([])))
  {
    var current := if s.collectedData.None? || s.collectedData.value == map[] then DefaultInfo
                   else s.collectedData.value;
    s.(collectedData := Some(agents.extract(s.transcript.value, current, s.history.GetOr([]))))
  }

  /** Verification: the verdict and the missing fields are copied as
      given; nothing else changes. */
  function VerificationStep(agents: Agents, s: AgentState): (r: AgentState)
    requires s.collectedData.Some?
    ensures r == s.(isComplete := r.isComplete, missingFields := r.missingFields)
    ensures r.isComplete == Some(agents.verify(s.collectedData.value).isSufficient)
    ensures r.missingFields == Some(agents.verify(s.collectedData.value).missingFields)
  {
    var v := agents.verify(s.collectedData.value);
    s.(isComplete := Some(v.isSufficient), missingFields := Some(v.missingFields))
  }

  const FallbackQuestion := "Please provide any other relevant details."

  /** The question asked: the fixed request when no field is missing,
      otherwise one about the first missing field only. */
  function QuestionFor(agents: Agents, missing: seq<string>, history: seq<string>): (q: string)
    ensures missing == [] ==> q == FallbackQuestion
    ensures missing != [] ==> q == agents.question(missing[0], history)
  {
    if missing == [] then FallbackQuestion else agents.question(missing[0], history)
  }

  function QuestionStep(agents: Agents, s: AgentState): (r: AgentState)
    ensures r == s.(nextQuestion := r.nextQuestion)
    ensures r.nextQuestion == Some(QuestionFor(agents, s.missingFields.GetOr([]), s.history.GetOr([])))
  {
    s.(nextQuestion := Some(QuestionFor(agents, s.missingFields.GetOr([]), s.history.GetOr([]))))
  }

  /** The history update: a caller line when there is a transcript, then an
      operator line when the record is incomplete. Earlier entries stay as
      they were; nothing else changes. */
  function UpdateHistoryStep(s: AgentState): (r: AgentState)
    requires s.isComplete.Some?
    requires !s.isComplete.value ==> s.nextQuestion.Some?
    ensures r == s.(history := r.history)
    ensures r.history.Some?
    ensures var h := s.history.GetOr([]);
      && h <= r.history.value
      && |r.history.value| - |h| == (if Truthy(s.transcript) then 1 else 0) + (if s.isComplete.value then 0 else 1)
    ensures Truthy(s.transcript) ==> r.history.value[|s.history.GetOr([])|] == "Caller: " + s.transcript.value
    ensures !s.isComplete.value ==> r.history.value[|r.history.value| - 1] == "Operator: " + s.nextQuestion.value
  {
    var h := s.history.GetOr([]);
    var withCaller := if Truthy(s.transcript) then h + ["Caller: " + s.transcript.value] else h;
    var withOperator := if !s.isComplete.value then withCaller + ["Operator: " + s.nextQuestion.value] else withCaller;
    s.(history := Some(withOperator))
  }

  // ---------------------------------------------------------------------
  // The graph

  datatype Route = Dispatch | GenerateQuestion

  /** The verifier's conditional edge. */
  function CheckStatus(s: AgentState): (route: Route)
    requires s.isComplete.Some?
    ensures route == Dispatch <==> s.isComplete.value
  {
    if s.isComplete.value then Dispatch else GenerateQuestion
  }

  datatype Node = Extractor | Verifier | QuestionGen | HistoryUpdater | End

  /** What a node needs of the state it receives. */
  predicate Ready(n: Node, s: AgentState) {
    match n
    case Extractor => s.transcript.Some?
    case Verifier => s.collectedData.Some?
    case QuestionGen => s.isComplete.Some?
    case HistoryUpdater => s.isComplete.Some? && (!s.isComplete.value ==> s.nextQuestion.Some?)
    case End => true
  }

  function Step(agents: Agents, n: Node, s: AgentState): AgentState
    requires Ready(n, s)
  {
    match n
    case Extractor => ExtractionStep(agents, s)
    case Verifier => VerificationStep(agents, s)
    case QuestionGen => QuestionStep(agents, s)
    case HistoryUpdater => UpdateHistoryStep(s)
    case End => s
  }

  /** The edges: extractor to verifier; verifier to the history updater
      when complete, else to the question writer; question writer to the
      history updater; history updater to the end. */
  function Successor(n: Node, s: AgentState): Node
    requires n == Verifier ==> s.isComplete.Some?
  {
    match n
    case Extractor => Verifier
    case Verifier => if CheckStatus(s) == Dispatch then HistoryUpdater else QuestionGen
    case QuestionGen => HistoryUpdater
    case HistoryUpdater => End
    case End => End
  }

  /** How many edges remain before the end, at most. */
  function Distance(n: Node): nat {
    match n
    case Extractor => 4
    case Verifier => 3
    case QuestionGen => 2
    case HistoryUpdater => 1
    case End => 0
  }

  /** Every node leaves the state ready for the node it hands over to, and
      every edge moves closer to the end. */
  lemma StepHandsOver(agents: Agents, n: Node, s: AgentState)
    requires Ready(n, s) && n != End
    ensures var t := Step(agents, n, s);
      (n == Verifier ==> t.isComplete.Some?) &&
      Ready(Successor(n, t), t) && Distance(Successor(n, t)) < Distance(n)
  {
  }

  /** The run from `n` to the end: the final state. */
  function Run(agents: Agents, n: Node, s: AgentState): AgentState
    requires Ready(n, s)
    decreases Distance(n)
  {
    if n == End then s
    else
      var t := Step(agents, n, s);
      StepHandsOver(agents, n, s);
      Run(agents, Successor(n, t), t)
  }

  /** The nodes visited from `n` on, `n` first. */
  function Trace(agents: Agents, n: Node, s: AgentState): seq<Node>
    requires Ready(n, s)
    decreases Distance(n)
  {
    if n == End then [End]
    else
      var t := Step(agents, n, s);
      StepHandsOver(agents, n, s);
      [n] + Trace(agents, Successor(n, t), t)
  }

  /** One invocation of the compiled graph. */
  function Invoke(agents: Agents, s: AgentState): AgentState
    requires s.transcript.Some?
  {
    Run(agents, Extractor, s)
  }

  /** The record the verifier audits on an invocation. */
  function Audited(agents: Agents, s: AgentState): Info
    requires s.transcript.Some?
  {
    ExtractionStep(agents, s).collectedData.value
  }

  /** A complete record skips the question writer: the path is extractor,
      verifier, history updater; the pending question stays what it was;
      only a caller line is logged. */
  lemma InvokeComplete(agents: Agents, s: AgentState)
    requires s.transcript.Some?
    requires agents.verify(Audited(agents, s)).isSufficient
    ensures Trace(agents, Extractor, s) == [Extractor, Verifier, HistoryUpdater, End]
    ensures Invoke(agents, s).nextQuestion == s.nextQuestion
    ensures Invoke(agents, s).isComplete == Some(true)
    ensures var h := s.history.GetOr([]);
      Invoke(agents, s).history == Some(if s.transcript.value != "" then h + ["Caller: " + s.transcript.value] else h)
  {
    var s1 := ExtractionStep(agents, s);
    var s2 := VerificationStep(agents, s1);
    assert Successor(Verifier, s2) == HistoryUpdater;
    var s3 := UpdateHistoryStep(s2);
    assert Run(agents, Extractor, s) == Run(agents, Verifier, s1) == Run(agents, HistoryUpdater, s2);
    assert Trace(agents, Verifier, s1) == [Verifier] + Trace(agents, HistoryUpdater, s2);
    assert Trace(agents, HistoryUpdater, s2) == [HistoryUpdater] + Trace(agents, End, s3);
  }

  /** An incomplete record is asked about: the path goes through the
      question writer, which asks about the first missing field (or asks
      for anything else when none is listed), and that question is the last
      line logged. */
  lemma InvokeIncomplete(agents: Agents, s: AgentState)
    requires s.transcript.Some?
    requires !agents.verify(Audited(agents, s)).isSufficient
    ensures Trace(agents, Extractor, s) == [Extractor, Verifier, QuestionGen, HistoryUpdater, End]
    ensures var q := QuestionFor(agents, agents.verify(Audited(agents, s)).missingFields, s.history.GetOr([]));
      && Invoke(agents, s).nextQuestion == Some(q)
      && Invoke(agents, s).history.Some?
      && |Invoke(agents, s).history.value| > 0
      && Invoke(agents, s).history.value[|Invoke(agents, s).history.value| - 1] == "Operator: " + q
  {
    var s1 := ExtractionStep(agents, s);
    var s2 := VerificationStep(agents, s1);
    assert Successor(Verifier, s2) == QuestionGen;
    var s3 := QuestionStep(agents, s2);
    var s4 := UpdateHistoryStep(s3);
    assert Run(agents, Extractor, s) == Run(agents, Verifier, s1) == Run(agents, QuestionGen, s2)
      == Run(agents, HistoryUpdater, s3) == s4;
    assert Trace(agents, Verifier, s1) == [Verifier] + Trace(agents, QuestionGen, s2);
    assert Trace(agents, QuestionGen, s2) == [QuestionGen] + Trace(agents, HistoryUpdater, s3);
    assert Trace(agents, HistoryUpdater, s3) == [HistoryUpdater] + Trace(agents, End, s4);
  }

  // ---------------------------------------------------------------------
  // The helper the callers use

  /** The caller's state dictionary, which the helper writes into. */
  class Session {
    var state: AgentState

    constructor Open(initial: AgentState)
      ensures state == initial
    {
      state := initial;
    }

    /** The input becomes the transcript, an absent history becomes empty
        (a present one is kept), and the graph runs on the result. */
    method RunEmergencyPipeline(agents: Agents, userInput: string) returns (result: AgentState)
      modifies this
      ensures state == old(state).(transcript := Some(userInput),
                                   history := if old(state).history.None? then Some([]) else old(state).history)
      ensures result == Invoke(agents, state)
    {
      state := state.(transcript := Some(userInput));
      if state.history.None? {
        state := state.(history := Some([]));
      }
      result := Invoke(agents, state);
    }
  }

  /** Every run keeps the log it was given and adds at most two lines. */
  lemma RunKeepsHistory(agents: Agents, s: AgentState)
    requires s.transcript.Some? && s.history.Some?
    ensures Invoke(agents, s).history.Some?
    ensures s.history.value <= Invoke(agents, s).history.value
    ensures |Invoke(agents, s).history.value| <= |s.history.value| + 2
  {
    if agents.verify(Audited(agents, s)).isSufficient {
      InvokeComplete(agents, s);
    } else {
      var s1 := ExtractionStep(agents, s);
      var s2 := VerificationStep(agents, s1);
      var s3 := QuestionStep(agents, s2);
      InvokeIncomplete(agents, s);
      assert Invoke(agents, s) == UpdateHistoryStep(s3);
    }
  }
}
