# Aarambh dispatcher console — a Dafny model

Aarambh is an emergency-call assistant. This project models its dispatcher
console and its intake pipeline.

- **The console's recompute** (`updateSystemState`) runs when editing ends.
  - It resolves the typed incident location through a fixed table.
  - It rewrites each responder unit's distance, ETA and AI-suggested flag.
  - The flag comes from a three-bucket keyword classifier over the incident
    type: fire, then violence, then medical.
  - It stable-sorts the units, suggested first and then by ETA.
  - It selects the first suggested unit.
- **The console's handlers:**
  - the multi-select toggle;
  - the dispatch filter and its notice;
  - the dispatch button's label;
  - vital toggling;
  - symptom add and remove;
  - the mapping of a voice agent's intake into the call and situation records.
- **The seed data:** the initial call, the resource catalog, the location
  table and the protocol steps.
- **The situation panel's rules:** symptoms are trimmed and blank ones
  rejected, and badge, add and remove clicks take effect only in edit mode.
- **The agent chat panel:**
  - the case-insensitive keyword reply classifier;
  - the append-only message list, whose ids follow its length;
  - the two opening messages.
- **The intake pipeline:** a four-node graph.
  - Extraction, then verification.
  - Then a question about the first missing field, only when the record is
    incomplete.
  - Then the conversation-log update.
  - The three language-model calls are function parameters.

Modules, one per concern:

| file | module | what it holds |
|---|---|---|
| common.dfy | `Common` | `Option` (an absent key, `undefined`, `None`) and string truthiness |
| text.dfy | `Text` | ASCII lower-casing, substring search, ECMAScript `trim`, `join`, decimal rendering |
| model.dfy | `Model` | the call, situation and resource records |
| locations.dfy | `Locations` | the location table and the coordinate lookup |
| ranking.dfy | `Ranking` | the classifier, derived fields, the stable sort (functional and in-place on an array), auto-selection |
| catalog.dfy | `Catalog` | the seed constants and the facts proved about them |
| selection.dfy | `Selection` | toggle, dispatch, dispatch label |
| situation.dfy | `Situation` | the symptom draft box and the edit-mode click gates |
| dashboard.dfy | `Dashboard` | record updates, the intake mapping, the `Console` class |
| chat.dfy | `AgentChat` | the reply classifier and the `ChatPanel` class |
| pipeline.dfy | `Pipeline` | the pipeline's nodes, its graph and the `Session` helper |

Units and representations:

- **Coordinates** are integers in units of 1e-4 degree. Every constant in
  the source has at most four decimals.
- **Distances** are tenths of a km and **ETAs** tenths of a minute. The
  console rounds both to one decimal, so the ETA rule `2 · distance + 1` is
  the exact integer relation `eta = 2 · dist + 10`.
- **The distance** between a unit's base and the incident is a function
  parameter. The source computes it in floating point.
- **Sorting:** `Array.prototype.sort` is stable (ECMAScript 2019 and later).
  With a consistent comparator, every stable sort gives the same order. The
  specification is therefore a functional insertion sort, `Ranking.Sort`.
  The array method `Ranking.SortInPlace` is proved to compute exactly that
  order.
- **State:** the console and the chat panel are classes whose fields are
  the React state cells. Each handler is a method that assigns the cells.
  Mounting the console runs the edit-mode effect once, because editing
  starts off. A freshly mounted console is therefore `Console.Init`
  followed by `Console.UpdateSystemState`.
- **The chat's keywords** match anywhere, inside longer words too. "details"
  contains "eta", so a request for details gets the ambulance reply
  (`AgentChat.DetailsAskGetsAmbulanceReply`).

## Model

| member | source | states |
|---|---|---|
| Text.Lower | src/components/DispatcherDashboard.jsx:82-83 | `toLowerCase` keeps the length and lowercases each character, ASCII letters only |
| Text.Contains | src/components/DispatcherDashboard.jsx:85 | `includes`; specified by `Text.ContainsIffOccurs` |
| Text.ContainsIffOccurs | src/components/DispatcherDashboard.jsx:85 | `includes` holds exactly when the word occurs at some position of the text |
| Text.Trim | src/components/SituationPanel.jsx:33 | the trimmed text is never longer than the input |
| Text.TrimStartDropsSpace | src/components/SituationPanel.jsx:32 | everything dropped from the front is ECMAScript white space |
| Text.TrimEndDropsSpace | src/components/SituationPanel.jsx:32 | everything dropped from the back is ECMAScript white space |
| Text.TrimEmptyIffBlank | src/components/SituationPanel.jsx:32 | the trimmed text is empty (falsy) exactly when the input is all ECMAScript white space |
| Text.TrimEndsNotSpace | src/components/SituationPanel.jsx:33 | a non-empty trimmed text neither starts nor ends with white space |
| Text.TrimKeepsTrimmed | src/components/SituationPanel.jsx:33 | a text with no white space at either end is its own trim |
| Text.TrimIdempotent | src/components/SituationPanel.jsx:33 | trimming twice is trimming once |
| Locations.ResolveAsWritten | src/components/DispatcherDashboard.jsx:61-64 | the lookup as written yields a non-coordinate value exactly for inherited `Object.prototype` names that are not table keys; a table key gives its entry; any other name keeps the previous coordinates |
| Locations.InheritedNameEscapesLookup | src/data/mockData.js:17-26 | typing the location "toString" makes the written lookup replace the coordinates with something that is not a coordinate pair |
| Locations.Resolve | src/components/DispatcherDashboard.jsx:61-64 | the corrected lookup: a table key gives its entry, any other name keeps the previous coordinates with no error, and the result is always the previous pair or a table value |
| Locations.ResolveAgreesOutsidePrototype | src/components/DispatcherDashboard.jsx:62-63 | outside the inherited names the corrected and the written lookup agree |
| Locations.ResolveIdempotent | src/components/DispatcherDashboard.jsx:61-64 | resolving the same name again leaves the coordinates unchanged |
| Ranking.Classify | src/components/DispatcherDashboard.jsx:82-91 | the incident bucket; specified by `Ranking.ClassifyFirstMatch` |
| Ranking.Suggested | src/components/DispatcherDashboard.jsx:81-91 | the `suggested` flag: the lowercased unit type contains a word the bucket accepts; specified by `Ranking.AcceptedNested`, `Ranking.UnclassifiedSuggestsNothing` and `Catalog.MedicalSuggestion` |
| Ranking.ClassifyFirstMatch | src/components/DispatcherDashboard.jsx:82-91 | the chosen bucket matches and no bucket tried before it matches (both directions); no bucket is chosen exactly when none matches |
| Ranking.AcceptedNested | src/components/DispatcherDashboard.jsx:85-91 | the accepted unit words are nested: medical within violence within fire |
| Ranking.UnclassifiedSuggestsNothing | src/components/DispatcherDashboard.jsx:81-91 | when no bucket matches, no unit type is suggested |
| Ranking.EtaTenths | src/components/DispatcherDashboard.jsx:75-78 | the ETA is at least one minute |
| Ranking.EtaStrictlyIncreasing | src/components/DispatcherDashboard.jsx:78 | a longer distance gives a strictly later ETA |
| Ranking.Refresh | src/components/DispatcherDashboard.jsx:93-98 | only distance, ETA and the flag change, and all three are current for the incident |
| Ranking.RefreshAll | src/components/DispatcherDashboard.jsx:67-99 | same length, the same identities in the same order, and every derived field current |
| Ranking.Insert | src/components/DispatcherDashboard.jsx:102-107 | inserting adds exactly one element to the multiset |
| Ranking.InsertSorted | src/components/DispatcherDashboard.jsx:102-107 | inserting into a sorted list keeps it sorted |
| Ranking.Before | src/components/DispatcherDashboard.jsx:102-107 | the comparator is negative: suggested before unsuggested, otherwise lower ETA first; specified by `Ranking.BeforeIsStrictWeakOrder` |
| Ranking.BeforeIsStrictWeakOrder | src/components/DispatcherDashboard.jsx:102-107 | the comparator is irreflexive and transitive, and units neither of which precedes the other have equal keys |
| Ranking.Sort | src/components/DispatcherDashboard.jsx:102-107 | the result is sorted (suggested first, ETA non-decreasing within each group) and a permutation of the input |
| Ranking.SortStable | src/components/DispatcherDashboard.jsx:102-107 | units with equal keys keep their relative order |
| Ranking.SortIdentities | src/components/DispatcherDashboard.jsx:102-107 | sorting keeps the multiset of unit identities |
| Ranking.Rank | src/components/DispatcherDashboard.jsx:67-107 | refresh every unit for the incident, then sort stably; specified by `Ranking.RankSpec` and `Ranking.RankStable` |
| Ranking.RankSpec | src/components/DispatcherDashboard.jsx:67-107 | the recompute keeps the length and every unit's id, type and both coordinate pairs, rewrites only derived fields to current values, and leaves the list sorted |
| Ranking.RankStable | src/components/DispatcherDashboard.jsx:102-107 | among refreshed units with equal keys the recompute keeps the prior order |
| Ranking.FirstSuggested | src/components/DispatcherDashboard.jsx:113 | the position found is suggested with none suggested before it; none is found exactly when no unit is suggested |
| Ranking.AutoSelect | src/components/DispatcherDashboard.jsx:113-116 | with a suggested unit the selection becomes exactly the id of the first suggested unit in list order; without one the previous selection stays |
| Ranking.AutoSelectLowestEta | src/components/DispatcherDashboard.jsx:101-116 | on a sorted list the selected unit is the head, and no suggested unit has a lower ETA |
| Ranking.InsertStep | src/components/DispatcherDashboard.jsx:102-107 | one in-place step moves `a[i]` into the sorted run after it, as the functional insert does, and leaves the prefix alone |
| Ranking.SortInPlace | src/components/DispatcherDashboard.jsx:102 | the in-place array sort produces exactly the stable sort of the old contents |
| Catalog.SeedWellFormed | src/data/mockData.js:1-105 | seed ids are distinct; every unit is at its base; "Dadar Station" is a table key whose entry equals the initial coordinates; there are ten protocol steps |
| Catalog.SeedSuggestsOnlyAmb042 | src/data/mockData.js:28-92 | in the seed only AMB-042 is flagged, and it is the first flagged unit |
| Catalog.CardiacArrestNotViolent | src/components/DispatcherDashboard.jsx:87 | "cardiac arrest" holds none of the violent-incident words |
| Catalog.CardiacArrestIsMedical | src/data/mockData.js:7 | "Cardiac Arrest" falls in the medical bucket |
| Catalog.MedicalSuggestion | src/components/DispatcherDashboard.jsx:89-90 | in the medical bucket a unit is suggested exactly when its lowercased type contains "ambulance" |
| Catalog.CardiacSuggestsAmbulances | src/data/mockData.js:28-92 | for the seed call exactly AMB-042, AMB-018 and AMB-099 are suggested |
| Catalog.NoAcceptedWord | src/components/DispatcherDashboard.jsx:85-91 | a type with none of fire, police or ambulance in it is accepted by no bucket |
| Catalog.LadderTruckNeverSuggested | src/data/mockData.js:83-91 | the "Ladder Truck" unit is never suggested, whatever the incident |
| Selection.Without | src/components/DispatcherDashboard.jsx:147 | the filter removes every copy of the id and keeps all other ids |
| Selection.Toggle | src/components/DispatcherDashboard.jsx:144-152 | the id's membership flips and other ids keep theirs; an absent id is appended at the end; removing a present id shrinks the list |
| Selection.ToggleDistinct | src/components/DispatcherDashboard.jsx:144-152 | a duplicate-free selection stays duplicate-free |
| Selection.ToggleTwice | src/components/DispatcherDashboard.jsx:144-152 | toggling twice restores the set of ids, and restores the very list when the id was absent |
| Selection.Picked | src/components/DispatcherDashboard.jsx:155 | the filter keeps exactly the listed units whose id is selected |
| Selection.PickedSingle | src/components/DispatcherDashboard.jsx:155 | a one-unit list is kept exactly when its id is selected |
| Selection.PickedAppend | src/components/DispatcherDashboard.jsx:155 | filtering a concatenation concatenates the filtered pieces, so the filter keeps list order and repeats |
| Selection.DispatchNotice | src/components/DispatcherDashboard.jsx:157-168 | the confirmation text: units joined by ", ", then the location and the incident type; `Selection.Dispatch` states when it is shown |
| Selection.Dispatch | src/components/DispatcherDashboard.jsx:154-174 | nothing is dispatched exactly when no listed unit is selected, and then the request notice is shown; otherwise the units are the ids of the filtered list in list order, each one selected and carried by a listed unit, every selected listed unit is among them, and the notice names the units, the location and the incident type |
| Selection.FindById | src/components/DispatcherDashboard.jsx:179 | the unit found is the first listed unit carrying the id; none is found exactly when no unit carries it |
| Selection.KindLabel | src/components/DispatcherDashboard.jsx:181-184 | the single-unit label by case-sensitive substring, tried in the order Ambulance, Fire, Police, each label given exactly when its word matches and no earlier one does |
| Selection.DispatchLabel | src/components/DispatcherDashboard.jsx:176-188 | zero selected gives SELECT RESOURCE; one unknown id gives DISPATCH RESOURCE; one known id gives the type label of the first listed unit carrying it; two or more give the count label |
| Selection.LowercaseTypeGetsGenericLabel | src/components/DispatcherDashboard.jsx:181-185 | the type checks are case-sensitive: a lone unit typed "ambulance van" gets DISPATCH RESOURCE |
| Selection.HeadAmbulanceLabel | src/components/DispatcherDashboard.jsx:181 | a lone selected head unit whose type contains "Ambulance" gets DISPATCH AMBULANCE |
| Selection.UnitsLabelInjective | src/components/DispatcherDashboard.jsx:187 | different counts give different multi-unit labels |
| Situation.HandleAdd | src/components/SituationPanel.jsx:32-36 | a blank draft is not forwarded and stays in the box; otherwise the trimmed text is forwarded, non-empty and without outer white space, and the box is cleared |
| Situation.ForwardedIsTrimmed | src/components/SituationPanel.jsx:32-34 | submitting a forwarded symptom again forwards the same text |
| Situation.AddClick | src/components/SituationPanel.jsx:110-141 | a symptom is forwarded exactly in edit mode with a non-blank draft, and then it is the trimmed draft and the box is cleared; otherwise the draft stays |
| Situation.VitalClick | src/components/SituationPanel.jsx:5 | a badge click requests a toggle exactly in edit mode, and requests its own vital |
| Situation.RemoveClick | src/components/SituationPanel.jsx:91-93 | a remove request exists exactly in edit mode for an existing row, and it names that row |
| Dashboard.SetCallField | src/components/DispatcherDashboard.jsx:123-126 | the named field takes the value and every other field is unchanged |
| Dashboard.FlipVital | src/components/DispatcherDashboard.jsx:128-131 | only the named vital is negated |
| Dashboard.FlipVitalTwice | src/components/DispatcherDashboard.jsx:130 | flipping a vital twice restores the assessment |
| Dashboard.DropIndex | src/components/DispatcherDashboard.jsx:137-142 | exactly the row at the index is removed, with order kept; an index out of range removes nothing |
| Dashboard.AddThenRemoveLast | src/components/DispatcherDashboard.jsx:133-142 | adding a symptom and then removing the last row restores the list |
| Dashboard.Or | src/components/DispatcherDashboard.jsx:30-33 | `v \|\| fallback`: a truthy value wins, otherwise the fallback |
| Dashboard.MapCall | src/components/DispatcherDashboard.jsx:28-35 | each mapped field takes the truthy intake value or keeps its own; the GPS hint beats the free text; the status becomes Connected; age, phone and coordinates are untouched |
| Dashboard.IntakeNotes | src/components/DispatcherDashboard.jsx:42 | the intake summary template, with an absent value rendered as "undefined"; `Dashboard.MapSituation` states that it becomes the notes |
| Dashboard.MapSituation | src/components/DispatcherDashboard.jsx:37-43 | the symptoms are replaced when the intake has a list; conscious and breathing are true only for a literal true; the notes are the intake summary; the vitals and the fake probability are untouched |
| Dashboard.MapIdempotent | src/components/DispatcherDashboard.jsx:28-43 | mapping the same intake twice equals mapping it once |
| Dashboard.RankInPlace | src/components/DispatcherDashboard.jsx:67-107 | mapping into a fresh array and sorting it in place yields the specified ranking |
| Dashboard.Recompute | src/components/DispatcherDashboard.jsx:59-117 | the coordinates are resolved, the units are ranked and the selection is auto-selected; the units' identities are kept, and a duplicate-free selection stays so |
| Dashboard.Console.Init | src/components/DispatcherDashboard.jsx:11-15 | the initial state is the seed, not editing, with AMB-042 selected |
| Dashboard.Console.UpdateSystemState | src/components/DispatcherDashboard.jsx:59-117 | the new coordinates, units and selection are those of the recompute; the situation and edit mode are untouched; the invariant holds (same units, duplicate-free selection) |
| Dashboard.Console.ToggleEdit | src/components/DispatcherDashboard.jsx:53-57 | edit mode flips; leaving edit mode recomputes; entering it changes nothing else |
| Dashboard.Console.EditCallField | src/components/DispatcherDashboard.jsx:123-126 | only the call record changes, by `SetCallField`; the invariant and the listed units are kept |
| Dashboard.Console.ToggleVital | src/components/DispatcherDashboard.jsx:128-131 | a vital flips only in edit mode; nothing else changes, the invariant and the listed units included |
| Dashboard.Console.AddSymptom | src/components/DispatcherDashboard.jsx:133-135 | the symptom is appended as given; nothing else changes, the invariant and the listed units included |
| Dashboard.Console.RemoveSymptom | src/components/DispatcherDashboard.jsx:137-142 | the row at the index is dropped; nothing else changes, the invariant and the listed units included |
| Dashboard.Console.SelectResource | src/components/DispatcherDashboard.jsx:144-152 | the selection becomes the toggle of the id and stays duplicate-free; nothing else changes |
| Dashboard.Console.ApplySharedData | src/components/DispatcherDashboard.jsx:23-50 | the call and the situation are mapped and edit mode ends; the recompute follows only when edit mode was on |
| Dashboard.StillListed | src/components/DispatcherDashboard.jsx:67-107 | a unit listed before the recompute is listed after it with the same id and type |
| Dashboard.MedicalSelectsAmbulance | src/components/DispatcherDashboard.jsx:82-116 | for a medical incident with an ambulance listed, an ambulance is ranked first and selected alone; no ambulance has a lower ETA; the label then reads DISPATCH AMBULANCE when its type is capitalised |
| Dashboard.SeedHasAmbulances | src/data/mockData.js:7-92 | the seed call is medical, the seed lists an ambulance, and every ambulance type is capitalised |
| AgentChat.Reply | src/components/AgentChatPanel.jsx:56-67 | the reply is one of the four canned texts |
| AgentChat.ReplyPrecedence | src/components/AgentChatPanel.jsx:56-67 | each reply is given exactly when its keywords match and no earlier group's do; the default is given exactly when nothing matches |
| AgentChat.ReplyIgnoresCase | src/components/AgentChatPanel.jsx:57 | lower-casing the input first does not change the reply |
| AgentChat.DetailsAskGetsAmbulanceReply | src/components/AgentChatPanel.jsx:60 | "Send the details" gets the ambulance reply, through the "eta" inside "details" |
| AgentChat.Bullets | src/components/AgentChatPanel.jsx:15 | at most three bullets; the bullet at position i is "- " followed by step i |
| AgentChat.ProtocolMessage | src/components/AgentChatPanel.jsx:14-15 | the intro followed by the first steps as bullets; specified by `AgentChat.ProtocolMessageListsFirstThree` |
| AgentChat.ProtocolMessageListsFirstThree | src/components/AgentChatPanel.jsx:14-15 | with three steps or more the second opening message is the intro followed by the first three bullets, one per line; later steps do not matter |
| AgentChat.ChatPanel.Open | src/components/AgentChatPanel.jsx:4-19 | the panel opens with the two agent messages numbered 1 and 2 and an empty input |
| AgentChat.ChatPanel.Type | src/components/AgentChatPanel.jsx:168 | typing replaces the input and leaves the messages alone |
| AgentChat.ChatPanel.SendMessage | src/components/AgentChatPanel.jsx:30-42 | a blank input changes nothing; otherwise a user message with the untrimmed text and id length + 1 is appended, and the input is cleared; numbering is kept |
| AgentChat.ChatPanel.DeliverReply | src/components/AgentChatPanel.jsx:45-52 | the reply to the sent text is appended with id length + 1; numbering is kept |
| AgentChat.AppendNumbered | src/components/AgentChatPanel.jsx:34-52 | appending keeps the 1, 2, 3, … numbering exactly when the new id is the length + 1 |
| Pipeline.ExtractionStep | pipline.py:29-40 | the extractor gets the collected record, or the record's defaults when none is collected; only the collected record changes |
| Pipeline.VerificationStep | pipline.py:42-50 | the verdict and the missing-field list are copied unchanged; nothing else changes |
| Pipeline.QuestionFor | pipline.py:52-67 | with nothing missing the fixed request is asked; otherwise only the first missing field is asked about |
| Pipeline.QuestionStep | pipline.py:52-67 | only the pending question changes, and it becomes that question |
| Pipeline.UpdateHistoryStep | pipline.py:69-79 | the earlier log is an unchanged prefix; one caller line is added exactly when there is a transcript, and it comes first; one operator line is added exactly when the record is incomplete, and it comes last; nothing else changes |
| Pipeline.CheckStatus | pipline.py:82-86 | the route is dispatch exactly when the record is complete |
| Pipeline.StepHandsOver | pipline.py:88-112 | every node leaves the state ready for its successor, and each edge moves towards the end |
| Pipeline.Run | pipline.py:96-112 | the graph run from a node to the end, each node's step followed by its edge; specified by `Pipeline.StepHandsOver` |
| Pipeline.Invoke | pipline.py:96-112 | one invocation from the entry node; specified by `Pipeline.InvokeComplete` and `Pipeline.InvokeIncomplete` |
| Pipeline.InvokeComplete | pipline.py:96-112 | a complete record runs extractor, verifier, history updater; the pending question keeps its old value; only the caller line is logged |
| Pipeline.InvokeIncomplete | pipline.py:96-112 | an incomplete record goes through the question writer; its question about the first missing field becomes the pending question and the last log line |
| Pipeline.Session.RunEmergencyPipeline | pipline.py:115-121 | the input becomes the transcript; the log is set to empty only if absent; the result is the graph's run on that state |
| Pipeline.RunKeepsHistory | pipline.py:69-121 | a run keeps the log it was given as a prefix and adds at most two lines |

## Left out

- Distance is a parameter. The source's `Math.sqrt(...) * 111` and its `toFixed(1)` rounding are floating point. The model takes the rounded distance in tenths of a km; the ETA relation on top of it is exact.
- Lower-casing covers ASCII letters only. The source's `toLowerCase` is full Unicode case mapping.
- Timers and browser side effects are not modelled: the clock, the 100 ms delay before the intake ends edit mode, the 1 s delay before a chat reply, `console.log`, `alert`, timestamps and scrolling. The dispatch notice is returned as a value instead of shown.
- React's effect scheduling is not modelled. The edit-mode effect is the explicit call in `Console.ToggleEdit` and `Console.ApplySharedData`. Mounting is `Console.Init` followed by `Console.UpdateSystemState`.
- Dashboard.Console.ApplySharedData: runs the intake's recompute in the same step; the source runs it 100 ms later, after any edits made in between.
- AgentChat.ChatPanel.SendMessage: the reply is delivered by a separate `DeliverReply` call. Sends that overlap before a reply lands are not modelled; the source numbers a user message from the list the closure captured.
- Pipeline.UpdateHistoryStep: works on values. The source appends to the list object held by the state dictionary, and the caller's dictionary may share it; that aliasing is not modelled.
- Pipeline.Session.RunEmergencyPipeline: a history key that is present but holds `None` is not modelled; the state models absence only.
- The graph library's internals (channels, reducers, compilation) are not modelled. The graph is the four nodes, their edges and a merge of each node's returned keys into the state.
- The language-model calls (extractor, verifier, question writer) are function parameters; their prompts are not modelled.
- The intake record's optional fields and enumerations are modelled only as the default record the extractor receives.
- Number formatting is not modelled beyond decimal integers. The intake notes render the fake probability as an integer, and the situation's fake probability is an integer percentage.
- Dashboard.Recompute: resolves the typed location with the corrected own-key lookup `Locations.Resolve`, not the source's `ResolveAsWritten`; for an inherited name such as "toString" the source replaces the coordinates and the model keeps them (see Findings).
- Dashboard.Console.UpdateSystemState: runs the corrected lookup through `Dashboard.Recompute`, and so do `Console.ToggleEdit` and `Console.ApplySharedData`.
- Dashboard.MapSituation: an intake field holding JSON `null` is modelled as absent. That is exact for `||` and `=== true`, but in the notes template the source writes "null" for a null `language`, `raw_transcript` or `fake_probability`, where `Dashboard.IntakeNotes` writes "undefined".
- Dashboard.Console.EditCallField: not gated on edit mode. The source's handler has no gate; the details panel decides when its inputs are editable, and that panel is not part of this model.
- Rendering, styling, the map panel, the resources table, the action bar, the details panel and the application shell are not part of this model. Neither are the voice-call server, the retrieval code, the geocoding scripts and the web API.

## Findings

| source | as written | input that shows it | evidently intended | confidence | as-written member | corrected member |
|---|---|---|---|---|---|---|
| src/components/DispatcherDashboard.jsx:62-63 | the location is looked up by indexing the object literal from src/data/mockData.js:17-26, which also answers for inherited `Object.prototype` properties; their values are truthy functions or objects, so they replace the coordinates | typing the location "toString" (or "constructor", "valueOf", …) | only the table's own keys resolve; any other name keeps the previous coordinates | not executed; follows from JavaScript's property lookup | Locations.ResolveAsWritten, Locations.InheritedNameEscapesLookup | Locations.Resolve |
