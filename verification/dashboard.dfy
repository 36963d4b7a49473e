/** The dispatcher console's state and the handlers that update it: the
    call record, the situation assessment, the ranked resources, the edit
    mode and the selected resource ids. */
module Dashboard {
  import opened Common
  import opened Text
  import opened Model
  import Locations
  import opened Ranking
  import opened Selection
  import opened Catalog

  // ---------------------------------------------------------------------
  // Record updates the handlers apply

  /** The call fields the details panel lets the dispatcher edit. */
  datatype CallField = CallerName | Age | Phone | Location | IncidentType

  /** `{...prev, [name]: value}`: the named field takes the input's text and
      no other field changes. */
  function SetCallField(c: CallData, f: CallField, value: string): (r: CallData)
    ensures r.coordinates == c.coordinates && r.callerContact == c.callerContact && r.status == c.status
    ensures r.callerName == (if f == CallerName then value else c.callerName)
    ensures r.age == (if f == Age then value else c.age)
    ensures r.phone == (if f == Phone then value else c.phone)
    ensures r.location == (if f == Location then value else c.location)
    ensures r.incidentType == (if f == IncidentType then value else c.incidentType)
  {
    match f
    case CallerName => c.(callerName := value)
    case Age => c.(age := value)
    case Phone => c.(phone := value)
    case Location => c.(location := value)
    case IncidentType => c.(incidentType := value)
  }

  /** `{...prev, [vital]: !prev[vital]}`. */
  function FlipVital(s: SituationData, v: Vital): (r: SituationData)
    ensures r.isUnconscious == (if v == Unconscious then !s.isUnconscious else s.isUnconscious)
    ensures r.isNotBreathing == (if v == NotBreathing then !s.isNotBreathing else s.isNotBreathing)
    ensures r.(isUnconscious := s.isUnconscious, isNotBreathing := s.isNotBreathing) == s
  {
    match v
    case Unconscious => s.(isUnconscious := !s.isUnconscious)
    case NotBreathing => s.(isNotBreathing := !s.isNotBreathing)
  }

  /** Flipping a vital twice restores the assessment. */
  lemma FlipVitalTwice(s: SituationData, v: Vital)
    ensures FlipVital(FlipVital(s, v), v) == s
  {
  }

  /** `symptoms.filter((_, i) => i !== index)`: the row at `index` is dropped
      and the others keep their order; an index outside the list drops
      nothing. */
  function DropIndex(s: seq<string>, index: int): (r: seq<string>)
    ensures 0 <= index < |s| ==> r == s[..index] + s[index + 1..]
    ensures !(0 <= index < |s|) ==> r == s
    decreases |s|
  {
    if s == [] then []
    else (if index == 0 then [] else [s[0]]) + DropIndex(s[1..], index - 1)
  }

  /** Adding a symptom and then removing the last row restores the list. */
  lemma AddThenRemoveLast(s: seq<string>, symptom: string)
    ensures DropIndex(s + [symptom], |s|) == s
  {
    assert (s + [symptom])[..|s|] == s;
  }

  // ---------------------------------------------------------------------
  // The intake a voice agent hands over

  /** The intake record. An absent property is `None`; `symptoms` and
      `firstAid` are arrays, which are truthy even when empty. */
  datatype SharedData = SharedData(
    callerName: Option<string>,
    callerPhone: Option<string>,
    gpsHint: Option<string>,
    locationText: Option<string>,
    incidentType: Option<string>,
    symptoms: Option<seq<string>>,
    conscious: Option<bool>,
    breathing: Option<bool>,
    fakeProbability: Option<int>,
    language: Option<string>,
    firstAid: Option<seq<string>>,
    transcript: Option<string>)

  /** `v || fallback` on a string property. */
  function Or(v: Option<string>, fallback: string): (r: string)
    ensures Truthy(v) ==> r == v.value
    ensures !Truthy(v) ==> r == fallback
  {
    if Truthy(v) then v.value else fallback
  }

  /** Template-literal interpolation of an absent or present string; an
      absent value renders as "undefined" (a `null` would render "null",
      which the model does not distinguish). */
  function Show(v: Option<string>): string {
    if v.Some? then v.value else "undefined"
  }

  function IntToString(n: int): string {
    if n < 0 then "-" + NatToString(-n) else NatToString(n)
  }

  /** The notes text the intake is summarised into. */
  function IntakeNotes(d: SharedData): string {
    var prob := if d.fakeProbability.Some? then IntToString(d.fakeProbability.value) else "undefined";
    var aid := if d.firstAid.Some? then Join(d.firstAid.value, ", ") else "undefined";
    "[Voice Agent Intake]\nFake Probability: " + prob + "%\nLanguage: " + Show(d.language)
      + " \nFirst Aid: " + aid + " \n\nTranscript: " + Show(d.transcript) + " "
  }

  /** The call record after the intake: each mapped field takes the intake's
      value when truthy and keeps its own otherwise; the location prefers the
      GPS hint to the free text; the status becomes "Connected"; age, phone
      and coordinates are untouched. */
  function MapCall(prev: CallData, d: SharedData): (r: CallData)
    ensures r.age == prev.age && r.phone == prev.phone && r.coordinates == prev.coordinates
    ensures r.status == Some("Connected")
    ensures Truthy(d.callerName) ==> r.callerName == d.callerName.value
    ensures !Truthy(d.callerName) ==> r.callerName == prev.callerName
    ensures Truthy(d.callerPhone) ==> r.callerContact == d.callerPhone
    ensures !Truthy(d.callerPhone) ==> r.callerContact == prev.callerContact
    ensures Truthy(d.gpsHint) ==> r.location == d.gpsHint.value
    ensures !Truthy(d.gpsHint) && Truthy(d.locationText) ==> r.location == d.locationText.value
    ensures !Truthy(d.gpsHint) && !Truthy(d.locationText) ==> r.location == prev.location
    ensures r.incidentType == Or(d.incidentType, prev.incidentType)
  {
    prev.(
      callerName := Or(d.callerName, prev.callerName),
      callerContact := if Truthy(d.callerPhone) then d.callerPhone else prev.callerContact,
      location := Or(d.gpsHint, Or(d.locationText, prev.location)),
      incidentType := Or(d.incidentType, prev.incidentType),
      status := Some("Connected"))
  }

  /** The situation after the intake: the intake's symptom list when it has
      one; `conscious` and `breathing` are true only for a literal `true`;
      the notes summarise the intake; the vitals and the fake probability
      are untouched. */
  function MapSituation(prev: SituationData, d: SharedData): (r: SituationData)
    ensures r.isUnconscious == prev.isUnconscious && r.isNotBreathing == prev.isNotBreathing
    ensures r.fakeProbability == prev.fakeProbability
    ensures r.symptoms == (if d.symptoms.Some? then d.symptoms.value else prev.symptoms)
    ensures r.conscious == Some(d.conscious == Some(true))
    ensures r.breathing == Some(d.breathing == Some(true))
    ensures r.notes == Some(IntakeNotes(d))
  {
    prev.(
      symptoms := if d.symptoms.Some? then d.symptoms.value else prev.symptoms,
      conscious := Some(d.conscious == Some(true)),
      breathing := Some(d.breathing == Some(true)),
      notes := Some(IntakeNotes(d)))
  }

  /** Receiving the same intake again changes nothing more. */
  lemma MapIdempotent(c: CallData, s: SituationData, d: SharedData)
    ensures MapCall(MapCall(c, d), d) == MapCall(c, d)
    ensures MapSituation(MapSituation(s, d), d) == MapSituation(s, d)
  {
  }

  // ---------------------------------------------------------------------
  // The recompute on an array

  /** `resources.map(...)` into a fresh array, then `sort` on that array. */
  method RankInPlace(rs: seq<Resource>, incident: Coord, incidentType: string, distance: (Coord, Coord) -> nat)
    returns (ranked: seq<Resource>)
    ensures ranked == Rank(rs, incident, incidentType, distance)
  {
    var refreshed := RefreshAll(rs, incident, incidentType, distance);
    var a := new Resource[|refreshed|](i requires 0 <= i < |refreshed| => refreshed[i]);
    assert a[..] == refreshed;
    SortInPlace(a);
    ranked := a[..];
  }

  /** `updateSystemState` on the values it reads: the incident's
      coordinates, the ranked resources and the selection it leaves. */
  method Recompute(locations: map<string, Coord>, call: CallData, resources: seq<Resource>,
                   selected: seq<string>, distance: (Coord, Coord) -> nat)
    returns (call': CallData, resources': seq<Resource>, selected': seq<string>)
    ensures call' == call.(coordinates := Locations.Resolve(locations, call.location, call.coordinates))
    ensures resources' == Rank(resources, call'.coordinates, call'.incidentType, distance)
    ensures selected' == AutoSelect(selected, resources')
    ensures multiset(Identities(resources')) == multiset(Identities(resources))
    ensures Distinct(selected) ==> Distinct(selected')
  {
    var incident := Locations.Resolve(locations, call.location, call.coordinates);
    resources' := RankInPlace(resources, incident, call.incidentType, distance);
    RankSpec(resources, incident, call.incidentType, distance);
    call' := call.(coordinates := incident);
    selected' := selected;
    var first := FirstSuggested(resources');
    if first.Some? {
      selected' := [resources'[first.value].id];
    }
  }

  // ---------------------------------------------------------------------
  // The console

  class Console {
    var call: CallData
    var situation: SituationData
    var resources: seq<Resource>
    var isEditing: bool
    var selected: seq<string>
    /** The location table the console resolves the typed location with. */
    const locations: map<string, Coord>
    /** The units listed at mount. */
    ghost var units: multiset<Resource>

    /** The listed units are always the units listed at mount (only derived
        fields and order change) and no id is selected twice. */
    ghost predicate Valid()
      reads this
    {
      && multiset(Identities(resources)) == units
      && Distinct(selected)
    }

    /** The console's initial state. Mounting it then runs the edit-mode
        effect, which recomputes since editing starts off: a mounted console
        is `Init` followed by `UpdateSystemState`. */
    constructor Init()
      ensures Valid() && units == multiset(Identities(InitialResources)) && locations == Locations.Table
      ensures call == InitialCall && situation == InitialSituation && resources == InitialResources
      ensures !isEditing && selected == ["AMB-042"]
    {
      locations := Locations.Table;
      call := InitialCall;
      situation := InitialSituation;
      resources := InitialResources;
      isEditing := false;
      selected := [InitialResources[0].id];
      units := multiset(Identities(InitialResources));
    }

    /** The recompute: resolve the location, refresh every unit's derived
        fields, sort in place, auto-select the first suggested unit. */
    method UpdateSystemState(distance: (Coord, Coord) -> nat)
      requires Valid()
      modifies this
      ensures Valid() && units == old(units)
      ensures call == old(call).(coordinates := Locations.Resolve(locations, old(call).location, old(call).coordinates))
      ensures resources == Rank(old(resources), call.coordinates, call.incidentType, distance)
      ensures selected == AutoSelect(old(selected), resources)
      ensures situation == old(situation) && isEditing == old(isEditing)
    {
      var c, rs, sel := Recompute(locations, call, resources, selected, distance);
      assert multiset(Identities(rs)) == units;
      call, resources, selected := c, rs, sel;
    }

    /** The EDIT / SAVE button. Leaving edit mode triggers the recompute. */
    method ToggleEdit(distance: (Coord, Coord) -> nat)
      requires Valid()
      modifies this
      ensures Valid() && units == old(units)
      ensures isEditing == !old(isEditing) && situation == old(situation)
      ensures old(isEditing) ==>
        && call == old(call).(coordinates := Locations.Resolve(locations, old(call).location, old(call).coordinates))
        && resources == Rank(old(resources), call.coordinates, call.incidentType, distance)
        && selected == AutoSelect(old(selected), resources)
      ensures !old(isEditing) ==> call == old(call) && resources == old(resources) && selected == old(selected)
    {
      isEditing := !isEditing;
      if !isEditing {
        UpdateSystemState(distance);
      }
    }

    /** An edit of a call field. */
    method EditCallField(f: CallField, value: string)
      requires Valid()
      modifies this
      ensures Valid() && units == old(units)
      ensures call == SetCallField(old(call), f, value)
      ensures situation == old(situation) && resources == old(resources)
      ensures isEditing == old(isEditing) && selected == old(selected)
    {
      call := SetCallField(call, f, value);
    }

    /** A vital is flipped only in edit mode. */
    method ToggleVital(v: Vital)
      requires Valid()
      modifies this
      ensures Valid() && units == old(units)
      ensures situation == (if old(isEditing) then FlipVital(old(situation), v) else old(situation))
      ensures call == old(call) && resources == old(resources)
      ensures isEditing == old(isEditing) && selected == old(selected)
    {
      if isEditing {
        situation := FlipVital(situation, v);
      }
    }

    /** A forwarded symptom is appended as given. */
    method AddSymptom(symptom: string)
      requires Valid()
      modifies this
      ensures Valid() && units == old(units)
      ensures situation == old(situation).(symptoms := old(situation).symptoms + [symptom])
      ensures call == old(call) && resources == old(resources)
      ensures isEditing == old(isEditing) && selected == old(selected)
    {
      situation := situation.(symptoms := situation.symptoms + [symptom]);
    }

    /** The symptom at `index` is removed. */
    method RemoveSymptom(index: int)
      requires Valid()
      modifies this
      ensures Valid() && units == old(units)
      ensures situation == old(situation).(symptoms := DropIndex(old(situation).symptoms, index))
      ensures call == old(call) && resources == old(resources)
      ensures isEditing == old(isEditing) && selected == old(selected)
    {
      situation := situation.(symptoms := DropIndex(situation.symptoms, index));
    }

    /** A click on a resource row toggles its id in the selection. */
    method SelectResource(id: string)
      requires Valid()
      modifies this
      ensures Valid() && units == old(units)
      ensures selected == Toggle(old(selected), id)
      ensures call == old(call) && situation == old(situation)
      ensures resources == old(resources) && isEditing == old(isEditing)
    {
      ToggleDistinct(selected, id);
      selected := Toggle(selected, id);
    }

    /** A voice agent's intake arrives: the call and the situation are
        mapped, and edit mode is switched off. Only when edit mode was on
        does that switch trigger the recompute. */
    method ApplySharedData(d: SharedData, distance: (Coord, Coord) -> nat)
      requires Valid()
      modifies this
      ensures Valid() && units == old(units)
      ensures situation == MapSituation(old(situation), d) && !isEditing
      ensures old(isEditing) ==>
        && call == MapCall(old(call), d).(coordinates := Locations.Resolve(locations, MapCall(old(call), d).location, old(call).coordinates))
        && resources == Rank(old(resources), call.coordinates, call.incidentType, distance)
        && selected == AutoSelect(old(selected), resources)
      ensures !old(isEditing) ==>
        call == MapCall(old(call), d) && resources == old(resources) && selected == old(selected)
    {
      call := MapCall(call, d);
      situation := MapSituation(situation, d);
      if isEditing {
        isEditing := false;
        UpdateSystemState(distance);
      }
    }
  }

  // ---------------------------------------------------------------------
  // What the mounted console selects

  /** A unit listed before a recompute is listed after it, with its id and
      type. */
  lemma StillListed(rs: seq<Resource>, ranked: seq<Resource>, r: Resource)
    requires multiset(Identities(ranked)) == multiset(Identities(rs))
    requires r in rs
    ensures exists j :: 0 <= j < |ranked| && ranked[j].id == r.id && ranked[j].kind == r.kind
  {
    var i :| 0 <= i < |rs| && rs[i] == r;
    assert Identity(r) in multiset(Identities(rs));
    assert Identity(r) in Identities(ranked);
    var j :| 0 <= j < |ranked| && Identities(ranked)[j] == Identity(r);
    assert Identity(ranked[j]) == Identity(r);
  }

  /** For a medical-bucket incident with an ambulance among the units, the
      recompute puts an ambulance first and selects exactly it: the
      ambulance no other ambulance beats on ETA. When every ambulance type
      is capitalised, the dispatch button then reads DISPATCH AMBULANCE. */
  lemma MedicalSelectsAmbulance(rs: seq<Resource>, incident: Coord, incidentType: string,
                                distance: (Coord, Coord) -> nat, previous: seq<string>)
    requires Classify(incidentType) == MedicalIncident
    requires exists r :: r in rs && Contains(Lower(r.kind), "ambulance")
    ensures var ranked := Rank(rs, incident, incidentType, distance);
      && |ranked| > 0
      && Contains(Lower(ranked[0].kind), "ambulance")
      && AutoSelect(previous, ranked) == [ranked[0].id]
      && (forall i :: 0 <= i < |ranked| && Contains(Lower(ranked[i].kind), "ambulance") ==>
            ranked[0].etaTenths <= ranked[i].etaTenths)
      && (Contains(ranked[0].kind, "Ambulance") ==>
            DispatchLabel(ranked, AutoSelect(previous, ranked)) == "DISPATCH AMBULANCE")
  {
    var ranked := Rank(rs, incident, incidentType, distance);
    RankSpec(rs, incident, incidentType, distance);
    forall k | 0 <= k < |ranked|
      ensures ranked[k].suggested <==> Contains(Lower(ranked[k].kind), "ambulance")
    {
      assert ranked[k] in ranked;
      MedicalSuggestion(incidentType, ranked[k].kind);
    }
    var r :| r in rs && Contains(Lower(r.kind), "ambulance");
    StillListed(rs, ranked, r);
    AutoSelectLowestEta(previous, ranked);
    if Contains(ranked[0].kind, "Ambulance") {
      HeadAmbulanceLabel(ranked, AutoSelect(previous, ranked));
    }
  }

  /** The seed call is a medical incident and the seed lists ambulances,
      all with a capitalised type. */
  lemma SeedHasAmbulances()
    ensures Classify(InitialCall.incidentType) == MedicalIncident
    ensures exists r :: r in InitialResources && Contains(Lower(r.kind), "ambulance")
    ensures forall r :: r in InitialResources && Contains(Lower(r.kind), "ambulance") ==> Contains(r.kind, "Ambulance")
  {
    CardiacArrestIsMedical(InitialCall.incidentType);
    var amb := InitialResources[0];
    AmbulanceKind(amb.kind);
    assert amb in InitialResources;
    forall r | r in InitialResources && Contains(Lower(r.kind), "ambulance")
      ensures Contains(r.kind, "Ambulance")
    {
      SeedAmbulanceCapitalised(r);
    }
  }

  /** A seed unit whose lowered type holds "ambulance" has the capitalised
      word in its type. */
  lemma SeedAmbulanceCapitalised(r: Resource)
    requires r in InitialResources && Contains(Lower(r.kind), "ambulance")
    ensures Contains(r.kind, "Ambulance")
  {
    SeedKinds(r);
    if r.kind in {"Ambulance (ALS)", "Ambulance (BLS)"} {
      CapitalAmbulance(r.kind);
    } else {
      NonAmbulanceKinds(r.kind);
    }
  }

  /** Both ambulance types contain "Ambulance" with its capital. */
  lemma CapitalAmbulance(kind: string)
    requires kind in {"Ambulance (ALS)", "Ambulance (BLS)"}
    ensures Contains(kind, "Ambulance")
  {
    assert kind[0..9] == "Ambulance";
    ContainsAt(kind, "Ambulance", 0);
  }
}
