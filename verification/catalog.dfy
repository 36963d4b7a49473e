/** The console's seed data: the initial call, the situation, the resource
    catalog and the protocol steps, with the facts the rest of the model
    relies on. Seed distances and ETAs are in tenths. */
module Catalog {
  import opened Common
  import opened Text
  import opened Model
  import Locations
  import opened Ranking

  const InitialCall: CallData := CallData(
    "Rajesh Kumar", "65", "+91-98765-43210", "Dadar Station",
    Coord(190178, 728478), "Cardiac Arrest", None, None)

  const InitialSituation: SituationData := SituationData(
    ["Unconscious", "Not breathing", "Severe chest pain"], true, true, 15, None, None, None)

  const InitialResources: seq<Resource> := [
    Resource("AMB-042", "Ambulance (ALS)", 52, 21, true, Coord(190250, 728550), Coord(190250, 728550)),
    Resource("AMB-018", "Ambulance (BLS)", 85, 42, false, Coord(190400, 728300), Coord(190400, 728300)),
    Resource("FIRE-101", "Fire Engine", 60, 35, false, Coord(190100, 728600), Coord(190100, 728600)),
    Resource("POL-555", "Police Patrol", 40, 18, false, Coord(190150, 728350), Coord(190150, 728350)),
    Resource("AMB-099", "Ambulance (ALS)", 120, 85, false, Coord(190600, 728400), Coord(190600, 728400)),
    Resource("POL-100", "Police SUV", 25, 12, false, Coord(190120, 728450), Coord(190120, 728450)),
    Resource("FIRE-202", "Ladder Truck", 150, 100, false, Coord(190800, 728800), Coord(190800, 728800))
  ]

  const ProtocolSteps: seq<string> := [
    "Verify scene safety",
    "Check responsiveness",
    "Call for additional resources",
    "Check breathing and pulse",
    "Begin CPR if no pulse",
    "Attach AED as soon as available",
    "Administer Epinephrine",
    "Secure airway",
    "Monitor vitals",
    "Prepare for transport"
  ]

  /** The seed: distinct ids, units at home, the initial location known and
      agreeing with the initial coordinates, ten protocol steps. */
  lemma SeedWellFormed()
    ensures Distinct(IdsOf(InitialResources))
    ensures forall r :: r in InitialResources ==> r.coordinates == r.base
    ensures InitialCall.location in Locations.Table
    ensures Locations.Table[InitialCall.location] == InitialCall.coordinates
    ensures |ProtocolSteps| == 10
  {
    assert IdsOf(InitialResources) == ["AMB-042", "AMB-018", "FIRE-101", "POL-555", "AMB-099", "POL-100", "FIRE-202"];
  }

  /** In the seed exactly one resource, AMB-042, is flagged suggested. */
  lemma SeedSuggestsOnlyAmb042()
    ensures forall i :: 0 <= i < |InitialResources| ==>
      (InitialResources[i].suggested <==> InitialResources[i].id == "AMB-042")
    ensures FirstSuggested(InitialResources) == Some(0)
  {
  }

  // The lemmas below about a fixed text take that text as a parameter pinned
  // by a `requires` (`incidentType == "Cardiac Arrest"`) rather than writing
  // the literal into the `ensures`: a literal in the conclusion is unfolded
  // character by character wherever the lemma is used, which is far more
  // expensive for the solver. Each is a statement about that one text.

  /** A lowercased unit type with an "ambulance" occurrence. */
  lemma AmbulanceKind(kind: string)
    requires kind == "Ambulance (ALS)" || kind == "Ambulance (BLS)"
    ensures Contains(Lower(kind), "ambulance")
  {
    assert Lower(kind)[0..9] == "ambulance";
    ContainsAt(Lower(kind), "ambulance", 0);
  }

  /** "Cardiac Arrest" holds none of the violence words in either case. */
  lemma CardiacArrestNotViolent(incidentType: string)
    requires incidentType == "Cardiac Arrest"
    ensures !ContainsAny(Lower(incidentType), Keywords(ViolentIncident))
  {
    NoMurderNorFight(incidentType);
    NoViolenceNorRobbery(incidentType);
    NoViolentWord(Lower(incidentType));
  }

  lemma NoMurderNorFight(incidentType: string)
    requires incidentType == "Cardiac Arrest"
    ensures !Contains(Lower(incidentType), "murder") && !Contains(Lower(incidentType), "fight")
  {
    assert 'm' !in incidentType && 'M' !in incidentType;
    assert 'f' !in incidentType && 'F' !in incidentType;
    MissingLetter(incidentType, "murder", 0);
    MissingLetter(incidentType, "fight", 0);
  }

  lemma NoViolenceNorRobbery(incidentType: string)
    requires incidentType == "Cardiac Arrest"
    ensures !Contains(Lower(incidentType), "violence") && !Contains(Lower(incidentType), "robbery")
  {
    assert 'v' !in incidentType && 'V' !in incidentType;
    assert 'b' !in incidentType && 'B' !in incidentType;
    MissingLetter(incidentType, "violence", 0);
    MissingLetter(incidentType, "robbery", 2);
  }

  /** A text with none of the four violence words matches that bucket's
      keywords nowhere. */
  lemma NoViolentWord(t: string)
    requires !Contains(t, "murder") && !Contains(t, "fight")
    requires !Contains(t, "violence") && !Contains(t, "robbery")
    ensures !ContainsAny(t, Keywords(ViolentIncident))
  {
    assert forall w :: w in Keywords(ViolentIncident) ==>
      w == "murder" || w == "fight" || w == "violence" || w == "robbery";
  }

  /** "Cardiac Arrest" falls in the medical bucket. */
  lemma CardiacArrestIsMedical(incidentType: string)
    requires incidentType == "Cardiac Arrest"
    ensures Classify(incidentType) == MedicalIncident
  {
    assert 'f' !in incidentType && 'F' !in incidentType;
    MissingLetter(incidentType, "fire", 0);
    CardiacArrestNotViolent(incidentType);
    var t := Lower(incidentType);
    assert t[0] == 'c' && t[1] == 'a' && t[2] == 'r' && t[3] == 'd';
    assert t[4] == 'i' && t[5] == 'a' && t[6] == 'c';
    assert t[0..7] == "cardiac";
    ContainsAt(t, "cardiac", 0);
    assert "cardiac" in Keywords(MedicalIncident);
  }

  /** In the medical bucket only an "ambulance" unit type is suggested. */
  lemma MedicalSuggestion(incidentType: string, kind: string)
    requires Classify(incidentType) == MedicalIncident
    ensures Suggested(incidentType, kind) <==> Contains(Lower(kind), "ambulance")
  {
    assert "ambulance" in Accepted(MedicalIncident);
  }

  /** The catalog's other unit types have no "ambulance" in them. */
  lemma NonAmbulanceKinds(kind: string)
    requires kind in {"Fire Engine", "Police Patrol", "Police SUV", "Ladder Truck"}
    ensures !Contains(Lower(kind), "ambulance")
  {
    assert 'm' !in kind && 'M' !in kind;
    MissingLetter(kind, "ambulance", 1);
  }

  /** The seed's unit types; the three ambulances are the units whose type
      is an ambulance type. */
  lemma SeedKinds(r: Resource)
    requires r in InitialResources
    ensures r.kind in {"Ambulance (ALS)", "Ambulance (BLS)", "Fire Engine", "Police Patrol", "Police SUV", "Ladder Truck"}
    ensures r.id in {"AMB-042", "AMB-018", "AMB-099"} <==> r.kind in {"Ambulance (ALS)", "Ambulance (BLS)"}
  {
  }

  /** For a "Cardiac Arrest" call exactly the three ambulances are suggested. */
  lemma CardiacSuggestsAmbulances()
    ensures Classify(InitialCall.incidentType) == MedicalIncident
    ensures forall r :: r in InitialResources ==>
      (Suggested(InitialCall.incidentType, r.kind) <==> r.id in {"AMB-042", "AMB-018", "AMB-099"})
  {
    var incidentType := InitialCall.incidentType;
    CardiacArrestIsMedical(incidentType);
    forall r | r in InitialResources
      ensures Suggested(incidentType, r.kind) <==> r.id in {"AMB-042", "AMB-018", "AMB-099"}
    {
      SeedKinds(r);
      MedicalSuggestion(incidentType, r.kind);
      if r.kind in {"Ambulance (ALS)", "Ambulance (BLS)"} {
        AmbulanceKind(r.kind);
      } else {
        NonAmbulanceKinds(r.kind);
      }
    }
  }

  /** Unit types that contain none of the words any bucket accepts. */
  lemma NoAcceptedWord(k: string)
    requires !Contains(k, "fire") && !Contains(k, "police") && !Contains(k, "ambulance")
    ensures forall b: Bucket :: !ContainsAny(k, Accepted(b))
  {
    forall b: Bucket ensures !ContainsAny(k, Accepted(b)) {
      assert forall w :: w in Accepted(b) ==> w == "fire" || w == "police" || w == "ambulance";
    }
  }

  /** "Ladder Truck" (FIRE-202) contains none of the accepted words in
      either case, so it is never suggested, whatever the incident. */
  lemma LadderTruckNeverSuggested(incidentType: string, kind: string)
    requires kind == "Ladder Truck"
    ensures !Suggested(incidentType, kind)
  {
    LadderTruckLacksWords(kind);
    NoAcceptedWord(Lower(kind));
  }

  lemma LadderTruckLacksWords(kind: string)
    requires kind == "Ladder Truck"
    ensures !Contains(Lower(kind), "fire") && !Contains(Lower(kind), "police")
    ensures !Contains(Lower(kind), "ambulance")
  {
    LacksLetter(kind, "fire", 0);
    LacksLetter(kind, "police", 0);
    LacksLetter(kind, "ambulance", 1);
  }

  /** "Ladder Truck" lacks the letter at `w[k]` in both cases. */
  lemma LacksLetter(kind: string, w: string, k: nat)
    requires kind == "Ladder Truck"
    requires ((w == "fire" || w == "police") && k == 0) || (w == "ambulance" && k == 1)
    ensures !Contains(Lower(kind), w)
  {
    var c := w[k];
    assert c in "fpm";
    forall i | 0 <= i < |kind| ensures kind[i] != c && kind[i] != (c as int - 32) as char {
    }
    MissingLetter(kind, w, k);
  }
}
