/** The records the dispatcher console keeps: the call, the situation
    assessment and the responder resources. */
module Model {
  import opened Common

  /** A latitude/longitude pair, each in units of 1e-4 degree
      (19.0178 is 190178). */
  datatype Coord = Coord(lat: int, lon: int)

  /** A responder unit. `kind` is the free-text unit type ("Ambulance (ALS)").
      Distance and ETA are kept in tenths (of a km, of a minute): the console
      rounds both to one decimal. Distance, ETA and the suggestion flag are
      derived; `coordinates` and `base` are never rewritten. */
  datatype Resource = Resource(
    id: string,
    kind: string,
    etaTenths: nat,
    distTenths: nat,
    suggested: bool,
    coordinates: Coord,
    base: Coord)

  /** The call record. `callerContact` and `status` are absent until a voice
      agent's intake is mapped in. `age` is held as text: the edit field
      replaces the number with the input's text. */
  datatype CallData = CallData(
    callerName: string,
    age: string,
    phone: string,
    location: string,
    coordinates: Coord,
    incidentType: string,
    callerContact: Option<string>,
    status: Option<string>)

  /** The situation assessment. `conscious`, `breathing` and `notes` are
      absent until a voice agent's intake is mapped in. */
  datatype SituationData = SituationData(
    symptoms: seq<string>,
    isUnconscious: bool,
    isNotBreathing: bool,
    fakeProbability: int,
    conscious: Option<bool>,
    breathing: Option<bool>,
    notes: Option<string>)

  /** The two vitals a badge can toggle. */
  datatype Vital = Unconscious | NotBreathing

  function IdsOf(rs: seq<Resource>): (ids: seq<string>)
    ensures |ids| == |rs|
    ensures forall i :: 0 <= i < |rs| ==> ids[i] == rs[i].id
  {
    seq(|rs|, i requires 0 <= i < |rs| => rs[i].id)
  }

  /** No identifier occurs twice. */
  predicate Distinct(ids: seq<string>) {
    forall i, j :: 0 <= i < j < |ids| ==> ids[i] != ids[j]
  }
}
