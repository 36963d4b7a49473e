/** The fixed location table and the lookup `updateSystemState` performs on
    the call's free-text location. */
module Locations {
  import opened Model

  /** The known locations and their coordinates (1e-4 degree). */
  const Table: map<string, Coord> := map[
    "Dadar Station" := Coord(190178, 728478),
    "Gateway of India" := Coord(189220, 728347),
    "Bandra Bandstand" := Coord(190596, 728295),
    "Juhu Beach" := Coord(190988, 728264),
    "Andheri Station" := Coord(191136, 728697),
    "Powai Lake" := Coord(191267, 729156),
    "Marine Drive" := Coord(189440, 728230),
    "Chhatrapati Shivaji Maharaj Terminus" := Coord(189415, 728352)
  ]

  /** The property names every JavaScript object literal inherits from
      `Object.prototype`; indexing the table with one of them yields a
      function or an object, never a coordinate pair. */
  const PrototypeKeys: set<string> := {
    "constructor", "__proto__", "hasOwnProperty", "isPrototypeOf",
    "propertyIsEnumerable", "toLocaleString", "toString", "valueOf",
    "__defineGetter__", "__defineSetter__", "__lookupGetter__", "__lookupSetter__"
  }

  /** What the new incident coordinates become as the code is written:
      a coordinate pair, or the inherited (truthy) non-coordinate value. */
  datatype Resolved = Coordinates(c: Coord) | NotCoordinates(key: string)

  /** The lookup as written: indexing an object literal is truthy for the
      table's own keys and for every inherited property name. */
  function ResolveAsWritten(table: map<string, Coord>, name: string, previous: Coord): (r: Resolved)
    ensures r.NotCoordinates? <==> name !in table && name in PrototypeKeys
    ensures r.Coordinates? && name in table ==> r.c == table[name]
    ensures r.Coordinates? && name !in table ==> r.c == previous
  {
    if name in table then Coordinates(table[name])
    else if name in PrototypeKeys then NotCoordinates(name)
    else Coordinates(previous)
  }

  /** A location name the dispatcher can type replaces the incident
      coordinates with something that is not a coordinate pair. */
  lemma InheritedNameEscapesLookup()
    ensures ResolveAsWritten(Table, "toString", Coord(190178, 728478)).NotCoordinates?
  {
  }

  /** The lookup restricted to the table's own keys: a known location gives
      its table entry; anything else keeps the previous coordinates. */
  function Resolve(table: map<string, Coord>, name: string, previous: Coord): (c: Coord)
    ensures c == previous || c in table.Values
    ensures name in table ==> c == table[name]
    ensures name !in table ==> c == previous
  {
    if name in table then table[name] else previous
  }

  /** Outside the inherited names the corrected lookup is the written one. */
  lemma ResolveAgreesOutsidePrototype(table: map<string, Coord>, name: string, previous: Coord)
    requires name !in PrototypeKeys
    ensures ResolveAsWritten(table, name, previous) == Coordinates(Resolve(table, name, previous))
  {
  }

  /** Resolving again changes nothing: for a known name the previous
      coordinates are irrelevant, for an unknown one they are kept. */
  lemma ResolveIdempotent(table: map<string, Coord>, name: string, previous: Coord)
    ensures Resolve(table, name, Resolve(table, name, previous)) == Resolve(table, name, previous)
  {
  }
}
