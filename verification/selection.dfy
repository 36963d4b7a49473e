/** Resource selection on the console: the multi-select toggle, the dispatch
    filter with its notice, and the dispatch button's label. */
module Selection {
  import opened Common
  import opened Text
  import opened Model

  // ---------------------------------------------------------------------
  // The multi-select toggle

  /** `ids.filter(item => item !== id)`. */
  function Without(ids: seq<string>, id: string): (r: seq<string>)
    ensures |r| <= |ids|
    ensures forall x :: x in r <==> x in ids && x != id
    ensures id !in ids ==> r == ids
    decreases |ids|
  {
    if ids == [] then []
    else if ids[0] == id then Without(ids[1..], id)
    else [ids[0]] + Without(ids[1..], id)
  }

  /** Selecting a resource: an id already selected is removed (every copy),
      an absent one is appended at the end. */
  function Toggle(ids: seq<string>, id: string): (r: seq<string>)
    ensures id in r <==> id !in ids
    ensures forall x :: x != id ==> (x in r <==> x in ids)
    ensures id !in ids ==> r == ids + [id]
    ensures id in ids ==> |r| < |ids|
  {
    if id in ids then WithoutShrinks(ids, id); Without(ids, id) else ids + [id]
  }

  lemma {:induction false} WithoutShrinks(ids: seq<string>, id: string)
    requires id in ids
    ensures |Without(ids, id)| < |ids|
    decreases |ids|
  {
    if ids[0] != id {
      WithoutShrinks(ids[1..], id);
    }
  }

  /** Dropping ids keeps a duplicate-free selection duplicate-free. */
  lemma {:induction false} WithoutDistinct(ids: seq<string>, id: string)
    requires Distinct(ids)
    ensures Distinct(Without(ids, id))
    decreases |ids|
  {
    if ids != [] {
      assert Distinct(ids[1..]) by {
        forall i, j | 0 <= i < j < |ids[1..]| ensures ids[1..][i] != ids[1..][j] {
          assert ids[1..][i] == ids[i + 1] && ids[1..][j] == ids[j + 1];
        }
      }
      WithoutDistinct(ids[1..], id);
      if ids[0] != id {
        var rest := Without(ids[1..], id);
        assert ids[0] !in ids[1..];
        assert ids[0] !in rest;
        var r := [ids[0]] + rest;
        forall i, j | 0 <= i < j < |r| ensures r[i] != r[j] {
          if i == 0 {
            assert r[j] == rest[j - 1];
          } else {
            assert r[i] == rest[i - 1] && r[j] == rest[j - 1];
          }
        }
      }
    }
  }

  /** Toggling keeps a duplicate-free selection duplicate-free. */
  lemma ToggleDistinct(ids: seq<string>, id: string)
    requires Distinct(ids)
    ensures Distinct(Toggle(ids, id))
  {
    if id in ids {
      WithoutDistinct(ids, id);
    } else {
      var r := ids + [id];
      forall i, j | 0 <= i < j < |r| ensures r[i] != r[j] {
        if j == |ids| {
          assert r[i] == ids[i];
        } else {
          assert r[i] == ids[i] && r[j] == ids[j];
        }
      }
    }
  }

  /** Toggling the same id twice leaves the same set of ids; when the id was
      not selected, it leaves the very same selection. */
  lemma ToggleTwice(ids: seq<string>, id: string)
    ensures forall x :: x in Toggle(Toggle(ids, id), id) <==> x in ids
    ensures id !in ids ==> Toggle(Toggle(ids, id), id) == ids
  {
    if id !in ids {
      WithoutAppended(ids, id);
    }
  }

  lemma {:induction false} WithoutAppended(ids: seq<string>, id: string)
    requires id !in ids
    ensures Without(ids + [id], id) == ids
    decreases |ids|
  {
    if ids == [] {
      assert Without([id], id) == Without([], id);
    } else {
      assert (ids + [id])[1..] == ids[1..] + [id];
      WithoutAppended(ids[1..], id);
    }
  }

  // ---------------------------------------------------------------------
  // Dispatch

  /** `resources.filter(r => selectedResourceIds.includes(r.id))`. */
  function Picked(resources: seq<Resource>, selected: seq<string>): (r: seq<Resource>)
    ensures |r| <= |resources|
    ensures forall x :: x in r <==> x in resources && x.id in selected
    decreases |resources|
  {
    if resources == [] then []
    else if resources[0].id in selected then [resources[0]] + Picked(resources[1..], selected)
    else Picked(resources[1..], selected)
  }

  /** The filter keeps a one-unit list exactly when the unit's id is
      selected. */
  lemma PickedSingle(x: Resource, selected: seq<string>)
    ensures Picked([x], selected) == if x.id in selected then [x] else []
  {
    assert [x][1..] == [];
  }

  /** The filter works piece by piece: filtering a concatenation is
      concatenating the filtered pieces, so order and repeats are kept. */
  lemma {:induction false} PickedAppend(a: seq<Resource>, b: seq<Resource>, selected: seq<string>)
    ensures Picked(a + b, selected) == Picked(a, selected) + Picked(b, selected)
    decreases |a|
  {
    if a == [] {
      assert a + b == b;
    } else {
      assert (a + b)[0] == a[0];
      assert (a + b)[1..] == a[1..] + b;
      PickedAppend(a[1..], b, selected);
    }
  }

  /** What pressing DISPATCH shows: the notice naming the units, or the
      request to select something. */
  datatype Outcome = Dispatched(units: seq<string>, notice: string) | NothingSelected(notice: string)

  const NothingSelectedNotice := "Please select at least one resource to dispatch."

  function DispatchNotice(units: seq<string>, location: string, incidentType: string): string {
    "DISPATCH INITIATED\n\nUnits: " + Join(units, ", ") + " \nLocation: " + location
      + " \nIncident: " + incidentType + " \n\nNotifying units..."
  }

  /** A dispatch goes out exactly when some listed resource is selected; its
      units are the ids of the selected listed resources, in list order,
      and every unit named is a listed, selected resource. Selected ids
      that no listed resource carries are ignored. */
  function Dispatch(call: CallData, resources: seq<Resource>, selected: seq<string>): (o: Outcome)
    ensures o.NothingSelected? <==> forall r :: r in resources ==> r.id !in selected
    ensures o.NothingSelected? ==> o.notice == NothingSelectedNotice
    ensures o.Dispatched? ==> o.units != [] && o.units == IdsOf(Picked(resources, selected))
    ensures o.Dispatched? ==> forall u :: u in o.units ==>
      u in selected && exists k :: 0 <= k < |resources| && resources[k].id == u
    ensures o.Dispatched? ==> forall r :: r in resources && r.id in selected ==> r.id in o.units
    ensures o.Dispatched? ==> o.notice == DispatchNotice(o.units, call.location, call.incidentType)
  {
    var picked := Picked(resources, selected);
    if |picked| > 0 then
      var units := IdsOf(picked);
      assert forall u :: u in units ==> exists k :: 0 <= k < |picked| && u == picked[k].id;
      assert forall k :: 0 <= k < |picked| ==> picked[k] in resources;
      Dispatched(units, DispatchNotice(units, call.location, call.incidentType))
    else NothingSelected(NothingSelectedNotice)
  }

  // ---------------------------------------------------------------------
  // The dispatch button's label

  /** `k` is the first position of `resources` whose unit has id `id`. */
  predicate FirstWithId(resources: seq<Resource>, id: string, k: int) {
    0 <= k < |resources| && resources[k].id == id
    && forall m :: 0 <= m < k ==> resources[m].id != id
  }

  /** `resources.find(res => res.id === id)`: the first unit with the id. */
  function FindById(resources: seq<Resource>, id: string): (r: Option<Resource>)
    ensures r.Some? ==> exists k :: FirstWithId(resources, id, k) && resources[k] == r.value
    ensures r.None? <==> forall x :: x in resources ==> x.id != id
    decreases |resources|
  {
    if resources == [] then None
    else if resources[0].id == id then
      assert FirstWithId(resources, id, 0);
      Some(resources[0])
    else
      var r := FindById(resources[1..], id);
      FirstWithIdShift(resources, id, r);
      r
  }

  lemma FirstWithIdShift(resources: seq<Resource>, id: string, r: Option<Resource>)
    requires resources != [] && resources[0].id != id
    requires r.Some? ==> exists k :: FirstWithId(resources[1..], id, k) && resources[1..][k] == r.value
    ensures r.Some? ==> exists k :: FirstWithId(resources, id, k) && resources[k] == r.value
  {
    if r.Some? {
      var k :| FirstWithId(resources[1..], id, k) && resources[1..][k] == r.value;
      assert FirstWithId(resources, id, k + 1);
    }
  }

  /** The first position with a given id is unique. */
  lemma FirstWithIdUnique(resources: seq<Resource>, id: string, j: int, k: int)
    requires FirstWithId(resources, id, j) && FirstWithId(resources, id, k)
    ensures j == k
  {
  }

  /** The label for one selected resource of type `kind`: the checks are
      case-sensitive and tried in the order Ambulance, Fire, Police. */
  function KindLabel(kind: string): (l: string)
    ensures l == "DISPATCH AMBULANCE" <==> Contains(kind, "Ambulance")
    ensures l == "DISPATCH FIRE" <==> !Contains(kind, "Ambulance") && Contains(kind, "Fire")
    ensures l == "DISPATCH POLICE" <==>
      !Contains(kind, "Ambulance") && !Contains(kind, "Fire") && Contains(kind, "Police")
    ensures l == "DISPATCH RESOURCE" <==>
      !Contains(kind, "Ambulance") && !Contains(kind, "Fire") && !Contains(kind, "Police")
  {
    if Contains(kind, "Ambulance") then "DISPATCH AMBULANCE"
    else if Contains(kind, "Fire") then "DISPATCH FIRE"
    else if Contains(kind, "Police") then "DISPATCH POLICE"
    else "DISPATCH RESOURCE"
  }

  function UnitsLabel(n: nat): string {
    "DISPATCH " + NatToString(n) + " UNITS"
  }

  /** The dispatch button's label: by count, and for a single selected id
      by the type of the first listed unit carrying it. */
  function DispatchLabel(resources: seq<Resource>, selected: seq<string>): (l: string)
    ensures |selected| == 0 ==> l == "SELECT RESOURCE"
    ensures |selected| == 1 && (forall r :: r in resources ==> r.id != selected[0]) ==> l == "DISPATCH RESOURCE"
    ensures |selected| == 1 ==> forall k :: FirstWithId(resources, selected[0], k) ==>
      l == KindLabel(resources[k].kind)
    ensures |selected| >= 2 ==> l == UnitsLabel(|selected|)
  {
    if |selected| == 0 then "SELECT RESOURCE"
    else if |selected| == 1 then
      match FindById(resources, selected[0])
      case Some(r) =>
        assert forall k :: FirstWithId(resources, selected[0], k) ==> resources[k] == r by {
          forall k | FirstWithId(resources, selected[0], k) ensures resources[k] == r {
            var j :| FirstWithId(resources, selected[0], j) && resources[j] == r;
            FirstWithIdUnique(resources, selected[0], j, k);
          }
        }
        KindLabel(r.kind)
      case None => "DISPATCH RESOURCE"
    else UnitsLabel(|selected|)
  }

  /** The type checks are case-sensitive: a unit typed "ambulance van",
      selected alone, gets the generic label. */
  lemma LowercaseTypeGetsGenericLabel(resources: seq<Resource>, selected: seq<string>)
    requires |resources| > 0 && selected == [resources[0].id]
    requires resources[0].kind == "ambulance van"
    ensures DispatchLabel(resources, selected) == "DISPATCH RESOURCE"
  {
    var kind := resources[0].kind;
    assert 'A' !in kind && 'F' !in kind && 'P' !in kind;
    MissingChar(kind, "Ambulance", 0);
    MissingChar(kind, "Fire", 0);
    MissingChar(kind, "Police", 0);
    assert FirstWithId(resources, selected[0], 0);
  }

  /** Selecting only the first listed unit, an ambulance by its type, labels
      the button DISPATCH AMBULANCE. */
  lemma HeadAmbulanceLabel(resources: seq<Resource>, selected: seq<string>)
    requires |resources| > 0 && selected == [resources[0].id]
    requires Contains(resources[0].kind, "Ambulance")
    ensures DispatchLabel(resources, selected) == "DISPATCH AMBULANCE"
  {
  }

  lemma {:induction false} NatToStringInjective(a: nat, b: nat)
    requires NatToString(a) == NatToString(b)
    ensures a == b
    decreases a
  {
    var sa, sb := NatToString(a), NatToString(b);
    if a >= 10 && b >= 10 {
      var ha, hb := NatToString(a / 10), NatToString(b / 10);
      assert sa == ha + [DigitChar(a % 10)] && sb == hb + [DigitChar(b % 10)];
      assert |ha| == |hb|;
      assert sa[..|ha|] == ha && sb[..|hb|] == hb;
      NatToStringInjective(a / 10, b / 10);
      assert DigitChar(a % 10) == sa[|ha|] == DigitChar(b % 10);
    } else if a < 10 && b < 10 {
      assert sa[0] == DigitChar(a) && sb[0] == DigitChar(b);
    }
  }

  /** The multi-unit label names the count: different counts give
      different labels. */
  lemma UnitsLabelInjective(m: nat, n: nat)
    requires UnitsLabel(m) == UnitsLabel(n)
    ensures m == n
  {
    var l := UnitsLabel(m);
    assert NatToString(m) == l[9..|l| - 6];
    assert NatToString(n) == l[9..|l| - 6];
    NatToStringInjective(m, n);
  }
}
