/**
 * The client details screen: the fetched equipment grouped by unit, each
 * unit card's equipment list, and the client's address card.
 */
module ClientDetailsScreen {
  import opened Wrappers
  import opened Text
  import opened Domain
  import Lists

  /** The equipment of unit `u`, in fetched order. */
  function InUnit(eqs: seq<Equipment>, u: string): (r: seq<Equipment>)
    ensures |r| <= |eqs|
  {
    if |eqs| == 0 then []
    else
      var last := eqs[|eqs| - 1];
      InUnit(eqs[..|eqs| - 1], u) + (if last.unitId == u then [last] else [])
  }

  /** The unit ids that occur among the equipment. */
  function UnitIds(eqs: seq<Equipment>): set<string> {
    if |eqs| == 0 then {}
    else UnitIds(eqs[..|eqs| - 1]) + {eqs[|eqs| - 1].unitId}
  }

  /** The unit id of every fetched equipment is among the unit ids. */
  lemma {:induction false} UnitIdsHas(eqs: seq<Equipment>, k: int)
    requires 0 <= k < |eqs|
    ensures eqs[k].unitId in UnitIds(eqs)
  {
    if k < |eqs| - 1 {
      UnitIdsHas(eqs[..|eqs| - 1], k);
    }
  }

  /** `grouped` holds one entry per unit id that occurs, listing that unit's equipment in order. */
  predicate IsGrouping(eqs: seq<Equipment>, grouped: map<string, seq<Equipment>>) {
    grouped.Keys == UnitIds(eqs) && forall u :: u in grouped ==> grouped[u] == InUnit(eqs, u)
  }

  /**
   * The `forEach` that builds `grouped`: for each equipment, create its
   * unit's entry when missing, then push the equipment onto it.
   */
  method GroupByUnit(eqs: seq<Equipment>) returns (grouped: map<string, seq<Equipment>>)
    ensures grouped == GroupedAfter(eqs)
    ensures IsGrouping(eqs, grouped)
  {
    grouped := map[];
    var i := 0;
    while i < |eqs|
      invariant 0 <= i <= |eqs|
      invariant grouped == GroupedAfter(eqs[..i])
    {
      var eq := eqs[i];
      ghost var before := grouped;
      if eq.unitId !in grouped {
        grouped := grouped[eq.unitId := []];
      }
      assert grouped == Created(before, eq.unitId);
      grouped := grouped[eq.unitId := grouped[eq.unitId] + [eq]];
      Lists.TakeOneMore(eqs, i);
      i := i + 1;
    }
    assert eqs[..|eqs|] == eqs;
    GroupedAfterIsGrouping(eqs);
  }

  /** `grouped` with an empty entry for `u` when it had none. */
  function Created(grouped: map<string, seq<Equipment>>, u: string): map<string, seq<Equipment>> {
    if u !in grouped then grouped[u := []] else grouped
  }

  /** The effect of one `forEach` step on the grouping. */
  function Pushed(grouped: map<string, seq<Equipment>>, e: Equipment): map<string, seq<Equipment>> {
    var created := Created(grouped, e.unitId);
    created[e.unitId := created[e.unitId] + [e]]
  }

  /** The map the `forEach` has built once it has seen the equipment `eqs`. */
  function GroupedAfter(eqs: seq<Equipment>): map<string, seq<Equipment>> {
    if |eqs| == 0 then map[] else Pushed(GroupedAfter(eqs[..|eqs| - 1]), eqs[|eqs| - 1])
  }

  /** Whatever equipment has been seen, the map built so far is a grouping of it. */
  lemma {:induction false} GroupedAfterIsGrouping(eqs: seq<Equipment>)
    ensures IsGrouping(eqs, GroupedAfter(eqs))
  {
    if |eqs| > 0 {
      var init := eqs[..|eqs| - 1];
      GroupedAfterIsGrouping(init);
      GroupingStep(init, eqs[|eqs| - 1], GroupedAfter(init));
      assert init + [eqs[|eqs| - 1]] == eqs;
    }
  }

  /** One step of the loop keeps `grouped` a grouping of the equipment seen so far. */
  lemma GroupingStep(seen: seq<Equipment>, e: Equipment, grouped: map<string, seq<Equipment>>)
    requires IsGrouping(seen, grouped)
    ensures IsGrouping(seen + [e], Pushed(grouped, e))
  {
    var all := seen + [e];
    assert all[..|all| - 1] == seen;
    var next := Pushed(grouped, e);
    forall u | u in next
      ensures next[u] == InUnit(all, u)
    {
      if u == e.unitId && u !in grouped {
        InUnitAbsent(seen, u);
      }
    }
  }

  /** A unit that owns no equipment has an empty list. */
  lemma {:induction false} InUnitAbsent(eqs: seq<Equipment>, u: string)
    requires u !in UnitIds(eqs)
    ensures InUnit(eqs, u) == []
  {
    if |eqs| > 0 {
      InUnitAbsent(eqs[..|eqs| - 1], u);
    }
  }

  /** Grouping keeps the fetched order: the group of a concatenation is the concatenation of the groups. */
  lemma {:induction false} InUnitAppend(a: seq<Equipment>, b: seq<Equipment>, u: string)
    ensures InUnit(a + b, u) == InUnit(a, u) + InUnit(b, u)
  {
    if |b| > 0 {
      assert (a + b)[..|a + b| - 1] == a + b[..|b| - 1];
      InUnitAppend(a, b[..|b| - 1], u);
    } else {
      assert a + b == a;
    }
  }

  /** An equipment is in the group of `u` exactly when it was fetched and belongs to `u`. */
  lemma {:induction false} InUnitMembers(eqs: seq<Equipment>, u: string, e: Equipment)
    ensures e in InUnit(eqs, u) <==> e in eqs && e.unitId == u
  {
    if |eqs| > 0 {
      InUnitMembers(eqs[..|eqs| - 1], u, e);
      assert eqs == eqs[..|eqs| - 1] + [eqs[|eqs| - 1]];
    }
  }

  /** Every unit id in the set really occurs. */
  lemma {:induction false} UnitIdsOccur(eqs: seq<Equipment>, u: string)
    requires u in UnitIds(eqs)
    ensures exists k :: 0 <= k < |eqs| && eqs[k].unitId == u
  {
    if eqs[|eqs| - 1].unitId != u {
      UnitIdsOccur(eqs[..|eqs| - 1], u);
    }
  }

  /** `equipmentsByUnit[unit.id] ?? []`: the list a unit card receives. */
  function EquipmentForUnit(grouped: map<string, seq<Equipment>>, u: string): seq<Equipment> {
    if u in grouped then grouped[u] else []
  }

  /** Every unit card receives exactly its own equipment, in order, or the empty list. */
  lemma UnitCardEquipment(eqs: seq<Equipment>, grouped: map<string, seq<Equipment>>, u: string)
    requires IsGrouping(eqs, grouped)
    ensures EquipmentForUnit(grouped, u) == InUnit(eqs, u)
    ensures u !in UnitIds(eqs) ==> EquipmentForUnit(grouped, u) == []
  {
    if u !in grouped {
      InUnitAbsent(eqs, u);
    }
  }

  /** Every fetched equipment sits in the group keyed by its own unit id, and in no other. */
  lemma EachEquipmentInOneGroup(eqs: seq<Equipment>, grouped: map<string, seq<Equipment>>, k: int, u: string)
    requires IsGrouping(eqs, grouped) && 0 <= k < |eqs|
    ensures eqs[k].unitId in grouped && eqs[k] in grouped[eqs[k].unitId]
    ensures u in grouped && eqs[k] in grouped[u] ==> u == eqs[k].unitId
  {
    UnitIdsHas(eqs, k);
    InUnitMembers(eqs, eqs[k].unitId, eqs[k]);
    InUnitMembers(eqs, u, eqs[k]);
  }

  /** The sum of the group sizes over the keys `ks`. */
  function GroupSizes(eqs: seq<Equipment>, ks: seq<string>): nat {
    if |ks| == 0 then 0 else |InUnit(eqs, ks[0])| + GroupSizes(eqs, ks[1..])
  }

  /** How many of the keys `ks` equal `u`. */
  function Occurrences(ks: seq<string>, u: string): nat {
    if |ks| == 0 then 0 else (if ks[0] == u then 1 else 0) + Occurrences(ks[1..], u)
  }

  /** A key listed once among distinct keys occurs exactly once. */
  lemma {:induction false} OccursOnce(ks: seq<string>, u: string)
    requires forall i, j :: 0 <= i < j < |ks| ==> ks[i] != ks[j]
    ensures Occurrences(ks, u) == if u in ks then 1 else 0
  {
    if |ks| > 0 {
      OccursOnce(ks[1..], u);
      if ks[0] == u {
        assert u !in ks[1..];
      }
    }
  }

  /** Adding one equipment adds one to the sizes of the groups keyed by its unit. */
  lemma {:induction false} GroupSizesStep(eqs: seq<Equipment>, e: Equipment, ks: seq<string>)
    ensures GroupSizes(eqs + [e], ks) == GroupSizes(eqs, ks) + Occurrences(ks, e.unitId)
  {
    if |ks| > 0 {
      assert (eqs + [e])[..|eqs + [e]| - 1] == eqs;
      GroupSizesStep(eqs, e, ks[1..]);
    }
  }

  /** The group sizes over the distinct unit ids add up to the number of equipment. */
  lemma {:induction false} GroupSizesSum(eqs: seq<Equipment>, ks: seq<string>)
    requires forall i, j :: 0 <= i < j < |ks| ==> ks[i] != ks[j]
    requires UnitIds(eqs) <= set k | k in ks
    ensures GroupSizes(eqs, ks) == |eqs|
  {
    if |eqs| == 0 {
      EmptyGroupSizes(ks);
    } else {
      var init, e := eqs[..|eqs| - 1], eqs[|eqs| - 1];
      assert eqs == init + [e];
      GroupSizesSum(init, ks);
      GroupSizesStep(init, e, ks);
      OccursOnce(ks, e.unitId);
    }
  }

  lemma {:induction false} EmptyGroupSizes(ks: seq<string>)
    ensures GroupSizes([], ks) == 0
  {
    if |ks| > 0 {
      EmptyGroupSizes(ks[1..]);
    }
  }

  /** The address card: two lines and the CEP line, if any. */
  datatype AddressCard = AddressCard(streetLine: string, cityLine: string, zipLine: Option<string>)

  /** What an optional string renders as: nothing when missing. */
  function Shown(s: Option<string>): string {
    if s.Some? then s.value else ""
  }

  /**
   * The address card: the street, then ", number" when the number is
   * non-empty; the city when non-empty, then " - state" when the state
   * is non-empty; "CEP: zip" only when the zip is non-empty.
   */
  function ClientAddressCard(a: Address): (r: AddressCard)
    ensures Truthy(a.number) ==> r.streetLine == Shown(a.street) + ", " + a.number.value
    ensures !Truthy(a.number) ==> r.streetLine == Shown(a.street)
    ensures Truthy(a.state) ==> r.cityLine == Shown(a.city) + " - " + a.state.value
    ensures !Truthy(a.state) ==> r.cityLine == Shown(a.city)
    ensures r.zipLine.Some? <==> Truthy(a.zip)
    ensures r.zipLine.Some? ==> r.zipLine.value == "CEP: " + a.zip.value
  {
    AddressCard(
      Shown(a.street) + (if Truthy(a.number) then ", " + a.number.value else ""),
      (if Truthy(a.city) then a.city.value else "") + (if Truthy(a.state) then " - " + a.state.value else ""),
      if Truthy(a.zip) then Some("CEP: " + a.zip.value) else None)
  }

  /** The card is shown only for a client that has an address. */
  function AddressCardOf(address: Option<Address>): (r: Option<AddressCard>)
    ensures r.Some? <==> address.Some?
  {
    match address
    case None => None
    case Some(a) => Some(ClientAddressCard(a))
  }
}
