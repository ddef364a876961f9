/**
 * The collapsible card of one unit: its one-line address, the equipment
 * count badge and the expand/collapse toggle.
 */
module CollapsibleUnitCard {
  import opened Wrappers
  import opened Text
  import opened Domain

  /** The values of the truthy fields, in the order given. */
  function Present(fields: seq<Option<string>>): (r: seq<string>)
    ensures |r| <= |fields|
  {
    if |fields| == 0 then []
    else (if Truthy(fields[0]) then [fields[0].value] else []) + Present(fields[1..])
  }

  /** Only non-empty values are kept. */
  lemma {:induction false} PresentNonEmpty(fields: seq<Option<string>>)
    ensures forall i :: 0 <= i < |Present(fields)| ==> Present(fields)[i] != ""
  {
    if |fields| > 0 {
      PresentNonEmpty(fields[1..]);
    }
  }

  /** The address fields the one-line address is made of: street, number, city and state. */
  function AddressFields(a: Address): seq<Option<string>> {
    [a.street, a.number, a.city, a.state]
  }

  /**
   * `formatAddress()`: null without an address; otherwise the truthy
   * fields among street, number, city and state, pushed one by one and
   * joined by ", ".
   */
  method FormatAddress(address: Option<Address>) returns (r: Option<string>)
    ensures address.None? ==> r.None?
    ensures address.Some? ==> r == Some(Join(Present(AddressFields(address.value)), ", "))
  {
    if address.None? {
      return None;
    }
    var a := address.value;
    var parts: seq<string> := [];
    ghost var want := Present(AddressFields(a));
    PresentFour(a);
    if Truthy(a.street) {
      parts := parts + [a.street.value];
    }
    assert parts == want[..|parts|];
    if Truthy(a.number) {
      parts := parts + [a.number.value];
    }
    assert parts == want[..|parts|];
    if Truthy(a.city) {
      parts := parts + [a.city.value];
    }
    assert parts == want[..|parts|];
    if Truthy(a.state) {
      parts := parts + [a.state.value];
    }
    assert parts == want;
    return Some(Join(parts, ", "));
  }

  /** `Present` over the four address fields, one field at a time. */
  lemma PresentFour(a: Address)
    ensures Present(AddressFields(a)) ==
      (if Truthy(a.street) then [a.street.value] else []) +
      (if Truthy(a.number) then [a.number.value] else []) +
      (if Truthy(a.city) then [a.city.value] else []) +
      (if Truthy(a.state) then [a.state.value] else [])
  {
    assert Present([a.state]) == (if Truthy(a.state) then [a.state.value] else []) by {
      assert [a.state][1..] == [];
    }
    assert Present([a.city, a.state]) ==
      (if Truthy(a.city) then [a.city.value] else []) + Present([a.state]) by {
      assert [a.city, a.state][1..] == [a.state];
    }
    assert Present([a.number, a.city, a.state]) ==
      (if Truthy(a.number) then [a.number.value] else []) + Present([a.city, a.state]) by {
      assert [a.number, a.city, a.state][1..] == [a.city, a.state];
    }
    assert Present(AddressFields(a)) ==
      (if Truthy(a.street) then [a.street.value] else []) + Present([a.number, a.city, a.state]) by {
      assert AddressFields(a)[1..] == [a.number, a.city, a.state];
    }
  }

  /** The zip code never takes part in the one-line address. */
  lemma ZipIgnored(a: Address, zip: Option<string>)
    ensures Present(AddressFields(a.(zip := zip))) == Present(AddressFields(a))
  {
  }

  /** With every field filled the address reads "street, number, city, state". */
  lemma FullAddress(a: Address)
    requires Truthy(a.street) && Truthy(a.number) && Truthy(a.city) && Truthy(a.state)
    ensures Join(Present(AddressFields(a)), ", ") ==
      a.street.value + ", " + a.number.value + ", " + a.city.value + ", " + a.state.value
  {
    PresentFour(a);
    var ps := [a.street.value, a.number.value, a.city.value, a.state.value];
    assert Present(AddressFields(a)) == ps;
    assert ps[1..] == [a.number.value, a.city.value, a.state.value];
    assert ps[1..][1..] == [a.city.value, a.state.value];
    assert ps[1..][1..][1..] == [a.state.value];
    assert Join(ps[1..][1..], ", ") == a.city.value + ", " + a.state.value;
  }

  /** A join of non-empty parts is empty exactly when there are no parts. */
  lemma {:induction false} JoinEmpty(parts: seq<string>, sep: string)
    requires forall i :: 0 <= i < |parts| ==> parts[i] != ""
    ensures Join(parts, sep) == "" <==> parts == []
  {
    if |parts| >= 2 {
      assert |Join(parts, sep)| >= |parts[0]|;
    }
  }

  /**
   * The address line shows (`address && ...`) exactly when the unit has an
   * address with at least one of street, number, city and state filled.
   */
  lemma AddressLineShown(a: Address)
    ensures Join(Present(AddressFields(a)), ", ") != "" <==>
      Truthy(a.street) || Truthy(a.number) || Truthy(a.city) || Truthy(a.state)
  {
    PresentFour(a);
    PresentNonEmpty(AddressFields(a));
    JoinEmpty(Present(AddressFields(a)), ", ");
  }

  /** The badge: the count, a space, then "equip." for exactly one and "equips." otherwise. */
  function BadgeLabel(count: nat): (r: string)
    ensures StartsWith(r, NatToString(count) + " ")
    ensures EndsWith(r, "equip.") <==> count == 1
    ensures EndsWith(r, "equips.") <==> count != 1
  {
    var unitWord := if count == 1 then "equip." else "equips.";
    var r := NatToString(count) + " " + unitWord;
    assert r[..|NatToString(count) + " "|] == NatToString(count) + " ";
    assert r[|r| - |unitWord|..] == unitWord;
    assert count != 1 ==> r[|r| - 6..] == "quips.";
    assert count == 1 ==> r[|r| - 7..][1..] == "equip." && r[|r| - 7..][0] == ' ';
    r
  }

  /** Pressing the header flips `expanded`; pressing twice restores it. */
  function PressHeader(expanded: bool): (r: bool)
    ensures r != expanded
  {
    !expanded
  }

  /** The expanded part of the card. */
  datatype CardContent = Collapsed | EmptyUnit | MiniCards(equipment: seq<Equipment>)

  /** Collapsed shows nothing; expanded shows the empty-unit text or one mini card per equipment. */
  function Content(expanded: bool, equipments: seq<Equipment>): (r: CardContent)
    ensures r.Collapsed? <==> !expanded
    ensures r.EmptyUnit? <==> expanded && |equipments| == 0
    ensures r.MiniCards? ==> r.equipment == equipments
  {
    if !expanded then Collapsed
    else if |equipments| == 0 then EmptyUnit
    else MiniCards(equipments)
  }
}
