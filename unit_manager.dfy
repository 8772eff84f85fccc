/** The resource manager: the default name proposed for a new unit, and the
    unit record posted when the operator clicks the map.
 */
module UnitManagement {
  import opened Records
  import ServerStore
  import Dispatch

  /** Call-sign prefix of a unit type; any type other than POLICE and FIRE
      gets the medical prefix. */
  function Prefix(kind: string): string {
    if kind == POLICE then "PCR" else if kind == FIRE then "ENG" else "MED"
  }

  predicate IsDigit(c: char) {
    '0' <= c <= '9'
  }

  predicate AllDigits(s: string) {
    forall i :: 0 <= i < |s| ==> IsDigit(s[i])
  }

  function DigitChar(d: nat): char
    requires d < 10
  {
    ('0' as int + d) as char
  }

  function DigitValue(c: char): nat
    requires IsDigit(c)
  {
    c as int - '0' as int
  }

  /** How a template literal renders a non-negative integer: its decimal
      digits, without leading zeros. */
  function Decimal(n: nat): (r: string)
    ensures r != [] && AllDigits(r)
    ensures n > 0 ==> r[0] != '0'
  {
    if n < 10 then [DigitChar(n)] else Decimal(n / 10) + [DigitChar(n % 10)]
  }

  /** The number a string of decimal digits denotes. */
  function DecimalValue(s: string): nat
    requires AllDigits(s)
  {
    if s == [] then 0 else DecimalValue(s[..|s| - 1]) * 10 + DigitValue(s[|s| - 1])
  }

  /** Reading the rendered digits back gives the number. */
  lemma {:induction false} DecimalRoundTrip(n: nat)
    ensures DecimalValue(Decimal(n)) == n
  {
    var r := Decimal(n);
    if n >= 10 {
      DecimalRoundTrip(n / 10);
      assert r[..|r| - 1] == Decimal(n / 10);
    }
  }

  /** A digit string without a leading zero is positive. */
  lemma {:induction false} LeadingDigitPositive(s: string)
    requires s != [] && AllDigits(s) && s[0] != '0'
    ensures DecimalValue(s) > 0
    decreases |s|
  {
    if |s| > 1 {
      LeadingDigitPositive(s[..|s| - 1]);
    }
  }

  /** `Decimal` is the only rendering without leading zeros: any digit
      string that starts with a non-zero digit (or is the single digit 0)
      and denotes `n` is `Decimal(n)`. */
  lemma {:induction false} DecimalUnique(s: string, n: nat)
    requires s != [] && AllDigits(s) && (s[0] != '0' || s == "0")
    requires DecimalValue(s) == n
    ensures s == Decimal(n)
    decreases |s|
  {
    var init, d := s[..|s| - 1], DigitValue(s[|s| - 1]);
    if init == [] {
      assert s == [DigitChar(d)];
    } else {
      LeadingDigitPositive(init);
      assert n / 10 == DecimalValue(init) && n % 10 == d;
      DecimalUnique(init, n / 10);
      assert s == init + [DigitChar(d)];
    }
  }

  /** `getNextName(type, count)`: the prefix, a dash, and `100 + count + 1`. */
  function NextName(kind: string, count: nat): (r: string)
    ensures |r| > 4 && r[..4] == Prefix(kind) + "-"
    ensures AllDigits(r[4..]) && DecimalValue(r[4..]) == 101 + count
    ensures r[4] != '0' && r[4..] == Decimal(101 + count)
  {
    var digits := Decimal(100 + count + 1);
    DecimalRoundTrip(100 + count + 1);
    var r := Prefix(kind) + "-" + digits;
    assert r[4..] == digits;
    r
  }

  /** Different counts give different names, and so do the three unit
      types; every other type shares the medical prefix. */
  lemma NextNameInjective(k1: string, c1: nat, k2: string, c2: nat)
    requires NextName(k1, c1) == NextName(k2, c2)
    ensures c1 == c2 && Prefix(k1) == Prefix(k2)
  {
    var r := NextName(k1, c1);
    assert r[..4] == Prefix(k1) + "-" && r[..4] == Prefix(k2) + "-";
    assert Prefix(k1) == r[..3] == Prefix(k2);
  }

  /** An empty roster proposes the 101st of each type. */
  lemma FirstNames()
    ensures NextName(POLICE, 0) == "PCR-101"
    ensures NextName(FIRE, 0) == "ENG-101"
    ensures NextName(MEDICAL, 0) == "MED-101"
  {
    assert Decimal(1) == "1";
    assert Decimal(10) == "10";
    assert Decimal(101) == "101";
  }

  /** The body `handleAddUnit` posts for a click at (`lat`, `lng`). */
  function ClickBody(name: string, kind: string, lat: real, lng: real): UnitBody {
    UnitBody(Some(name), Some(kind), Some(IDLE), Some([Some(lat), Some(lng)]))
  }

  /** The unit the server stores for a map click is idle, well placed and of
      the selected type, so it is at once eligible for dispatch suggestions. */
  lemma ClickedUnitIsEligible(name: string, kind: string, lat: real, lng: real, id: Id)
    ensures var u := ServerStore.NewUnit(ClickBody(name, kind, lat, lng), id);
      && u.name == Some(name) && u.kind == Some(kind) && u.status == IDLE
      && u.coordinates == [Some(lat), Some(lng)]
      && Dispatch.Eligible(u, kind)
  {
  }

  class UnitManager {
    var units: seq<ForceUnit>
    var selectedType: string
    var unitName: string
    /** Bodies posted to `POST /api/units`, oldest first. */
    var posted: seq<UnitBody>

    constructor ()
      ensures units == [] && selectedType == POLICE && unitName == "" && posted == []
    {
      units, selectedType, unitName, posted := [], POLICE, "", [];
    }

    /** The name field's placeholder: the name an empty field falls back to. */
    function Placeholder(): (r: string)
      reads this
      ensures |r| > 4 && r[..4] == Prefix(selectedType) + "-"
      ensures AllDigits(r[4..]) && DecimalValue(r[4..]) == 101 + |units|
      ensures r[4] != '0' && r[4..] == Decimal(101 + |units|)
    {
      NextName(selectedType, |units|)
    }

    method SelectType(kind: string)
      modifies this
      ensures selectedType == kind
      ensures units == old(units) && unitName == old(unitName) && posted == old(posted)
    {
      selectedType := kind;
    }

    method SetName(name: string)
      modifies this
      ensures unitName == name
      ensures units == old(units) && selectedType == old(selectedType) && posted == old(posted)
    {
      unitName := name;
    }

    /** The `units_updated` handler (and the initial load) replace the whole
        roster with the received list. */
    method OnUnitsUpdated(newUnits: seq<ForceUnit>)
      modifies this
      ensures units == newUnits
      ensures selectedType == old(selectedType) && unitName == old(unitName) && posted == old(posted)
    {
      units := newUnits;
    }

    /** `handleAddUnit`: a typed name is used verbatim, an empty one falls
        back to the generated name numbered by the whole roster's length;
        the unit is posted idle at the clicked point and the field cleared. */
    method AddUnit(lat: real, lng: real)
      modifies this
      ensures old(unitName) != "" ==>
        posted == old(posted) + [ClickBody(old(unitName), selectedType, lat, lng)]
      ensures old(unitName) == "" ==>
        posted == old(posted) + [ClickBody(old(Placeholder()), selectedType, lat, lng)]
      ensures unitName == ""
      ensures units == old(units) && selectedType == old(selectedType)
    {
      var name := if unitName != "" then unitName else NextName(selectedType, |units|);
      posted := posted + [ClickBody(name, selectedType, lat, lng)];
      unitName := "";
    }
  }
}
