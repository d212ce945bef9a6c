/**
 * The five elements, the staff item identities and the scroll item
 * identities of the add-on (main.js, the tables at its top), and the
 * identity resolver that maps a used item back to its element.
 */
module Elements {
  import opened Optional

  datatype Element = Water | Fire | Wind | Sand | Hail

  /** The cyclic order in which sneaking advances a staff. */
  const StaffOrder: seq<Element> := [Water, Fire, Wind, Sand, Hail]

  /** The lower-case name used inside item identifiers. */
  function Name(e: Element): string
  {
    match e
    case Water => "water"
    case Fire => "fire"
    case Wind => "wind"
    case Sand => "sand"
    case Hail => "hail"
  }

  /** ASCII upper-casing of one character. */
  function UpperChar(c: char): char
  {
    if 'a' <= c <= 'z' then (c as int - 32) as char else c
  }

  /** ASCII upper-casing, the part of `toUpperCase` that element names use. */
  function ToUpper(s: string): (u: string)
    ensures |u| == |s|
    ensures forall i :: 0 <= i < |s| ==> u[i] == UpperChar(s[i])
  {
    if s == [] then []
    else [UpperChar(s[0])] + ToUpper(s[1..])
  }

  /** The element name as the action bar shows it. */
  function UpperName(e: Element): string
  {
    ToUpper(Name(e))
  }

  /** The action bar spells the five elements WATER, FIRE, WIND, SAND and HAIL. */
  lemma UpperNames()
    ensures UpperName(Water) == "WATER" && UpperName(Fire) == "FIRE" && UpperName(Wind) == "WIND"
    ensures UpperName(Sand) == "SAND" && UpperName(Hail) == "HAIL"
  {
    UpperIs("water", "WATER");
    UpperIs("fire", "FIRE");
    UpperIs("wind", "WIND");
    UpperIs("sand", "SAND");
    UpperIs("hail", "HAIL");
  }

  /** Upper-casing agrees with a string that upper-cases each character. */
  lemma UpperIs(s: string, u: string)
    requires |s| == |u| && forall i :: 0 <= i < |s| ==> UpperChar(s[i]) == u[i]
    ensures ToUpper(s) == u
  {
  }

  const StaffPrefix: string := "wizardiuz:staff_"

  /** The item identifier of the staff of element `e`. */
  function StaffId(e: Element): string
  {
    StaffPrefix + Name(e)
  }

  /** The item identifier of the off-hand scroll of element `e`. */
  function ScrollId(e: Element): string
  {
    match e
    case Water => "wizardiuz:scroll_tide_warden"
    case Fire => "wizardiuz:scroll_banished_sun"
    case Wind => "wizardiuz:scroll_gale_sigil"
    case Sand => "wizardiuz:scroll_dune_aegis"
    case Hail => "wizardiuz:scroll_hail_requiem"
  }

  /** The off-hand scroll identities and the element each one stands for. */
  const ScrollTable: map<string, Element> := map[
    ScrollId(Water) := Water,
    ScrollId(Fire) := Fire,
    ScrollId(Wind) := Wind,
    ScrollId(Sand) := Sand,
    ScrollId(Hail) := Hail
  ]

  lemma NamesDistinct(a: Element, b: Element)
    requires Name(a) == Name(b)
    ensures a == b
  {
  }

  /** Distinct elements have distinct staff identifiers. */
  lemma StaffIdInjective(a: Element, b: Element)
    requires StaffId(a) == StaffId(b)
    ensures a == b
  {
    assert Name(a) == StaffId(a)[|StaffPrefix|..];
    assert Name(b) == StaffId(b)[|StaffPrefix|..];
    NamesDistinct(a, b);
  }

  /** Every element appears in the cyclic order. */
  lemma InStaffOrder(e: Element)
    ensures e in StaffOrder
  {
    match e
    case Water => assert StaffOrder[0] == e;
    case Fire => assert StaffOrder[1] == e;
    case Wind => assert StaffOrder[2] == e;
    case Sand => assert StaffOrder[3] == e;
    case Hail => assert StaffOrder[4] == e;
  }

  /** `Array.prototype.find`: the first element of `order` whose staff identifier is `typeId`. */
  function FindStaff(order: seq<Element>, typeId: string): (r: Option<Element>)
    ensures r.Some? ==> r.value in order && typeId == StaffId(r.value)
    ensures r.None? ==> forall e :: e in order ==> typeId != StaffId(e)
  {
    if order == [] then None
    else if typeId == StaffId(order[0]) then Some(order[0])
    else FindStaff(order[1..], typeId)
  }

  /**
   * getElementFromStaff: the element whose staff identifier equals
   * `typeId` exactly, and none for any other identifier.
   */
  function ElementFromStaff(typeId: string): (r: Option<Element>)
    ensures r.Some? ==> typeId == StaffId(r.value)
    ensures r.None? <==> forall e: Element :: typeId != StaffId(e)
  {
    var r := FindStaff(StaffOrder, typeId);
    if r.None? then
      assert forall e: Element :: typeId != StaffId(e) by {
        forall e: Element ensures typeId != StaffId(e) { InStaffOrder(e); }
      }
      r
    else r
  }

  /** The staff identifier of every element resolves back to that element. */
  lemma ElementFromStaffId(e: Element)
    ensures ElementFromStaff(StaffId(e)) == Some(e)
  {
    var r := ElementFromStaff(StaffId(e));
    StaffIdInjective(r.value, e);
  }

  /**
   * The element of an off-hand scroll: the element whose scroll
   * identifier the item carries, none for a missing item or any other
   * identifier.
   */
  function ScrollElement(typeId: Option<string>): (r: Option<Element>)
    ensures r.Some? ==> typeId == Some(ScrollId(r.value))
    ensures r.None? <==> forall e: Element :: typeId != Some(ScrollId(e))
  {
    if typeId.Some? && typeId.value != "" && typeId.value in ScrollTable then Some(ScrollTable[typeId.value])
    else None
  }

  /** Distinct elements have distinct scroll identifiers. */
  lemma ScrollIdInjective(a: Element, b: Element)
    requires ScrollId(a) == ScrollId(b)
    ensures a == b
  {
    assert ScrollId(a)[17] == ScrollId(b)[17];
  }

  /** Each element has exactly one scroll: the one carrying its identifier. */
  lemma ScrollElementOf(typeId: Option<string>, e: Element)
    ensures ScrollElement(typeId) == Some(e) <==> typeId == Some(ScrollId(e))
  {
    var r := ScrollElement(typeId);
    if r.Some? && typeId == Some(ScrollId(e)) {
      ScrollIdInjective(r.value, e);
    }
  }

  /** `Array.prototype.indexOf`: the first position of `e` in `s`, or -1. */
  function IndexOf(s: seq<Element>, e: Element): (i: int)
    ensures -1 <= i && (i == -1 <==> e !in s)
    ensures 0 <= i ==> i < |s| && s[i] == e && e !in s[..i]
  {
    if s == [] then -1
    else if s[0] == e then 0
    else
      var j := IndexOf(s[1..], e);
      if j == -1 then -1
      else
        assert s[..j+1] == [s[0]] + s[1..][..j];
        j + 1
  }

  /** The position of `e` in the cyclic order. */
  function Position(e: Element): (i: nat)
    ensures i < |StaffOrder|
  {
    match e
    case Water => 0
    case Fire => 1
    case Wind => 2
    case Sand => 3
    case Hail => 4
  }

  lemma PositionAt(e: Element)
    ensures StaffOrder[Position(e)] == e
  {
  }

  /** Positions in the cyclic order are unique. */
  lemma PositionUnique(i: nat, e: Element)
    requires i < |StaffOrder| && StaffOrder[i] == e
    ensures Position(e) == i
  {
  }

  lemma PositionInjective(a: Element, b: Element)
    requires Position(a) == Position(b)
    ensures a == b
  {
  }

  /** Searching the cyclic order finds each element at its position. */
  lemma IndexOfStaffOrder(e: Element)
    ensures IndexOf(StaffOrder, e) == Position(e)
  {
    InStaffOrder(e);
    PositionUnique(IndexOf(StaffOrder, e), e);
  }

  /**
   * The element a sneak-use with no scroll switches to: one step on,
   * cyclically. The index it steps from is `Position(e)`, which is what
   * searching the order finds (`NextSearchesOrder`).
   */
  function Next(e: Element): (n: Element)
    ensures Position(n) == (Position(e) + 1) % 5
  {
    StaffOrder[(Position(e) + 1) % |StaffOrder|]
  }

  /** The handler's successor computation as written: find the index, step one on, wrap round. */
  lemma NextSearchesOrder(e: Element)
    ensures 0 <= IndexOf(StaffOrder, e)
    ensures Next(e) == StaffOrder[(IndexOf(StaffOrder, e) + 1) % |StaffOrder|]
  {
    IndexOfStaffOrder(e);
  }

  /** One step back in the cyclic order, the inverse of `Next`. */
  function Prev(e: Element): (p: Element)
    ensures Position(p) == (Position(e) + 4) % 5
  {
    StaffOrder[(Position(e) + |StaffOrder| - 1) % |StaffOrder|]
  }

  /** Advancing `n` times. */
  function NextN(e: Element, n: nat): Element
  {
    if n == 0 then e else Next(NextN(e, n - 1))
  }

  /** The order closes: hail advances to water. */
  lemma HailToWater()
    ensures Next(Hail) == Water
  {
    PositionUnique(0, Next(Hail));
  }

  /** `Next` and `Prev` undo each other, so `Next` is a bijection on the elements. */
  lemma NextBijective(e: Element)
    ensures Prev(Next(e)) == e && Next(Prev(e)) == e
  {
    var p := Position(e);
    CycleArithmetic(p);
    assert Position(Prev(Next(e))) == p;
    assert Position(Next(Prev(e))) == p;
    PositionInjective(Prev(Next(e)), e);
    PositionInjective(Next(Prev(e)), e);
  }

  lemma NextInjective(a: Element, b: Element)
    requires Next(a) == Next(b)
    ensures a == b
  {
    NextBijective(a);
    NextBijective(b);
  }

  lemma CycleArithmetic(p: nat)
    requires p < 5
    ensures ((p + 1) % 5 + 4) % 5 == p && ((p + 4) % 5 + 1) % 5 == p
  {
  }

  lemma WholeTurns(p: nat, n: nat)
    requires p < 5 && n % 5 == 0
    ensures (p + n) % 5 == p
  {
  }

  lemma PositionStep(x: Element, a: nat, n: nat)
    requires 0 < n && Position(x) == (a + (n - 1)) % 5
    ensures Position(Next(x)) == (a + n) % 5
  {
    var k := Position(x);
    assert Position(Next(x)) == (k + 1) % 5;
    StepMod(k, a + (n - 1));
    assert a + (n - 1) + 1 == a + n;
  }

  lemma StepMod(k: int, m: int)
    requires k == m % 5
    ensures (k + 1) % 5 == (m + 1) % 5
  {
  }

  /** After `n` steps the position has moved on by `n`, modulo five. */
  lemma {:induction false} NextNPosition(e: Element, n: nat)
    ensures Position(NextN(e, n)) == (Position(e) + n) % 5
  {
    if n > 0 {
      NextNPosition(e, n - 1);
      PositionStep(NextN(e, n - 1), Position(e), n);
    }
  }

  /** Every multiple of five switches, five in particular, returns a staff to its starting element. */
  lemma CycleReturns(e: Element, n: nat)
    requires n % 5 == 0
    ensures NextN(e, n) == e
  {
    var p := Position(e);
    NextNPosition(e, n);
    WholeTurns(p, n);
    PositionInjective(NextN(e, n), e);
  }
}
