/**
 * The ability table of main.js (`ABILITIES`) and the subset choice of
 * `castAbility`: six abilities per element, the first three used while
 * standing and the last three while sneaking.
 */
module Abilities {
  import opened Elements

  datatype Category = Attack | Support | Defense

  /**
   * One entry of the table. The effect routine each entry carries is
   * identified here by the entry itself: running it is recorded, its
   * engine calls are not modelled.
   */
  datatype Ability = Ability(name: string, category: Category)

  function CategoryName(c: Category): string
  {
    match c
    case Attack => "Attack"
    case Support => "Support"
    case Defense => "Defense"
  }

  /** The six abilities of element `e`, in table order. */
  function Pool(e: Element): (p: seq<Ability>)
    ensures |p| == 6
  {
    match e
    case Water => [
      Ability("Tidal Lance", Attack),
      Ability("Mending Rain", Support),
      Ability("Foam Guard", Defense),
      Ability("Riptide Burst", Attack),
      Ability("Mist Veil", Defense),
      Ability("Spring of Focus", Support)]
    case Fire => [
      Ability("Coffin of the Banished Sun", Attack),
      Ability("Solar Bulwark", Defense),
      Ability("Ember Rush", Support),
      Ability("Blazing Volley", Attack),
      Ability("Scorch Field", Attack),
      Ability("Phoenix Pulse", Support)]
    case Wind => [
      Ability("Cyclone Jab", Attack),
      Ability("Tailwind", Support),
      Ability("Aerial Skin", Defense),
      Ability("Vacuum Spike", Attack),
      Ability("Pressure Step", Support),
      Ability("Skyguard", Defense)]
    case Sand => [
      Ability("Dune Spear", Attack),
      Ability("Granite Stance", Defense),
      Ability("Nomad's Gift", Support),
      Ability("Quicksand Ring", Attack),
      Ability("Dust Veil", Defense),
      Ability("Caravan Step", Support)]
    case Hail => [
      Ability("Shard Barrage", Attack),
      Ability("Frostwall", Defense),
      Ability("Winter Mercy", Support),
      Ability("Permafrost Nova", Attack),
      Ability("Iceblink", Support),
      Ability("Crystal Shell", Defense)]
  }

  /** `pool.slice(3, 6)` while sneaking, `pool.slice(0, 3)` otherwise. */
  function Subset(e: Element, sneaking: bool): (s: seq<Ability>)
    ensures |s| == 3
  {
    var pool := Pool(e);
    if sneaking then pool[3..6] else pool[0..3]
  }

  /** The table index an ability chosen by `r` has: `r` standing, `3 + r` sneaking. */
  function ChosenIndex(sneaking: bool, r: nat): nat
  {
    if sneaking then 3 + r else r
  }

  /**
   * The ability `castAbility` runs; `r` stands for
   * `Math.floor(Math.random() * 3)`.
   */
  function Choose(e: Element, sneaking: bool, r: nat): (a: Ability)
    requires r < 3
    ensures a == Pool(e)[ChosenIndex(sneaking, r)]
    ensures if sneaking then 3 <= ChosenIndex(sneaking, r) < 6 else ChosenIndex(sneaking, r) < 3
  {
    Subset(e, sneaking)[r]
  }

  /** Every ability of the designated subset is chosen by some `r`, so the random draw ranges over all three. */
  lemma ChooseCoversSubset(e: Element, sneaking: bool, a: Ability)
    requires a in Subset(e, sneaking)
    ensures exists r :: 0 <= r < 3 && Choose(e, sneaking, r) == a
  {
    var s := Subset(e, sneaking);
    if a == s[0] { assert Choose(e, sneaking, 0) == a; }
    else if a == s[1] { assert Choose(e, sneaking, 1) == a; }
    else { assert Choose(e, sneaking, 2) == a; }
  }

  /** Two abilities told apart by the length or the first letter of their names. */
  predicate Apart(a: Ability, b: Ability)
  {
    |a.name| != |b.name| || (0 < |a.name| && a.name[0] != b.name[0])
  }

  /** No two of a table's six entries share both name length and first letter. */
  predicate Separated(p: seq<Ability>)
    requires |p| == 6
  {
    && Apart(p[0], p[1]) && Apart(p[0], p[2]) && Apart(p[0], p[3]) && Apart(p[0], p[4]) && Apart(p[0], p[5])
    && Apart(p[1], p[2]) && Apart(p[1], p[3]) && Apart(p[1], p[4]) && Apart(p[1], p[5])
    && Apart(p[2], p[3]) && Apart(p[2], p[4]) && Apart(p[2], p[5])
    && Apart(p[3], p[4]) && Apart(p[3], p[5])
    && Apart(p[4], p[5])
  }

  lemma SeparatedDistinct(p: seq<Ability>, i: nat, j: nat)
    requires |p| == 6 && Separated(p) && i < j < 6
    ensures p[i] != p[j]
  {
    assert Apart(p[i], p[j]);
  }

  lemma PoolsSeparated(e: Element)
    ensures Separated(Pool(e))
  {
    match e
    case Water => assert Separated(Pool(Water));
    case Fire => assert Separated(Pool(Fire));
    case Wind => assert Separated(Pool(Wind));
    case Sand => assert Separated(Pool(Sand));
    case Hail => assert Separated(Pool(Hail));
  }

  /** Within one element's table no two entries are equal. */
  lemma PoolDistinct(e: Element, i: nat, j: nat)
    requires i < j < 6
    ensures Pool(e)[i] != Pool(e)[j]
  {
    PoolsSeparated(e);
    SeparatedDistinct(Pool(e), i, j);
  }

  /** The ability a cast runs never belongs to the subset of the other sneak state. */
  lemma ChooseNeverOtherSubset(e: Element, sneaking: bool, r: nat)
    requires r < 3
    ensures Choose(e, sneaking, r) !in Subset(e, !sneaking)
  {
    var i := ChosenIndex(sneaking, r);
    var other := Subset(e, !sneaking);
    forall k | 0 <= k < 3
      ensures other[k] != Choose(e, sneaking, r)
    {
      var j := ChosenIndex(!sneaking, k);
      assert other[k] == Pool(e)[j];
      if i < j { PoolDistinct(e, i, j); } else { PoolDistinct(e, j, i); }
    }
  }

  /**
   * The abilities whose effect routine starts with `pushBurst`: Riptide
   * Burst and Cyclone Jab. `pushBurst` requests knockback from each mob
   * without catching a rejection: these are the only routines with an
   * unguarded per-entity knockback request.
   */
  predicate Pushes(a: Ability)
  {
    a == Ability("Riptide Burst", Attack) || a == Ability("Cyclone Jab", Attack)
  }

  /** Of all thirty table entries, exactly water's fourth and wind's first push. */
  lemma PushingEntries(e: Element, i: nat)
    requires i < 6
    ensures Pushes(Pool(e)[i]) <==> (e == Water && i == 3) || (e == Wind && i == 0)
  {
  }

  /** The section sign that starts the game's text formatting codes. */
  const Format: char := '\U{A7}'

  /** The action-bar line after a cast: `ELEMENT | name (category)` with colour codes. */
  function CastText(e: Element, a: Ability): string
  {
    [Format] + "b" + UpperName(e) + " " + [Format] + "7| " + [Format] + "e" + a.name
      + " " + [Format] + "8(" + CategoryName(a.category) + ")"
  }
}
