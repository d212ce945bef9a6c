/**
 * The neighbour query and the damage ring of main.js (`nearbyMobs`,
 * `damageRing`). The engine's spatial query is an input: `found` is what
 * `getEntities` returned for the radius. Each entity carries whether the
 * engine accepts or rejects (throws on) a damage request against it.
 */
module Entities {

  datatype Entity = Entity(id: string, typeId: string, acceptsDamage: bool)

  /** A damage request the engine accepted. */
  datatype Hit = Hit(target: string, amount: nat, cause: string, damager: string)

  const DroppedItem: string := "minecraft:item"

  /** An entity the abilities act on: neither the caster nor a dropped item. */
  predicate IsMob(casterId: string, e: Entity)
  {
    e.id != casterId && e.typeId != DroppedItem
  }

  /** `nearbyMobs`: the query result with the caster and dropped items filtered out, order kept. */
  function NearbyMobs(casterId: string, found: seq<Entity>): (mobs: seq<Entity>)
    ensures |mobs| <= |found|
  {
    if found == [] then []
    else
      var rest := NearbyMobs(casterId, found[1..]);
      if IsMob(casterId, found[0]) then [found[0]] + rest else rest
  }

  /** The filter keeps exactly the found entities that are mobs. */
  lemma {:induction false} NearbyMobsExact(casterId: string, found: seq<Entity>, e: Entity)
    ensures e in NearbyMobs(casterId, found) <==> e in found && IsMob(casterId, e)
    decreases |found|
  {
    if found != [] {
      NearbyMobsExact(casterId, found[1..], e);
      assert found == [found[0]] + found[1..];
    }
  }

  /** On one entity the filter keeps it exactly when it is a mob. */
  lemma NearbyMobsOne(casterId: string, e: Entity)
    ensures NearbyMobs(casterId, [e]) == if IsMob(casterId, e) then [e] else []
  {
    assert [e][1..] == [];
  }

  /** Filtering a list with a first entity: that entity, if a mob, then the filtered rest. */
  lemma NearbyMobsCons(casterId: string, x: Entity, rest: seq<Entity>)
    ensures NearbyMobs(casterId, [x] + rest) == (if IsMob(casterId, x) then [x] else []) + NearbyMobs(casterId, rest)
  {
    assert ([x] + rest)[1..] == rest;
  }

  /**
   * The filter works entity by entity: filtering a concatenation is
   * concatenating the filtered parts, so order and repetitions are kept.
   */
  lemma {:induction false} NearbyMobsAppend(casterId: string, a: seq<Entity>, b: seq<Entity>)
    ensures NearbyMobs(casterId, a + b) == NearbyMobs(casterId, a) + NearbyMobs(casterId, b)
    decreases |a|
  {
    if a == [] {
      assert a + b == b;
    } else {
      var x, tail := a[0], a[1..];
      assert a == [x] + tail;
      assert a + b == [x] + (tail + b);
      NearbyMobsCons(casterId, x, tail + b);
      NearbyMobsCons(casterId, x, tail);
      NearbyMobsAppend(casterId, tail, b);
      var head := if IsMob(casterId, x) then [x] else [];
      assert head + (NearbyMobs(casterId, tail) + NearbyMobs(casterId, b))
          == (head + NearbyMobs(casterId, tail)) + NearbyMobs(casterId, b);
    }
  }

  /** The hits a best-effort pass over `targets` produces: one per entity that accepts damage, in order. */
  function Hits(targets: seq<Entity>, amount: nat, cause: string, damager: string): (h: seq<Hit>)
    ensures |h| <= |targets|
    ensures forall k :: 0 <= k < |h| ==> h[k].amount == amount && h[k].cause == cause && h[k].damager == damager
  {
    if targets == [] then []
    else
      var last := targets[|targets| - 1];
      Hits(targets[..|targets| - 1], amount, cause, damager)
        + (if last.acceptsDamage then [Hit(last.id, amount, cause, damager)] else [])
  }

  /** A hit lands on exactly those targets that accept damage, whatever the others do. */
  lemma {:induction false} HitsBestEffort(targets: seq<Entity>, amount: nat, cause: string, damager: string, h: Hit)
    ensures h in Hits(targets, amount, cause, damager) <==>
      exists e :: e in targets && e.acceptsDamage && h == Hit(e.id, amount, cause, damager)
  {
    if targets != [] {
      var init := targets[..|targets| - 1];
      var last := targets[|targets| - 1];
      HitsBestEffort(init, amount, cause, damager, h);
      assert targets == init + [last];
      assert forall e :: e in targets <==> e in init || e == last;
    }
  }

  /** One hit per accepting target: a rejected request costs only its own hit. */
  lemma {:induction false} HitsCount(targets: seq<Entity>, amount: nat, cause: string, damager: string)
    ensures |Hits(targets, amount, cause, damager)| == |targets| - Rejecting(targets)
  {
    if targets != [] {
      HitsCount(targets[..|targets| - 1], amount, cause, damager);
    }
  }

  /** The number of targets that reject damage. */
  function Rejecting(targets: seq<Entity>): (n: nat)
    ensures n <= |targets|
  {
    if targets == [] then 0
    else Rejecting(targets[..|targets| - 1]) + (if targets[|targets| - 1].acceptsDamage then 0 else 1)
  }

  /**
   * `damageRing`: requests damage on every mob in turn; a rejected
   * request is swallowed and the loop goes on. Returns the mobs attempted
   * and the hits that landed.
   */
  method DamageRing(casterId: string, found: seq<Entity>, amount: nat, cause: string)
    returns (attempted: seq<Entity>, hits: seq<Hit>)
    ensures attempted == NearbyMobs(casterId, found)
    ensures hits == Hits(attempted, amount, cause, casterId)
  {
    var mobs := NearbyMobs(casterId, found);
    attempted, hits := [], [];
    for i := 0 to |mobs|
      invariant attempted == mobs[..i]
      invariant hits == Hits(mobs[..i], amount, cause, casterId)
    {
      var e := mobs[i];
      attempted := attempted + [e];
      if e.acceptsDamage {
        hits := hits + [Hit(e.id, amount, cause, casterId)];
      }
      assert mobs[..i + 1][..i] == mobs[..i];
    }
    assert mobs[..|mobs|] == mobs;
  }
}
