/**
 * The cast controller of main.js: the `itemUse` handler and the helpers
 * it calls on the player (`setMainhandToElement`, `castAbility`).
 *
 * The engine-facing state of one player is a `Player` object: the
 * inventory slots, the action-bar text and the log of engine requests
 * issued, in order (slot writes, ability runs, action-bar writes).
 * `Step` is the reference definition of one event on the value `State`;
 * `OnItemUse` is proved to perform exactly that step.
 */
module Dispatcher {
  import opened Optional
  import opened Elements
  import opened Abilities

  datatype ItemStack = ItemStack(typeId: string, amount: nat)

  /** A request issued to the engine. */
  datatype Call =
    | SetItem(slot: nat, stack: ItemStack)
    | Run(ability: Ability)
    | SetActionBar(text: string)

  /** The engine-facing state of a player, as a value. */
  datatype State = State(slots: seq<Option<ItemStack>>, actionBar: Option<string>, calls: seq<Call>)

  /**
   * What the handler reads from the player during one event and never
   * changes: whether the handle is valid, the sneak flag, the off-hand
   * item, whether an inventory container exists and the selected slot.
   * The last field is the engine's verdict on knockback: whether it
   * rejects a knockback request against some mob near the player, which
   * makes `pushBurst` throw.
   */
  datatype Context = Context(isValid: bool, sneaking: bool, offhand: Option<ItemStack>, hasInventory: bool, selected: nat,
                             knockbackRejected: bool)

  /** The four ways one item-use event can end. */
  datatype Outcome =
    | Ignored
    | Switched(next: Element)
    | Hinted
    | Cast(element: Element, realigned: bool, ability: Ability)

  /** The selected slot exists whenever the inventory does. */
  predicate Fits(s: State, ctx: Context)
  {
    ctx.hasInventory ==> ctx.selected < |s.slots|
  }

  /** The fresh staff stack `setMainhandToElement` creates: quantity one. */
  function StaffStack(e: Element): ItemStack
  {
    ItemStack(StaffId(e), 1)
  }

  const HintText: string := [Format] + "7Offhand a Wizardiuz Scroll to cast abilities."

  /** The action-bar line after a switch: `Element switched: NEXT` with colour codes. */
  function SwitchText(e: Element): string
  {
    [Format] + "dElement switched: " + [Format] + "f" + UpperName(e)
  }

  /** The element of the held staff, if the event is a valid use of a recognised staff. */
  function HeldElement(ctx: Context, used: Option<ItemStack>): Option<Element>
  {
    if ctx.isValid && used.Some? then ElementFromStaff(used.value.typeId) else None
  }

  /** The element of the off-hand scroll, none when the off-hand is empty or holds anything else. */
  function OffhandElement(ctx: Context): Option<Element>
  {
    ScrollElement(if ctx.offhand.Some? then Some(ctx.offhand.value.typeId) else None)
  }

  /**
   * The decision sequence of the `itemUse` handler. Exactly one outcome
   * applies, and which one is fixed by the held staff, the sneak flag
   * and the off-hand scroll.
   */
  function Decide(ctx: Context, used: Option<ItemStack>, r: nat): (o: Outcome)
    requires r < 3
    ensures o.Ignored? <==> HeldElement(ctx, used).None?
    ensures o.Switched? <==> HeldElement(ctx, used).Some? && ctx.sneaking && OffhandElement(ctx).None?
    ensures o.Hinted? <==> HeldElement(ctx, used).Some? && !ctx.sneaking && OffhandElement(ctx).None?
    ensures o.Cast? <==> HeldElement(ctx, used).Some? && OffhandElement(ctx).Some?
    ensures o.Switched? ==> o.next == Next(HeldElement(ctx, used).value)
    ensures o.Cast? ==>
      && o.element == OffhandElement(ctx).value
      && o.realigned == (o.element != HeldElement(ctx, used).value)
      && o.ability == Choose(o.element, ctx.sneaking, r)
  {
    if !ctx.isValid || used.None? then Ignored
    else
      var element := ElementFromStaff(used.value.typeId);
      if element.None? then Ignored
      else
        var offhandElement := OffhandElement(ctx);
        if ctx.sneaking && offhandElement.None? then Switched(Next(element.value))
        else if offhandElement.None? then Hinted
        else
          var b := offhandElement.value;
          Cast(b, b != element.value, Choose(b, ctx.sneaking, r))
  }

  /** `setMainhandToElement` on the value state. */
  function WithStaff(s: State, ctx: Context, e: Element): (t: State)
    requires Fits(s, ctx)
    ensures !ctx.hasInventory ==> t == s
    ensures ctx.hasInventory ==>
      && |t.slots| == |s.slots|
      && t.slots[ctx.selected] == Some(ItemStack(StaffId(e), 1))
      && (forall k :: 0 <= k < |s.slots| && k != ctx.selected ==> t.slots[k] == s.slots[k])
      && t.actionBar == s.actionBar
      && t.calls == s.calls + [SetItem(ctx.selected, StaffStack(e))]
  {
    if !ctx.hasInventory then s
    else s.(slots := s.slots[ctx.selected := Some(StaffStack(e))],
            calls := s.calls + [SetItem(ctx.selected, StaffStack(e))])
  }

  /** `setActionBar` on the value state. */
  function WithText(s: State, text: string): State
  {
    s.(actionBar := Some(text), calls := s.calls + [SetActionBar(text)])
  }

  /** Running an ability's effect routine on the value state. */
  function WithRun(s: State, a: Ability): State
  {
    s.(calls := s.calls + [Run(a)])
  }

  /**
   * Whether the effect routine of `a` returns normally. The routine throws
   * when it starts with `pushBurst` and the engine rejects a knockback;
   * the engine's neighbour query and command calls, which other routines
   * also make outside any `try`, are taken never to throw.
   */
  predicate Completes(ctx: Context, a: Ability)
  {
    !(Pushes(a) && ctx.knockbackRejected)
  }

  /**
   * `castAbility` after its choice: the run, then the report on the
   * action bar, which a throwing routine skips.
   */
  function WithCast(s: State, ctx: Context, b: Element, a: Ability): State
  {
    var s1 := WithRun(s, a);
    if Completes(ctx, a) then WithText(s1, CastText(b, a)) else s1
  }

  /** The state after an outcome has been carried out. */
  function Apply(s: State, ctx: Context, o: Outcome): (t: State)
    requires Fits(s, ctx)
    ensures |t.slots| == |s.slots|
    ensures forall k :: 0 <= k < |s.slots| && k != ctx.selected ==> t.slots[k] == s.slots[k]
    ensures |s.calls| <= |t.calls| && t.calls[..|s.calls|] == s.calls
    ensures |t.calls| == |s.calls| <==> o.Ignored?
  {
    match o
    case Ignored => s
    case Switched(next) => WithText(WithStaff(s, ctx, next), SwitchText(next))
    case Hinted => WithText(s, HintText)
    case Cast(b, realigned, a) =>
      var s1 := if realigned then WithStaff(s, ctx, b) else s;
      WithCast(s1, ctx, b, a)
  }

  /** Reference definition of one item-use event. */
  function Step(s: State, ctx: Context, used: Option<ItemStack>, r: nat): (t: State)
    requires Fits(s, ctx) && r < 3
    ensures t == s <==> Decide(ctx, used, r).Ignored?
  {
    Apply(s, ctx, Decide(ctx, used, r))
  }

  /** A use of anything but a recognised staff, or by an invalid player, changes nothing. */
  lemma UnrecognisedUseIgnored(s: State, ctx: Context, used: Option<ItemStack>, r: nat)
    requires Fits(s, ctx) && r < 3
    requires !ctx.isValid || used.None? || forall e: Element :: used.value.typeId != StaffId(e)
    ensures Step(s, ctx, used, r) == s
  {
  }

  /**
   * Sneaking without a scroll: the selected slot becomes the next
   * element's staff with quantity one, the action bar names that
   * element, and no ability runs.
   */
  lemma SneakSwitchesElement(s: State, ctx: Context, e: Element, used: Option<ItemStack>, r: nat)
    requires Fits(s, ctx) && r < 3
    requires ctx.isValid && used.Some? && used.value.typeId == StaffId(e)
    requires ctx.sneaking && OffhandElement(ctx).None?
    ensures var t := Step(s, ctx, used, r);
      && t.slots == (if ctx.hasInventory then s.slots[ctx.selected := Some(ItemStack(StaffId(Next(e)), 1))] else s.slots)
      && t.actionBar == Some(SwitchText(Next(e)))
      && t.calls == s.calls
           + (if ctx.hasInventory then [SetItem(ctx.selected, StaffStack(Next(e)))] else [])
           + [SetActionBar(SwitchText(Next(e)))]
      && forall k :: |s.calls| <= k < |t.calls| ==> !t.calls[k].Run?
  {
    ElementFromStaffId(e);
    assert Decide(ctx, used, r) == Switched(Next(e));
    SwitchEffect(s, ctx, Next(e));
  }

  /** Carrying out a switch outcome, whatever decided it. */
  lemma SwitchEffect(s: State, ctx: Context, n: Element)
    requires Fits(s, ctx)
    ensures var t := Apply(s, ctx, Switched(n));
      && t.slots == (if ctx.hasInventory then s.slots[ctx.selected := Some(StaffStack(n))] else s.slots)
      && t.actionBar == Some(SwitchText(n))
      && t.calls == s.calls
           + (if ctx.hasInventory then [SetItem(ctx.selected, StaffStack(n))] else [])
           + [SetActionBar(SwitchText(n))]
      && forall k :: |s.calls| <= k < |t.calls| ==> !t.calls[k].Run?
  {
  }

  /** From a hail staff the switch wraps around to water. */
  lemma SneakSwitchFromHail(s: State, ctx: Context, used: Option<ItemStack>, r: nat)
    requires Fits(s, ctx) && r < 3 && ctx.hasInventory
    requires ctx.isValid && used.Some? && used.value.typeId == StaffId(Hail)
    requires ctx.sneaking && OffhandElement(ctx).None?
    ensures Step(s, ctx, used, r).slots[ctx.selected] == Some(ItemStack(StaffId(Water), 1))
  {
    SneakSwitchesElement(s, ctx, Hail, used, r);
    HailToWater();
  }

  /** Standing without a scroll: only the hint is shown; the inventory is untouched and no ability runs. */
  lemma StandingShowsHint(s: State, ctx: Context, e: Element, used: Option<ItemStack>, r: nat)
    requires Fits(s, ctx) && r < 3
    requires ctx.isValid && used.Some? && used.value.typeId == StaffId(e)
    requires !ctx.sneaking && OffhandElement(ctx).None?
    ensures Step(s, ctx, used, r) == State(s.slots, Some(HintText), s.calls + [SetActionBar(HintText)])
  {
    ElementFromStaffId(e);
  }

  /**
   * With a scroll of element `b`: when `b` differs from the staff's
   * element the selected slot is rewritten to the staff of `b` before
   * the ability runs; the ability is always one of `b`'s, taken from the
   * subset the sneak flag designates, and the action bar reports it
   * unless the routine threw.
   */
  lemma ScrollCastsItsElement(s: State, ctx: Context, e: Element, b: Element, used: Option<ItemStack>, r: nat)
    requires Fits(s, ctx) && r < 3
    requires ctx.isValid && used.Some? && used.value.typeId == StaffId(e)
    requires OffhandElement(ctx) == Some(b)
    ensures var t := Step(s, ctx, used, r);
      var a := Choose(b, ctx.sneaking, r);
      var realign := b != e && ctx.hasInventory;
      && a in Subset(b, ctx.sneaking)
      && t.slots == (if realign then s.slots[ctx.selected := Some(StaffStack(b))] else s.slots)
      && t.actionBar == (if Completes(ctx, a) then Some(CastText(b, a)) else s.actionBar)
      && t.calls == s.calls
           + (if realign then [SetItem(ctx.selected, StaffStack(b))] else [])
           + [Run(a)]
           + (if Completes(ctx, a) then [SetActionBar(CastText(b, a))] else [])
  {
    ElementFromStaffId(e);
    var a := Choose(b, ctx.sneaking, r);
    assert a == Subset(b, ctx.sneaking)[r];
    assert Decide(ctx, used, r) == Cast(b, b != e, a);
    CastEffect(s, ctx, b, b != e, a);
  }

  /**
   * Carrying out a cast outcome, whatever decided it. A routine that
   * throws leaves its slot write and its run in place but never reaches
   * the action bar.
   */
  lemma CastEffect(s: State, ctx: Context, b: Element, realigned: bool, a: Ability)
    requires Fits(s, ctx)
    ensures var t := Apply(s, ctx, Cast(b, realigned, a));
      var realign := realigned && ctx.hasInventory;
      && t.slots == (if realign then s.slots[ctx.selected := Some(StaffStack(b))] else s.slots)
      && t.actionBar == (if Completes(ctx, a) then Some(CastText(b, a)) else s.actionBar)
      && t.calls == s.calls
           + (if realign then [SetItem(ctx.selected, StaffStack(b))] else [])
           + [Run(a)]
           + (if Completes(ctx, a) then [SetActionBar(CastText(b, a))] else [])
  {
    var s1 := if realigned then WithStaff(s, ctx, b) else s;
    assert s1.calls == s.calls + (if realigned && ctx.hasInventory then [SetItem(ctx.selected, StaffStack(b))] else []);
  }

  /** The engine-side player, whose inventory and action bar the handler updates in place. */
  class Player {
    const isValid: bool
    const isSneaking: bool
    const offhand: Option<ItemStack>
    const hasInventory: bool
    const selectedSlot: nat
    const knockbackRejected: bool
    var slots: seq<Option<ItemStack>>
    var actionBar: Option<string>
    var calls: seq<Call>

    ghost predicate Valid()
      reads this
    {
      Fits(Snapshot(), Ctx())
    }

    /** The part of the player the handler only reads. */
    function Ctx(): Context
    {
      Context(isValid, isSneaking, offhand, hasInventory, selectedSlot, knockbackRejected)
    }

    function Snapshot(): State
      reads this
    {
      State(slots, actionBar, calls)
    }

    constructor (isValid: bool, isSneaking: bool, offhand: Option<ItemStack>,
                 hasInventory: bool, selectedSlot: nat, knockbackRejected: bool, slots: seq<Option<ItemStack>>)
      requires hasInventory ==> selectedSlot < |slots|
      ensures Valid()
      ensures Ctx() == Context(isValid, isSneaking, offhand, hasInventory, selectedSlot, knockbackRejected)
      ensures Snapshot() == State(slots, None, [])
    {
      this.isValid := isValid;
      this.isSneaking := isSneaking;
      this.offhand := offhand;
      this.hasInventory := hasInventory;
      this.selectedSlot := selectedSlot;
      this.knockbackRejected := knockbackRejected;
      this.slots := slots;
      this.actionBar := None;
      this.calls := [];
    }

    /** Replaces the stack in the selected slot with a fresh staff of `e`; nothing without an inventory. */
    method SetMainhandToElement(e: Element)
      requires Valid()
      modifies this
      ensures Valid()
      ensures Snapshot() == WithStaff(old(Snapshot()), Ctx(), e)
    {
      if !hasInventory {
        return;
      }
      var slot := selectedSlot;
      slots := slots[slot := Some(StaffStack(e))];
      calls := calls + [SetItem(slot, StaffStack(e))];
    }

    method SetActionBarText(text: string)
      requires Valid()
      modifies this
      ensures Valid()
      ensures Snapshot() == WithText(old(Snapshot()), text)
    {
      actionBar := Some(text);
      calls := calls + [SetActionBar(text)];
    }

    /**
     * Runs an ability's effect routine with this player as the caster;
     * `completed` is false when the routine threw.
     */
    method RunAbility(a: Ability) returns (completed: bool)
      requires Valid()
      modifies this
      ensures Valid()
      ensures Snapshot() == WithRun(old(Snapshot()), a)
      ensures completed <==> !(Pushes(a) && knockbackRejected)
    {
      calls := calls + [Run(a)];
      completed := !(Pushes(a) && knockbackRejected);
    }

    /**
     * `castAbility`: runs the ability `r` picks from the subset `sneaking`
     * designates, then reports it; a routine that throws ends the call
     * before the report.
     */
    method CastAbility(e: Element, sneaking: bool, r: nat)
      requires Valid() && r < 3
      modifies this
      ensures Valid()
      ensures Snapshot() == WithCast(old(Snapshot()), Ctx(), e, Choose(e, sneaking, r))
    {
      var pool := Pool(e);
      var subset := if sneaking then pool[3..6] else pool[0..3];
      var chosen := subset[r];
      var completed := RunAbility(chosen);
      if !completed {
        return;
      }
      SetActionBarText(CastText(e, chosen));
    }
  }

  /** The `itemUse` handler; `r` stands for the random draw of the cast. */
  method OnItemUse(player: Player, used: Option<ItemStack>, r: nat)
    requires player.Valid() && r < 3
    modifies player
    ensures player.Valid()
    ensures player.Snapshot() == Step(old(player.Snapshot()), player.Ctx(), used, r)
  {
    ghost var s := player.Snapshot();
    ghost var ctx := player.Ctx();
    if !player.isValid {
      return;
    }
    if used.None? {
      return;
    }
    var element := ElementFromStaff(used.value.typeId);
    if element.None? {
      return;
    }
    var offhandId := if player.offhand.Some? then Some(player.offhand.value.typeId) else None;
    var offhandElement := ScrollElement(offhandId);
    assert offhandElement == OffhandElement(ctx);
    if player.isSneaking && offhandElement.None? {
      var idx := IndexOf(StaffOrder, element.value);
      NextSearchesOrder(element.value);
      var next := StaffOrder[(idx + 1) % |StaffOrder|];
      assert Decide(ctx, used, r) == Switched(next);
      assert Step(s, ctx, used, r) == WithText(WithStaff(s, ctx, next), SwitchText(next));
      player.SetMainhandToElement(next);
      player.SetActionBarText(SwitchText(next));
      return;
    }
    if offhandElement.None? {
      assert Decide(ctx, used, r) == Hinted;
      assert Step(s, ctx, used, r) == WithText(s, HintText);
      player.SetActionBarText(HintText);
      return;
    }
    var b := offhandElement.value;
    assert Decide(ctx, used, r) == Cast(b, b != element.value, Choose(b, ctx.sneaking, r));
    ghost var s1 := if b != element.value then WithStaff(s, ctx, b) else s;
    ghost var a := Choose(b, ctx.sneaking, r);
    assert Step(s, ctx, used, r) == WithCast(s1, ctx, b, a);
    if b != element.value {
      player.SetMainhandToElement(b);
    }
    assert player.Snapshot() == s1;
    player.CastAbility(b, player.isSneaking, r);
  }
}
