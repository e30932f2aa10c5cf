/** A creature's conditions, and what the speed conditions among them add to its speed. */
module Speed {
  datatype ConditionType = Haste | Paralyze | Other(code: int)

  datatype Key = Key(kind: ConditionType, id: int, subId: int)

  class Condition {
    const key: Key
    var ticks: int
    var endTime: int
    var speedDelta: int  // of a haste or paralysis; zero until it is drawn

    constructor (key: Key, ticks: int, speedDelta: int)
      ensures this.key == key && this.ticks == ticks && this.speedDelta == speedDelta
    {
      this.key := key;
      this.ticks := ticks;
      this.speedDelta := speedDelta;
    }

    predicate Speedy() {
      !key.kind.Other?
    }

    method SetTicks(newTicks: int, now: int)
      modifies this`ticks, this`endTime
      ensures ticks == newTicks && endTime == now + newTicks
    {
      ticks := newTicks;
      endTime := ticks + now;
    }

    /** The condition is still on: it is endless, or its end has not passed. */
    method Execute(interval: int, now: int) returns (alive: bool)
      modifies this`ticks
      ensures alive <==> old(ticks) == -1 || endTime >= now
      ensures ticks == -1 <==> old(ticks) == -1
    {
      if ticks == -1 {
        return true;
      }
      ticks := if ticks - interval < 0 then 0 else ticks - interval;
      alive := endTime >= now;
    }
  }

  /** What the speed conditions of a list add up to. */
  ghost function Total(list: seq<Condition>): int
    reads list`speedDelta
  {
    if list == [] then 0 else (if list[0].Speedy() then list[0].speedDelta else 0) + Total(list[1..])
  }

  lemma {:induction false} TotalConcat(a: seq<Condition>, b: seq<Condition>)
    ensures Total(a + b) == Total(a) + Total(b)
  {
    if a == [] {
      assert a + b == b;
    } else {
      TotalConcat(a[1..], b);
      assert (a + b)[1..] == a[1..] + b;
    }
  }

  lemma TotalSplit(list: seq<Condition>, k: nat)
    requires k < |list|
    ensures Total(list) == Total(list[..k]) + (if list[k].Speedy() then list[k].speedDelta else 0) + Total(list[k + 1..])
  {
    assert list == list[..k] + ([list[k]] + list[k + 1..]);
    TotalConcat(list[..k], [list[k]] + list[k + 1..]);
    TotalConcat([list[k]], list[k + 1..]);
  }

  lemma {:induction false} NoneSpeedy(list: seq<Condition>)
    requires forall k :: 0 <= k < |list| ==> !list[k].Speedy()
    ensures Total(list) == 0
  {
    if list != [] {
      NoneSpeedy(list[1..]);
    }
  }

  /** Which conditions a removal is for: those of a type, or of a type and id. */
  datatype Removal = OfType(kind: ConditionType) | OfId(kind: ConditionType, id: int) {
    predicate Hits(key: Key) {
      key.kind == kind && (OfId? ==> key.id == id)
    }
  }

  /** What is left of a list, in order, without the conditions in `gone`. */
  ghost function Kept(list: seq<Condition>, gone: set<Condition>): (kept: seq<Condition>)
    ensures forall c :: c in kept ==> c in list && c !in gone
    ensures forall c :: c in list && c !in gone ==> c in kept
  {
    if list == [] then [] else (if list[0] in gone then [] else [list[0]]) + Kept(list[1..], gone)
  }

  /** A list seen to up to `k`. */
  ghost function Partly(list: seq<Condition>, k: nat, gone: set<Condition>): seq<Condition>
    requires k <= |list|
  {
    list[..k] + Kept(list[k..], gone)
  }

  lemma KeepStep(list: seq<Condition>, k: nat, gone: set<Condition>)
    requires k < |list| && list[k] !in gone
    ensures Partly(list, k + 1, gone) == Partly(list, k, gone)
  {
    assert list[..k + 1] == list[..k] + [list[k]];
  }

  function Without<T>(list: seq<T>, k: nat): seq<T>
    requires k < |list|
  {
    list[..k] + list[k + 1..]
  }

  lemma Cut<T>(list: seq<T>, k: nat)
    requires k < |list|
    ensures Without(list, k)[..k] == list[..k] && Without(list, k)[k..] == list[k + 1..] == list[k..][1..]
  {}

  lemma DropStep(list: seq<Condition>, k: nat, gone: set<Condition>)
    requires k < |list| && list[k] in gone
    ensures Partly(Without(list, k), k, gone) == Partly(list, k, gone)
  {
    Cut(list, k);
  }

  lemma Ends(list: seq<Condition>, gone: set<Condition>)
    ensures Partly(list, 0, gone) == Kept(list, gone) && Partly(list, |list|, gone) == list
  {
    assert list[0..] == list && list[..|list|] == list;
  }

  lemma HitsAre(list: seq<Condition>, kind: ConditionType, id: int)
    ensures (set c | c in list && OfType(kind).Hits(c.key)) == set c | c in list && c.key.kind == kind
    ensures (set c | c in list && OfId(kind, id).Hits(c.key)) == set c | c in list && c.key.kind == kind && c.key.id == id
  {}

  class Creature {
    var baseSpeed: int
    var varSpeed: int
    var conditions: seq<Condition>
    ghost var other: int  // what other sources, such as mounts, have added

    ghost predicate Unique()
      reads this`conditions
    {
      forall j, k :: 0 <= j < k < |conditions| ==> conditions[j].key != conditions[k].key
    }

    /** At most one condition of each key, and the speed they add is accounted for. */
    ghost predicate Valid()
      reads this`conditions, this`varSpeed, this`other, conditions`speedDelta
    {
      Unique() && varSpeed == other + Total(conditions)
    }

    function GetSpeed(): int
      reads this
    {
      baseSpeed + varSpeed
    }

    method ChangeSpeed(delta: int)
      modifies this`varSpeed
      ensures varSpeed == old(varSpeed) + delta
    {
      var speed := GetSpeed() - baseSpeed;
      speed := speed + delta;
      varSpeed := speed;
    }

    ghost predicate Has(key: Key)
      reads this`conditions
    {
      exists k :: 0 <= k < |conditions| && conditions[k].key == key
    }

    method GetCondition(key: Key) returns (found: Condition?)
      ensures found == null <==> !Has(key)
      ensures found != null ==> found in conditions && found.key == key
    {
      for k := 0 to |conditions|
        invariant forall j :: 0 <= j < k ==> conditions[j].key != key
      {
        if conditions[k].key == key {
          return conditions[k];
        }
      }
      found := null;
    }

    /** An endless condition is not cut short. */
    predicate Stays(previous: Condition, condition: Condition)
      reads previous`ticks, condition`ticks
    {
      previous.ticks == -1 && condition.ticks > 0
    }

    /**
     A new condition takes the place of one with its key, unless that one is endless and the
     new one is not. A haste or paralysis then lasts as long as the new one, and the speed
     changes by the difference; any other condition is prolonged, but never cut short.
     */
    method Refresh(previous: Condition, condition: Condition, drawn: int, now: int)
      requires Valid() && previous in conditions && previous.key == condition.key && condition !in conditions
      modifies this`varSpeed, previous
      ensures Valid()
      ensures old(Stays(previous, condition)) ==> unchanged(previous) && varSpeed == old(varSpeed)
      ensures previous.Speedy() && !old(Stays(previous, condition)) ==>
                && previous.ticks == condition.ticks && previous.endTime == now + condition.ticks
                && previous.speedDelta == (if condition.speedDelta == 0 then drawn else condition.speedDelta)
                && varSpeed == old(varSpeed) + previous.speedDelta - old(previous.speedDelta)
      ensures !previous.Speedy() ==> varSpeed == old(varSpeed) && previous.speedDelta == old(previous.speedDelta)
      ensures !previous.Speedy() && !old(Stays(previous, condition)) && condition.ticks >= 0 ==>
                && previous.endTime == if old(previous.endTime) > now + condition.ticks then old(previous.endTime)
                                       else now + condition.ticks
    {
      if previous.ticks == -1 && condition.ticks > 0 {
        return;
      }
      if !previous.Speedy() {
        if condition.ticks < 0 || previous.endTime <= now + condition.ticks {
          previous.SetTicks(condition.ticks, now);
        }
        return;
      }
      previous.SetTicks(condition.ticks, now);
      SetDelta(previous, if condition.speedDelta == 0 then drawn else condition.speedDelta);
    }

    method SetDelta(condition: Condition, delta: int)
      requires Valid() && condition in conditions && condition.Speedy()
      modifies this`varSpeed, condition`speedDelta
      ensures Valid() && condition.speedDelta == delta && varSpeed == old(varSpeed) + delta - old(condition.speedDelta)
    {
      ghost var k :| 0 <= k < |conditions| && conditions[k] == condition;
      ghost var before, after := conditions[..k], conditions[k + 1..];
      assert condition !in before && condition !in after;
      TotalSplit(conditions, k);
      var newSpeedChange := delta - condition.speedDelta;
      condition.speedDelta := delta;
      TotalSplit(conditions, k);
      if newSpeedChange != 0 {
        ChangeSpeed(newSpeedChange);
      }
    }

    /** A condition that has begun now: it ends after its ticks, and its effect on the speed is its own or the one drawn. */
    ghost predicate Begun(condition: Condition, ticks: int, endTime: int, delta: int, drawn: int, now: int)
      reads condition
    {
      && condition.ticks == ticks && condition.endTime == (if ticks > 0 then now + ticks else endTime)
      && condition.speedDelta == if condition.Speedy() && delta == 0 then drawn else delta
    }

    /** Adds a condition; `postponed` when a haste has to wait for a paralysis, `starts` as its start decides. */
    method AddCondition(condition: Condition, force: bool, postponed: bool, starts: bool, drawn: int, now: int)
      returns (added: bool)
      requires Valid() && condition !in conditions
      modifies this`varSpeed, this`conditions, condition, conditions
      ensures Valid()
      ensures !force && condition.key.kind == Haste && postponed ==> !added && conditions == old(conditions)
      ensures !added || old(Has(condition.key)) ==> conditions == old(conditions)
      ensures added && !old(Has(condition.key)) ==>
                conditions == old(conditions) + [condition] && Begun(condition, old(condition.ticks), old(condition.endTime),
                                                                     old(condition.speedDelta), drawn, now)
                && varSpeed == old(varSpeed) + if condition.Speedy() then condition.speedDelta else 0
      ensures (force || condition.key.kind != Haste || !postponed) && (old(Has(condition.key)) || condition.Speedy() || starts) ==>
                added
      ensures !added ==> unchanged(this)
    {
      if !force && condition.key.kind == Haste && postponed {
        return false;
      }
      var previous := GetCondition(condition.key);
      if previous != null {
        Refresh(previous, condition, drawn, now);
        return true;
      }
      if !condition.Speedy() && !starts {
        return false;
      }
      Start(condition, drawn, now);
      added := true;
    }

    /** The condition begins, with its effect on the speed if it has one. */
    method Start(condition: Condition, drawn: int, now: int)
      requires Valid() && condition !in conditions && !Has(condition.key)
      modifies this`varSpeed, this`conditions, condition
      ensures Valid() && conditions == old(conditions) + [condition]
      ensures Begun(condition, old(condition.ticks), old(condition.endTime), old(condition.speedDelta), drawn, now)
      ensures varSpeed == old(varSpeed) + if condition.Speedy() then condition.speedDelta else 0
    {
      Draw(condition, drawn, now);
      assert Valid();
      TotalConcat(conditions, [condition]);
      if condition.Speedy() {
        ChangeSpeed(condition.speedDelta);
      }
      conditions := conditions + [condition];
    }

    method Draw(condition: Condition, drawn: int, now: int)
      modifies condition
      ensures Begun(condition, old(condition.ticks), old(condition.endTime), old(condition.speedDelta), drawn, now)
    {
      if condition.ticks > 0 {
        condition.endTime := condition.ticks + now;
      }
      if condition.Speedy() && condition.speedDelta == 0 {
        condition.speedDelta := drawn;
      }
    }

    /** Takes a condition off the list and undoes what it did to the speed. */
    method Drop(k: nat)
      requires Valid() && k < |conditions|
      modifies this`varSpeed, this`conditions
      ensures Valid() && conditions == Without(old(conditions), k)
    {
      var condition := conditions[k];
      TotalSplit(conditions, k);
      TotalConcat(conditions[..k], conditions[k + 1..]);
      conditions := Without(conditions, k);
      if condition.Speedy() {
        ChangeSpeed(-condition.speedDelta);
      }
    }

    /** Removes the conditions it is for, unless a paralysis has to stay for now. */
    method RemoveCondition(removal: Removal, force: bool, postponed: bool)
      requires Valid()
      modifies this`varSpeed, this`conditions
      ensures Valid()
      ensures conditions == if !force && removal.kind == Paralyze && postponed then old(conditions)
                            else Kept(old(conditions), set c | c in old(conditions) && removal.Hits(c.key))
    {
      ghost var list := conditions;
      ghost var gone := set c | c in list && removal.Hits(c.key);
      var k: nat := 0;
      Ends(list, gone);
      while k < |conditions|
        invariant Valid() && k <= |conditions| && forall c :: c in conditions ==> c in list
        invariant Partly(conditions, k, gone) == Kept(list, gone)
        invariant !force && removal.kind == Paralyze && postponed ==> conditions == list
        decreases |conditions| - k
      {
        if removal.Hits(conditions[k].key) && !force && removal.kind == Paralyze && postponed {
          return;
        }
        k := KeepOrDrop(k, removal, list, gone);
      }
      Ends(conditions, gone);
    }

    /** Takes the condition at `k` off the list if the removal is for it, or passes on. */
    method KeepOrDrop(k: nat, removal: Removal, ghost list: seq<Condition>, ghost gone: set<Condition>) returns (next: nat)
      requires Valid() && k < |conditions| && (forall c :: c in conditions ==> c in list)
      requires forall c :: c in list ==> (c in gone <==> removal.Hits(c.key))
      modifies this`varSpeed, this`conditions
      ensures Valid() && next <= |conditions| && |conditions| - next == old(|conditions|) - k - 1
      ensures forall c :: c in conditions ==> c in list
      ensures Partly(conditions, next, gone) == old(Partly(conditions, k, gone))
      ensures !removal.Hits(old(conditions)[k].key) ==> conditions == old(conditions)
    {
      assert conditions[k] in list;
      if removal.Hits(conditions[k].key) {
        DropStep(conditions, k, gone);
        Drop(k);
        next := k;
      } else {
        KeepStep(conditions, k, gone);
        next := k + 1;
      }
    }

    method RemoveByType(kind: ConditionType, force: bool, postponed: bool)
      requires Valid()
      modifies this`varSpeed, this`conditions
      ensures Valid()
      ensures conditions == if !force && kind == Paralyze && postponed then old(conditions)
                            else Kept(old(conditions), set c | c in old(conditions) && c.key.kind == kind)
    {
      RemoveCondition(OfType(kind), force, postponed);
      HitsAre(old(conditions), kind, 0);
    }

    method RemoveById(kind: ConditionType, id: int, force: bool, postponed: bool)
      requires Valid()
      modifies this`varSpeed, this`conditions
      ensures Valid()
      ensures conditions == if !force && kind == Paralyze && postponed then old(conditions)
                            else Kept(old(conditions), set c | c in old(conditions) && c.key.kind == kind && c.key.id == id)
    {
      RemoveCondition(OfId(kind, id), force, postponed);
      HitsAre(old(conditions), kind, id);
    }

    /** Removes one condition, unless it is a paralysis that has to stay for now. */
    method RemoveOne(condition: Condition, force: bool, postponed: bool)
      requires Valid()
      modifies this`varSpeed, this`conditions
      ensures Valid()
      ensures condition in conditions ==> !force && condition.key.kind == Paralyze && postponed && conditions == old(conditions)
      ensures forall c :: c in old(conditions) && c != condition ==> c in conditions
      ensures forall c :: c in conditions ==> c in old(conditions)
    {
      var k := 0;
      while k < |conditions| && conditions[k] != condition
        invariant k <= |conditions| && condition !in conditions[..k]
      {
        k := k + 1;
      }
      if k == |conditions| {
        return;
      }
      if !force && condition.key.kind == Paralyze && postponed {
        return;
      }
      Drop(k);
    }

    ghost function Ended(list: seq<Condition>, now: int): set<Condition>
      reads list`ticks, list`endTime
    {
      set c | c in list && c.ticks != -1 && c.endTime < now
    }

    /** One think: every condition runs, and those that have ended go, in one pass. */
    method ExecuteConditions(interval: int, now: int)
      requires Valid()
      modifies this`varSpeed, this`conditions, conditions`ticks
      ensures Valid()
      ensures conditions == Kept(old(conditions), old(Ended(conditions, now)))
      ensures forall c :: c in old(conditions) ==> (c.ticks == -1 <==> old(c.ticks) == -1)
    {
      ghost var list := conditions;
      ghost var gone := Ended(list, now);
      var k: nat := 0;
      Ends(list, gone);
      while k < |conditions|
        invariant Valid() && k <= |conditions| && forall c :: c in conditions ==> c in list
        invariant Partly(conditions, k, gone) == Kept(list, gone)
        invariant Ended(list, now) == gone && forall c :: c in list ==> (c.ticks == -1 <==> old(c.ticks) == -1)
        decreases |conditions| - k
      {
        k := Step(conditions[k], k, interval, now, list);
      }
      Ends(conditions, gone);
    }

    /** Runs the condition at `k`, which leaves the list when it has ended. */
    method Step(condition: Condition, k: nat, interval: int, now: int, ghost list: seq<Condition>) returns (next: nat)
      requires Valid() && k < |conditions| && condition == conditions[k] && condition in list
      modifies this`varSpeed, this`conditions, condition`ticks
      ensures Valid() && next <= |conditions| && |conditions| - next == old(|conditions|) - k - 1
      ensures condition.ticks == -1 <==> old(condition.ticks) == -1
      ensures forall c :: c in conditions ==> c in old(conditions)
      ensures Ended(list, now) == old(Ended(list, now))
      ensures Partly(conditions, next, Ended(list, now)) == old(Partly(conditions, k, Ended(list, now)))
    {
      ghost var gone := Ended(list, now);
      var alive := condition.Execute(interval, now);
      assert Ended(list, now) == gone;
      if alive {
        KeepStep(conditions, k, gone);
        next := k + 1;
      } else {
        DropStep(conditions, k, gone);
        Drop(k);
        next := k;
      }
    }

    /**
     From its start to its end: a haste or paralysis that is added now for some ticks is still
     on after thinks at the given times exactly if none of them came after its ticks were over.
     */
    method LastsItsTicks(condition: Condition, drawn: int, now: int, times: seq<int>)
      requires Valid() && condition !in conditions && !Has(condition.key) && condition.Speedy() && condition.ticks > 0
      modifies this`varSpeed, this`conditions, condition, conditions
      ensures Valid()
      ensures condition in conditions <==> forall k :: 0 <= k < |times| ==> times[k] <= now + old(condition.ticks)
    {
      var _ := AddCondition(condition, true, false, true, drawn, now);
      ThinkAt(condition, times, set c | c in conditions);
    }

    /** After thinks at the given times a condition that ends is still on exactly if its end had not passed at any. */
    method ThinkAt(condition: Condition, times: seq<int>, ghost world: set<Condition>)
      requires Valid() && condition in conditions && condition.ticks != -1 && forall c :: c in conditions ==> c in world
      modifies this`varSpeed, this`conditions, world`ticks
      ensures Valid() && (condition in conditions <==> forall k :: 0 <= k < |times| ==> times[k] <= condition.endTime)
    {
      for k := 0 to |times|
        invariant Valid() && forall c :: c in conditions ==> c in world
        invariant condition in conditions ==> condition.ticks != -1
        invariant condition in conditions <==> forall j :: 0 <= j < k ==> times[j] <= condition.endTime
      {
        ThinkOnce(condition, times[k], world);
      }
    }

    method ThinkOnce(condition: Condition, now: int, ghost world: set<Condition>)
      requires Valid() && forall c :: c in conditions ==> c in world
      modifies this`varSpeed, this`conditions, world`ticks
      ensures Valid() && forall c :: c in conditions ==> c in world
      ensures condition in conditions <==> old(condition in conditions && (condition.ticks == -1 || condition.endTime >= now))
      ensures condition in conditions ==> (condition.ticks == -1 <==> old(condition.ticks) == -1)
    {
      assert forall j :: 0 <= j < |conditions| ==> conditions[j] in conditions;
      ExecuteConditions(1000, now);
    }

    /** When no haste or paralysis is left, the speed is back to what everything else makes it. */
    lemma SpeedRestored()
      requires Valid() && forall c :: c in conditions ==> !c.Speedy()
      ensures varSpeed == other
    {
      NoneSpeedy(conditions);
    }
  }
}
