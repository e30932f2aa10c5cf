/** Damage-over-time conditions: how an amount is split into a list, and how the list is dealt out. */
module Damage {
  import opened Common

  /**
   Another `i` is taken when it brings the sum nearer to `med`. On a tie the
   rounding of the source's division decides, which `tie` stands for.
   */
  predicate Nearer(sum: int, i: int, med: int, tie: (int, int) -> bool) {
    Abs(med - sum - i) < Abs(med - sum) || (Abs(med - sum - i) == Abs(med - sum) && tie(sum, i))
  }

  lemma NearerIff(sum: int, i: int, med: int, tie: (int, int) -> bool)
    requires i > 0
    ensures 2 * sum + i < 2 * med ==> Nearer(sum, i, med, tie)
    ensures 2 * sum + i > 2 * med ==> !Nearer(sum, i, med, tie)
  {}

  /** The list never goes up, holds every value from `start` down to `low`, and nothing else. */
  ghost predicate Staircase(list: seq<int>, start: int, low: int) {
    && (forall j, k :: 0 <= j < k < |list| ==> list[j] >= list[k])
    && (forall v :: v in list <==> low <= v <= start)
  }

  /** The sum taken so far, seen from stage `i`: enough, and not too much when the amount allows it. */
  ghost predicate InStep(sum: int, i: int, start: int, amount: int) {
    && 2 * sum >= (start + 1 - i) * (start + i)
    && (2 * amount >= start * (start + 1) ==> 2 * sum + i * (i - 1) <= 2 * amount)
  }

  /** The first value of a stage always fits. */
  lemma FirstFits(sum: int, i: int, start: int, amount: int)
    requires InStep(sum, i + 1, start, amount)
    ensures InStep(sum + i, i, start, amount)
  {
    assert (start + 1 - (i + 1)) * (start + (i + 1)) + 2 * i == (start + 1 - i) * (start + i);
    assert (i + 1) * i == i * (i - 1) + 2 * i;
  }

  /** So does every further one that is taken. */
  lemma NextFits(sum: int, i: int, start: int, amount: nat, tie: (int, int) -> bool)
    requires 1 <= i <= start && InStep(sum, i, start, amount)
    requires Nearer(sum, i, (start + 1 - i) * amount / start, tie)
    ensures InStep(sum + i, i, start, amount)
  {
    var n := start + 1 - i;
    var med := n * amount / start;
    NearerIff(sum, i, med, tie);
    assert start * med <= n * amount;
    if i == 1 {
      assert n * amount / start == amount by {
        Whole(start, amount);
      }
    } else {
      Room(i, start, amount, med);
      assert i * (i - 1) == i * i - i;
    }
  }

  lemma Whole(start: int, amount: nat)
    requires start >= 1
    ensures start * amount / start == amount
  {
    var q := start * amount / start;
    assert start * q <= start * amount < start * q + start;
    Cancel(start, amount, q);
    assert start * (q + 1) == start * q + start;
    Cancel(start, q, amount);
    Cancel(start, q + 1, amount);
  }

  lemma Cancel(n: int, a: int, b: int)
    requires n > 0
    ensures n * a >= n * b ==> a >= b
    ensures n * a > n * b ==> a > b
  {
    if a < b {
      assert n * (b - a) > 0;
      assert n * (b - a) == n * b - n * a;
    }
  }

  lemma Times(n: int, a: int, b: int)
    requires n >= 0 && a >= b
    ensures n * a >= n * b
  {
    assert n * (a - b) >= 0;
  }

  /** Where a further value is taken, what is left above `med` holds all the stages below. */
  lemma Room(i: int, start: int, amount: nat, med: int)
    requires 2 <= i <= start && start * med <= (start + 1 - i) * amount
    requires 2 * med >= (start + 1 - i) * (start + i)
    ensures 2 * (amount - med) >= i * i
  {
    var n, wide := start + 1 - i, start + i;
    AmountIsLarge(n, start, wide, amount, med);
    MuchIsLeft(n, i, start, wide, amount, med);
    Stages(i, start);
  }

  lemma Stages(i: int, start: int)
    requires 2 <= i <= start
    ensures (i - 1) * (start + i) >= i * i
  {
    assert (i - 1) * (start + i) == (i - 1) * start - i + i * i;
    Times(start, i - 1, 1);
  }

  lemma AmountIsLarge(n: int, start: int, wide: int, amount: int, med: int)
    requires n > 0 && start > 0 && 2 * med >= n * wide && start * med <= n * amount
    ensures 2 * amount >= start * wide
  {
    Times(start, 2 * med, n * wide);
    assert start * (n * wide) == n * (start * wide);
    Cancel(n, 2 * amount, start * wide);
  }

  lemma MuchIsLeft(n: int, i: int, start: int, wide: int, amount: int, med: int)
    requires n == start + 1 - i && 1 <= i <= start && 2 * amount >= start * wide && start * med <= n * amount
    ensures 2 * (amount - med) >= (i - 1) * wide
  {
    Times(i - 1, 2 * amount, start * wide);
    assert start * amount - n * amount == (i - 1) * amount;
    assert (i - 1) * (start * wide) == start * ((i - 1) * wide);
    Cancel(start, 2 * (amount - med), (i - 1) * wide);
  }

  lemma StairDown(list: seq<int>, start: int, i: int)
    requires 1 <= i <= start && Staircase(list, start, i + 1)
    ensures Staircase(list + [i], start, i)
  {
    assert forall v :: v in list + [i] <==> v in list || v == i;
    assert forall k :: 0 <= k < |list| ==> list[k] in list;
  }

  lemma StairAgain(list: seq<int>, start: int, i: int)
    requires 1 <= i <= start && Staircase(list, start, i)
    ensures Staircase(list + [i], start, i)
  {
    assert forall v :: v in list + [i] <==> v in list || v == i;
    assert forall k :: 0 <= k < |list| ==> list[k] in list;
  }

  ghost function Steps(low: int, start: int): (steps: set<int>)
    requires low <= start + 1
    ensures |steps| == start + 1 - low && forall v :: v in steps <==> low <= v <= start
    decreases start - low
  {
    if low > start then {} else Steps(low + 1, start) + {low}
  }

  lemma {:induction false} Distinct(list: seq<int>)
    ensures |set v | v in list| <= |list|
  {
    if list != [] {
      Distinct(list[1..]);
      assert (set v | v in list) == (set v | v in list[1..]) + {list[0]};
    }
  }

  /** A staircase has a step for every value. */
  lemma StaircaseLong(list: seq<int>, start: int, low: int)
    requires low <= start + 1 && Staircase(list, start, low)
    ensures |list| >= start + 1 - low
  {
    assert Steps(low, start) == set v | v in list;
    Distinct(list);
  }

  function Negated(list: seq<int>): (values: seq<int>)
    ensures |values| == |list|
  {
    seq(|list|, k requires 0 <= k < |list| => -list[k])
  }

  lemma {:induction false} SumNegated(list: seq<int>)
    ensures Sum(Negated(list)) == -Sum(list) && Negated(Negated(list)) == list
  {
    if list != [] {
      SumNegated(list[1..]);
      assert Negated(list)[1..] == Negated(list[1..]);
    }
  }

  /** What the values from `v` up sum to. */
  function SumFrom(list: seq<int>, v: int): int {
    if list == [] then 0 else
      var last := list[|list| - 1];
      SumFrom(list[..|list| - 1], v) + if last >= v then last else 0
  }

  lemma SumFromMore(list: seq<int>, x: int, v: int)
    ensures SumFrom(list + [x], v) == SumFrom(list, v) + if x >= v then x else 0
  {
    assert (list + [x])[..|list|] == list;
  }

  lemma {:induction false} SumFromAll(list: seq<int>, v: int)
    requires forall k :: 0 <= k < |list| ==> list[k] >= v
    ensures SumFrom(list, v) == Sum(list)
  {
    if list != [] {
      var n := |list| - 1;
      SumFromAll(list[..n], v);
      SumConcat(list[..n], [list[n]]);
      assert list[..n] + [list[n]] == list;
    }
  }

  /**
   The values from `v` up have reached their even share of the amount, but for half of `v`,
   and are no more than that over it unless `v` was taken just once.
   */
  ghost predicate EvenAt(list: seq<int>, v: int, start: int, amount: int)
    requires start > 0
  {
    var share := (start + 1 - v) * amount / start;
    && 2 * SumFrom(list, v) + v >= 2 * share
    && (multiset(list)[v] > 1 ==> 2 * SumFrom(list, v) - v <= 2 * share)
  }

  /** The amount is spread evenly over the values from `start` to 1. */
  ghost predicate Even(list: seq<int>, start: int, amount: int)
    requires start > 0
  {
    forall v {:trigger EvenAt(list, v, start, amount)} :: 1 <= v <= start ==> EvenAt(list, v, start, amount)
  }

  /** Taking smaller values does not matter to larger ones. */
  ghost predicate Extends(list: seq<int>, list0: seq<int>, i: int) {
    forall v {:trigger SumFrom(list, v)} :: v > i ==>
      SumFrom(list, v) == SumFrom(list0, v) && multiset(list)[v] == multiset(list0)[v]
  }

  lemma ExtendsMore(list: seq<int>, list0: seq<int>, i: int)
    requires Extends(list, list0, i)
    ensures Extends(list + [i], list0, i)
  {
    forall v | v > i ensures SumFrom(list + [i], v) == SumFrom(list0, v) && multiset(list + [i])[v] == multiset(list0)[v] {
      SumFromMore(list, i, v);
    }
  }

  /**
   Splits an amount of damage. The values sum to at least the amount, and to
   exactly that if and only if the amount covers each value from `start` to 1 once.
   */
  method GenerateDamageList(amount: int, start: int, tie: (int, int) -> bool) returns (list: seq<int>)
    ensures start < 1 ==> list == []
    ensures start >= 1 ==> Staircase(list, start, 1) && Sum(list) >= Abs(amount)
    ensures start >= 1 ==> (Sum(list) == Abs(amount) <==> 2 * Abs(amount) >= start * (start + 1))
    ensures start >= 1 ==> Even(list, start, Abs(amount))
  {
    var amount' := Abs(amount);
    var sum := 0;
    list := [];
    var i := start;
    while i > 0
      invariant i <= start && sum == Sum(list)
      invariant start >= 1 ==> 0 <= i && Staircase(list, start, i + 1) && InStep(sum, i + 1, start, amount')
      invariant 0 < start && i == 0 ==> sum >= amount'
      invariant start < 1 ==> list == []
      invariant start >= 1 ==> forall v :: i < v <= start ==> EvenAt(list, v, start, amount')
    {
      var n := start + 1 - i;
      var med := n * amount' / start;
      ghost var before := list;
      sum, list := Stage(sum, list, i, start, amount', med, tie);
      forall v | i < v <= start ensures EvenAt(list, v, start, amount') {
        assert EvenAt(before, v, start, amount') && SumFrom(list, v) == SumFrom(before, v);
      }
      if i == 1 {
        Whole(start, amount');
      }
      i := i - 1;
    }
  }

  /** Takes `i` once, and again as long as that brings the sum nearer to `med`. */
  method Stage(sum0: int, list0: seq<int>, i: int, start: int, amount: nat, med: int, tie: (int, int) -> bool)
    returns (sum: int, list: seq<int>)
    requires 1 <= i <= start && med == (start + 1 - i) * amount / start
    requires sum0 == Sum(list0) && Staircase(list0, start, i + 1) && InStep(sum0, i + 1, start, amount)
    ensures sum == Sum(list) && Staircase(list, start, i) && InStep(sum, i, start, amount)
    ensures 2 * sum + i >= 2 * med
    ensures EvenAt(list, i, start, amount) && Extends(list, list0, i)
  {
    sum, list := sum0 + i, list0 + [i];
    SumConcat(list0, [i]);
    ExtendsMore(list0, list0, i);
    assert i !in list0 && i !in multiset(list0);
    FirstFits(sum0, i, start, amount);
    StairDown(list0, start, i);
    while Nearer(sum, i, med, tie)
      invariant sum == Sum(list) && Staircase(list, start, i)
      invariant InStep(sum, i, start, amount) && Extends(list, list0, i)
      invariant multiset(list)[i] > 1 ==> 2 * sum - i <= 2 * med
      decreases 2 * med - 2 * sum
    {
      NearerIff(sum, i, med, tie);
      NextFits(sum, i, start, amount, tie);
      SumConcat(list, [i]);
      StairAgain(list, start, i);
      ExtendsMore(list, list0, i);
      sum, list := sum + i, list + [i];
    }
    NearerIff(sum, i, med, tie);
    assert forall k :: 0 <= k < |list| ==> list[k] in list;
    SumFromAll(list, i);
  }

  const THINK := 1000

  datatype IntervalInfo = IntervalInfo(timeLeft: int, value: int, interval: int)

  function Values(list: seq<IntervalInfo>): (values: seq<int>)
    ensures |values| == |list|
  {
    if list == [] then [] else [list[0].value] + Values(list[1..])
  }

  lemma {:induction false} ValuesConcat(a: seq<IntervalInfo>, b: seq<IntervalInfo>)
    ensures Values(a + b) == Values(a) + Values(b)
  {
    if a == [] {
      assert a + b == b;
    } else {
      ValuesConcat(a[1..], b);
      assert (a + b)[1..] == a[1..] + b;
      Associate([a[0].value], Values(a[1..]), Values(b));
    }
  }

  /** The time the list takes if every interval is waited out to the millisecond. */
  function Time(list: seq<IntervalInfo>): int {
    if list == [] then 0 else list[0].timeLeft + Time(list[1..])
  }

  lemma {:induction false} TimeConcat(a: seq<IntervalInfo>, b: seq<IntervalInfo>)
    ensures Time(a + b) == Time(a) + Time(b)
  {
    if a == [] {
      assert a + b == b;
    } else {
      TimeConcat(a[1..], b);
      assert (a + b)[1..] == a[1..] + b;
    }
  }

  /** The thinks needed to deal the list out: a part of a think counts as a whole one. */
  function Thinks(list: seq<IntervalInfo>): int {
    if list == [] then 0 else (list[0].timeLeft + THINK - 1) / THINK + Thinks(list[1..])
  }

  ghost predicate Waiting(list: seq<IntervalInfo>) {
    forall k :: 0 <= k < |list| ==> list[k].timeLeft > 0
  }

  lemma {:induction false} ThinksNeeded(list: seq<IntervalInfo>)
    requires Waiting(list)
    ensures Thinks(list) >= |list| && Time(list) <= THINK * Thinks(list)
    ensures (forall k :: 0 <= k < |list| ==> list[k].timeLeft % THINK == 0) ==> Time(list) == THINK * Thinks(list)
  {
    if list != [] {
      ThinksNeeded(list[1..]);
      assert Waiting([list[0]]);
    }
  }

  ghost predicate Evenly(list: seq<IntervalInfo>, wait: int) {
    forall k :: 0 <= k < |list| ==> list[k].timeLeft == list[k].interval == wait
  }

  function Longest(time: int): (wait: int)
    ensures wait == (if time < 1000 then 1000 else time) >= THINK
  {
    if time < THINK then THINK else time
  }

  class ConditionDamage {
    var damageList: seq<IntervalInfo>
    var ticks: int
    var endTime: int
    var tickInterval: int
    var periodDamage: int
    var periodDamageTick: int
    var minDamage: int
    var maxDamage: int
    var startDamage: int
    var delayed: bool

    method SetTicks(newTicks: int, now: int)
      modifies this`ticks, this`endTime
      ensures ticks == newTicks && endTime == now + newTicks
    {
      ticks := newTicks;
      endTime := ticks + now;
    }

    /** Queues `rounds` equal entries, or sets periodic damage; a periodic condition takes no entries. */
    method AddDamage(rounds: int, time: int, value: int, now: int) returns (added: bool)
      modifies this
      ensures rounds != -1 ==> periodDamage == old(periodDamage) && tickInterval == old(tickInterval)
      ensures rounds == -1 ==> added && periodDamage == value && ticks == -1 && damageList == old(damageList)
      ensures rounds != -1 && periodDamage > 0 ==> !added && unchanged(this)
      ensures rounds != -1 && periodDamage <= 0 ==>
                var wait := Longest(time);
                && added && damageList == old(damageList) + Repeat(IntervalInfo(wait, value, wait), rounds)
                && (old(ticks) >= 0 ==> ticks == old(ticks) + wait * (if rounds < 0 then 0 else rounds))
                && (old(ticks) >= 0 && rounds > 0 ==> endTime == now + ticks)
      ensures startDamage == old(startDamage) && delayed == old(delayed)
    {
      var wait := Longest(time);
      if rounds == -1 {
        periodDamage := value;
        tickInterval := wait;
        SetTicks(-1, now);
        return true;
      }
      if periodDamage > 0 {
        return false;
      }
      ghost var entry := IntervalInfo(wait, value, wait);
      var i := 0;
      while i < rounds
        invariant 0 <= i && (rounds >= 0 ==> i <= rounds) && (rounds < 0 ==> i == 0)
        invariant damageList == old(damageList) + Repeat(entry, i)
        invariant old(ticks) >= 0 ==> ticks == old(ticks) + wait * i
        invariant old(ticks) >= 0 && i > 0 ==> endTime == now + ticks
        invariant i == 0 ==> unchanged(this)
        invariant periodDamage == old(periodDamage) && tickInterval == old(tickInterval)
        invariant startDamage == old(startDamage) && delayed == old(delayed)
      {
        damageList := damageList + [IntervalInfo(wait, value, wait)];
        if ticks != -1 {
          SetTicks(ticks + wait, now);
        }
        i := i + 1;
      }
      added := true;
    }

    /** The value the list starts from: never above the maximum, and a twentieth of the amount by default. */
    ghost function EffectiveStart(amount: int): (start: int)
      reads this`startDamage, this`maxDamage
      ensures startDamage != 0 ==> start <= startDamage && start <= maxDamage && (start == startDamage || start == maxDamage)
      ensures startDamage == 0 <= maxDamage ==> 1 <= start && amount <= 20 * start && (start > 1 ==> 20 * (start - 1) < amount)
    {
      if startDamage > maxDamage then maxDamage else if startDamage == 0 then DefaultStart(amount) else startDamage
    }

    /** Draws up the list for an amount of damage, unless there is one already. */
    method Init(amount: int, tie: (int, int) -> bool, now: int) returns (ready: bool)
      modifies this
      ensures old(periodDamage) != 0 ==> ready && unchanged(this)
      ensures old(periodDamage) == 0 && old(damageList) != [] ==> ready && unchanged(this)
      ensures old(periodDamage) == 0 ==> periodDamage == 0 && (ready <==> damageList != [])
      ensures old(periodDamage) == 0 && old(damageList) == [] ==>
                && Evenly(damageList, Longest(tickInterval)) && ticks == Time(damageList) && endTime == now + ticks
                && delayed == old(delayed) && tickInterval == old(tickInterval)
                && (amount == 0 || old(EffectiveStart(amount)) < 1 ==> damageList == [])
      ensures old(periodDamage) == 0 && old(damageList) == [] && amount != 0 && old(EffectiveStart(amount)) >= 1 ==>
                && Covers(Values(damageList), amount, old(EffectiveStart(amount)))
                && ticks >= Longest(tickInterval) * old(EffectiveStart(amount))
    {
      if periodDamage != 0 {
        return true;
      }
      if damageList == [] {
        SetTicks(0, now);
        if amount != 0 {
          if startDamage > maxDamage {
            startDamage := maxDamage;
          } else if startDamage == 0 {
            startDamage := DefaultStart(amount);
          }
          var list := GenerateDamageList(amount, startDamage, tie);
          QueueAll(list, now);
          Covered(list, damageList, amount, startDamage, Longest(tickInterval));
        }
      }
      ready := damageList != [];
    }

    method QueueAll(list: seq<int>, now: int)
      requires periodDamage == 0 && damageList == [] && ticks == 0 && endTime == now
      modifies this
      ensures Evenly(damageList, Longest(tickInterval)) && ticks == Time(damageList) && endTime == now + ticks
      ensures Values(damageList) == Negated(list)
      ensures periodDamage == 0 && delayed == old(delayed) && tickInterval == old(tickInterval)
      ensures startDamage == old(startDamage)
    {
      for k := 0 to |list|
        invariant Evenly(damageList, Longest(tickInterval)) && ticks == Time(damageList) >= 0 && endTime == now + ticks
        invariant Values(damageList) == Negated(list[..k])
        invariant periodDamage == 0 && delayed == old(delayed) && tickInterval == old(tickInterval)
        invariant startDamage == old(startDamage)
      {
        ghost var before := damageList;
        var _ := AddDamage(1, tickInterval, -list[k], now);
        ghost var entry := damageList[k];
        assert Repeat(entry, 1) == [entry] && damageList == before + [entry];
        ValuesConcat(before, [entry]);
        TimeConcat(before, [entry]);
        assert list[..k + 1] == list[..k] + [list[k]];
      }
      assert list[..|list|] == list;
    }

    method GetNextDamage() returns (damage: seq<int>)
      modifies this`damageList
      ensures periodDamage != 0 ==> damage == [periodDamage] && damageList == old(damageList)
      ensures periodDamage == 0 ==> damage == if old(damageList) == [] then [] else [old(damageList)[0].value]
      ensures periodDamage == 0 && old(damageList) != [] ==>
                damageList == if ticks == -1 then old(damageList) else old(damageList)[1..]
    {
      if periodDamage != 0 {
        damage := [periodDamage];
      } else if damageList != [] {
        damage := [damageList[0].value];
        if ticks != -1 {
          damageList := damageList[1..];
        }
      } else {
        damage := [];
      }
    }

    /** One think of `interval` ms; `inField` when the creature stands in a field that keeps the condition going. */
    method ExecuteCondition(interval: int, now: int, inField: bool) returns (alive: bool, dealt: seq<int>)
      modifies this
      ensures alive <==> ticks == -1 || endTime >= now
      ensures periodDamage == old(periodDamage)
      ensures periodDamage == 0 && old(damageList) == [] ==> dealt == [] && damageList == [] && endTime == old(endTime)
      ensures ticks == -1 <==> old(ticks) == -1
      ensures periodDamage == 0 && old(damageList) != [] ==>
                var first := old(damageList)[0];
                dealt == if first.timeLeft <= interval then [first.value] else []
      ensures periodDamage == 0 && old(damageList) != [] && old(ticks) != -1 && !inField ==>
                var first := old(damageList)[0];
                && endTime == old(endTime) && ticks != -1
                && damageList == if first.timeLeft <= interval then old(damageList)[1..]
                                 else old(damageList)[0 := first.(timeLeft := first.timeLeft - interval)]
      ensures periodDamage == 0 && old(damageList) != [] && (old(ticks) == -1 || inField) ==>
                && Values(damageList) == old(Values(damageList)) && (old(ticks) >= -1 ==> ticks == old(ticks))
                && endTime == old(endTime) + if old(ticks) > 0 then interval else 0
    {
      var left := interval;
      dealt := [];
      if periodDamage != 0 {
        periodDamageTick := periodDamageTick + interval;
        if periodDamageTick >= tickInterval {
          periodDamageTick := 0;
          dealt := [periodDamage];
        }
      } else if damageList != [] {
        var bRemove := ticks != -1 && !inField;
        var first := damageList[0];
        damageList := [first.(timeLeft := first.timeLeft - interval)] + damageList[1..];
        if damageList[0].timeLeft <= 0 {
          dealt := [first.value];
          damageList := if bRemove then damageList[1..] else [first.(timeLeft := first.interval)] + damageList[1..];
        }
        if !bRemove {
          if ticks > 0 {
            endTime := endTime + interval;
          }
          left := 0;
        }
      }
      if ticks == -1 {
        return true, dealt;
      }
      ticks := if ticks - left < 0 then 0 else ticks - left;
      alive := endTime >= now;
    }

    /** A think among those that deal out `list`. */
    method Think(now: int, ghost list: seq<IntervalInfo>, ghost d: nat, ghost log: seq<seq<int>>)
      returns (alive: bool, dealt: seq<int>, ghost d': nat)
      requires periodDamage == 0 && ticks != -1 && Waiting(damageList) && Dealing(list, damageList, d, log)
      modifies this
      ensures periodDamage == 0 && ticks != -1 && Waiting(damageList) && Dealing(list, damageList, d', log + [dealt])
      ensures endTime == old(endTime) && (alive <==> endTime >= now)
    {
      ghost var before := damageList;
      alive, dealt := ExecuteCondition(THINK, now, false);
      OneThink(list, before, damageList, d, log, dealt);
      d' := if before != [] && before[0].timeLeft <= THINK then d + 1 else d;
    }

    /**
     Thinks once a second until the condition ends. Every entry is dealt in turn
     and once, at the think at which its time is up; the list is dealt out in full
     if and only if the thinks it needs are no more than those that fit before its
     end. The log holds what each think deals.
     */
    method RunOut(start: int) returns (log: seq<seq<int>>)
      requires periodDamage == 0 && ticks >= 0 && endTime >= start && Waiting(damageList)
      modifies this
      ensures Flat(log) + Values(damageList) == old(Values(damageList))
      ensures |log| == (old(endTime) - start) / THINK + 1
      ensures damageList == [] <==> old(Thinks(damageList)) <= |log|
      ensures DealtOnTime(old(damageList), log)
    {
      log := [];
      var alive := true;
      ghost var list, d: nat := damageList, 0;
      StartDealing(list);
      while alive
        invariant periodDamage == 0 && ticks != -1 && endTime == old(endTime) && Waiting(damageList)
        invariant Dealing(list, damageList, d, log)
        invariant alive ==> start + THINK * |log| <= endTime
        invariant !alive ==> |log| >= 1 && start + THINK * (|log| - 1) <= endTime < start + THINK * |log|
        decreases alive, endTime - start - THINK * |log|
      {
        var dealt;
        alive, dealt, d := Think(start + THINK * (|log| + 1), list, d, log);
        log := log + [dealt];
      }
      AllThought(list, damageList, d, log);
    }

    method Prepare(amount: int, tie: (int, int) -> bool, now: int) returns (ready: bool, ghost list: seq<IntervalInfo>)
      requires periodDamage == 0 && damageList == []
      modifies this
      ensures periodDamage == 0 && ticks == endTime - now >= 0 && damageList == list && (ready <==> list != [])
      ensures Evenly(list, Longest(old(tickInterval))) && ticks == Time(list) && delayed == old(delayed)
      ensures amount != 0 && old(EffectiveStart(amount)) >= 1 ==> Covers(Values(list), amount, old(EffectiveStart(amount)))
    {
      if ticks > 0 {
        endTime := ticks + now;
      }
      ready := Init(amount, tie, now);
      list := damageList;
      TimeEvenly(list, Longest(tickInterval));
    }

    /** Starts the condition; unless it is delayed the first damage comes at once, and decides whether it takes hold. */
    method StartCondition(amount: int, tie: (int, int) -> bool, now: int, hits: bool)
      returns (started: bool, dealt: seq<int>, ghost list: seq<IntervalInfo>)
      requires periodDamage == 0 && damageList == []
      modifies this
      ensures periodDamage == 0 && ticks == endTime - now >= 0
      ensures Evenly(list, Longest(old(tickInterval))) && ticks == Time(list)
      ensures dealt == if old(delayed) || list == [] then [] else [list[0].value]
      ensures damageList == (if dealt == [] then list else list[1..])
      ensures amount != 0 && old(EffectiveStart(amount)) >= 1 ==> Covers(Values(list), amount, old(EffectiveStart(amount)))
      ensures started <==> if dealt == [] then list != [] else hits
    {
      dealt := [];
      var ready;
      ready, list := Prepare(amount, tie, now);
      if !ready {
        return false, dealt, list;
      }
      if !delayed {
        dealt := GetNextDamage();
        if dealt != [] {
          return hits, dealt, list;
        }
      }
      started := true;
    }

    /**
     From start to end, when entries are whole seconds apart: all damage is dealt before the
     condition ends, one value at a time, each as long after the one before as entries are
     apart. Together the values cover the amount, as a staircase down from the start.
     */
    method Suffer(amount: int, tie: (int, int) -> bool, now: int) returns (first: seq<int>, log: seq<seq<int>>)
      requires periodDamage == 0 && damageList == [] && amount != 0 && EffectiveStart(amount) >= 1
      requires Longest(tickInterval) % THINK == 0
      modifies this
      ensures damageList == [] && Covers(first + Flat(log), amount, old(EffectiveStart(amount)))
      ensures |first| == if old(delayed) then 0 else 1
      ensures Spaced(Flat(log), log, Longest(old(tickInterval)) / THINK)
    {
      ghost var wait := Longest(tickInterval);
      var started;
      ghost var list;
      started, first, list := StartCondition(amount, tie, now, true);
      TimeEvenly(list, wait);
      TimeEvenly(damageList, wait);
      ghost var left := damageList;
      log := RunOut(now);
      assert Flat(log) + [] == Flat(log) && [] + Flat(log) == Flat(log);
      ThinksEvenly(list, left, wait);
      Scheduled(left, log, wait, wait / THINK);
    }

    /** With parts of seconds the condition can end early: three entries 1.1 s apart need six thinks and get four. */
    method EndsEarly(now: int) returns (log: seq<seq<int>>)
      requires periodDamage == 0 && damageList == [] && ticks == 0
      modifies this
      ensures log == [[], [-1], [], [-1]] && Values(damageList) == [-1]
    {
      var _ := AddDamage(3, 1100, -1, now);
      var entry := IntervalInfo(1100, -1, 1100);
      ThreeEntries(entry);
      assert damageList == [entry, entry, entry];
      log := RunOut(now);
      FourThinks(entry, log, damageList);
    }
  }

  /**
   Damage dealt for an amount, value by value: it never grows, starts at `start` and takes every
   value down to 1, each for its even share, is at least the amount in all, and exactly the amount if and only if each
   value fits once.
   */
  ghost predicate Covers(values: seq<int>, amount: int, start: int) {
    && start >= 1 && Staircase(Negated(values), start, 1) && Even(Negated(values), start, Abs(amount))
    && -Sum(values) >= Abs(amount)
    && (-Sum(values) == Abs(amount) <==> 2 * Abs(amount) >= start * (start + 1))
  }

  /** What a list that was split for an amount comes to once it is queued. */
  lemma Covered(list: seq<int>, queued: seq<IntervalInfo>, amount: int, start: int, wait: int)
    requires Values(queued) == Negated(list) && Evenly(queued, wait) && wait > 0
    ensures start >= 1 && Staircase(list, start, 1) && Sum(list) >= Abs(amount) && Even(list, start, Abs(amount))
            && (Sum(list) == Abs(amount) <==> 2 * Abs(amount) >= start * (start + 1)) ==>
              Covers(Values(queued), amount, start) && Time(queued) >= wait * start
  {
    SumNegated(list);
    TimeEvenly(queued, wait);
    if start >= 1 && Staircase(list, start, 1) {
      StaircaseLong(list, start, 1);
      Times(wait, |queued|, start);
    }
  }

  lemma {:induction false} TimeEvenly(list: seq<IntervalInfo>, wait: int)
    requires Evenly(list, wait) && wait > 0
    ensures Waiting(list) && Time(list) == wait * |list|
    ensures wait % THINK == 0 ==> Time(list) == THINK * Thinks(list)
  {
    if list != [] {
      TimeEvenly(list[1..], wait);
      assert wait * |list| == wait + wait * |list[1..]|;
      if wait % THINK == 0 {
        assert (list[0].timeLeft + THINK - 1) / THINK == wait / THINK;
      }
    }
  }

  lemma ThreeEntries(entry: IntervalInfo)
    requires entry == IntervalInfo(1100, -1, 1100)
    ensures Repeat(entry, 3) == [entry, entry, entry] && Thinks([entry, entry, entry]) == 6
    ensures Waiting([entry, entry, entry]) && Values([entry, entry, entry]) == [-1, -1, -1]
  {
    var two := [entry, entry];
    assert Repeat(entry, 0) == [] && Repeat(entry, 1) == [] + [entry] == [entry];
    assert Repeat(entry, 2) == [entry] + [entry] == two;
    assert Repeat(entry, 3) == two + [entry];
    assert [entry][1..] == [] && two[1..] == [entry] && [entry, entry, entry][1..] == two;
    assert Thinks([entry]) == 2 + Thinks([]) && Thinks(two) == 2 + Thinks([entry]);
    assert Values([entry]) == [-1] + Values([]) == [-1];
    assert Values(two) == [-1] + Values([entry]) == [-1, -1];
    assert Values([entry, entry, entry]) == [-1] + Values(two);
  }

  lemma ThinksEvenly(list: seq<IntervalInfo>, left: seq<IntervalInfo>, wait: int)
    requires Evenly(list, wait) && Evenly(left, wait) && wait >= THINK && wait % THINK == 0 && |left| <= |list|
    ensures Time(list) / THINK >= |left| * (wait / THINK)
  {
    TimeEvenly(list, wait);
    var w := wait / THINK;
    assert wait * |list| == THINK * (w * |list|);
    Times(w, |list|, |left|);
  }

  function Flat(log: seq<seq<int>>): seq<int> {
    if log == [] then [] else Flat(log[..|log| - 1]) + log[|log| - 1]
  }

  /** The think at which entry `k` is dealt, counted from 1. */
  function DealtAt(list: seq<IntervalInfo>, k: nat): int
    requires k < |list|
  {
    Thinks(list[..k + 1])
  }

  /** Each entry whose think comes is dealt then, alone. */
  ghost predicate DealtOnTime(list: seq<IntervalInfo>, log: seq<seq<int>>) {
    forall k :: 0 <= k < |list| && DealtAt(list, k) <= |log| ==> DealtAt(list, k) > 0 && log[DealtAt(list, k) - 1] == [list[k].value]
  }

  function Rounded(time: int): int {
    (time + THINK - 1) / THINK
  }

  /** After the thinks of the log, `d` entries of the list have been dealt, and the next has been brought nearer. */
  ghost predicate Dealing(list: seq<IntervalInfo>, left: seq<IntervalInfo>, d: nat, log: seq<seq<int>>) {
    && |left| + d == |list| && Waiting(list) && Flat(log) + Values(left) == Values(list)
    && (forall k :: 0 <= k < d ==> 0 < DealtAt(list, k) <= |log| && log[DealtAt(list, k) - 1] == [list[k].value])
    && (left != [] ==> left[0].value == list[d].value && left[1..] == list[d + 1..]
                       && |log| + Rounded(left[0].timeLeft) == DealtAt(list, d))
  }

  lemma {:induction false} ThinksConcat(a: seq<IntervalInfo>, b: seq<IntervalInfo>)
    ensures Thinks(a + b) == Thinks(a) + Thinks(b)
  {
    if a == [] {
      assert a + b == b;
    } else {
      ThinksConcat(a[1..], b);
      assert (a + b)[1..] == a[1..] + b;
    }
  }

  lemma NextDealt(list: seq<IntervalInfo>, d: nat)
    requires d < |list|
    ensures DealtAt(list, d) == Thinks(list[..d]) + Rounded(list[d].timeLeft)
  {
    assert list[..d + 1] == list[..d] + [list[d]];
    ThinksConcat(list[..d], [list[d]]);
  }

  lemma StartDealing(list: seq<IntervalInfo>)
    requires Waiting(list)
    ensures Dealing(list, list, 0, [])
  {
    assert [] + Values(list) == Values(list);
    if list != [] {
      NextDealt(list, 0);
    }
  }

  lemma FirstDealt(list: seq<IntervalInfo>, before: seq<IntervalInfo>, d: nat, log: seq<seq<int>>)
    requires Waiting(before) && Dealing(list, before, d, log) && before != [] && before[0].timeLeft <= THINK
    ensures Waiting(before[1..]) && Dealing(list, before[1..], d + 1, log + [[before[0].value]])
  {
    var after, now := before[1..], [before[0].value];
    assert (log + [now])[..|log|] == log;
    Associate(Flat(log), now, Values(after));
    assert list[d + 1..] == after;
    if after != [] {
      NextDealt(list, d + 1);
      assert list[d + 1..][1..] == list[d + 2..];
    }
  }

  lemma NoneDealt(list: seq<IntervalInfo>, before: seq<IntervalInfo>, after: seq<IntervalInfo>, d: nat, log: seq<seq<int>>)
    requires Waiting(before) && Dealing(list, before, d, log)
    requires if before == [] then after == []
             else before[0].timeLeft > THINK
                  && after == before[0 := before[0].(timeLeft := before[0].timeLeft - THINK)]
    ensures Waiting(after) && Dealing(list, after, d, log + [[]])
  {
    assert (log + [[]])[..|log|] == log;
    assert Flat(log) + [] == Flat(log);
    if before != [] {
      assert after[1..] == before[1..];
    }
  }

  /** A think deals the first entry or brings it a think nearer. */
  lemma OneThink(list: seq<IntervalInfo>, before: seq<IntervalInfo>, after: seq<IntervalInfo>, d: nat,
                 log: seq<seq<int>>, now: seq<int>)
    requires Waiting(before) && Dealing(list, before, d, log)
    requires before == [] ==> after == [] && now == []
    requires before != [] ==>
               var first := before[0];
               && now == (if first.timeLeft <= THINK then [first.value] else [])
               && after == if first.timeLeft <= THINK then before[1..] else before[0 := first.(timeLeft := first.timeLeft - THINK)]
    ensures Waiting(after)
    ensures Dealing(list, after, if before != [] && before[0].timeLeft <= THINK then d + 1 else d, log + [now])
  {
    if before != [] && before[0].timeLeft <= THINK {
      FirstDealt(list, before, d, log);
    } else {
      NoneDealt(list, before, after, d, log);
    }
  }

  lemma {:induction false} DealtLater(list: seq<IntervalInfo>, j: nat, k: nat)
    requires Waiting(list) && j <= k < |list|
    ensures DealtAt(list, j) <= DealtAt(list, k) <= Thinks(list)
    decreases k - j
  {
    assert list == list[..k + 1] + list[k + 1..];
    ThinksConcat(list[..k + 1], list[k + 1..]);
    ThinksNeeded(list[k + 1..]);
    if j < k {
      DealtLater(list, j, k - 1);
      NextDealt(list, k);
    }
  }

  lemma AllThought(list: seq<IntervalInfo>, left: seq<IntervalInfo>, d: nat, log: seq<seq<int>>)
    requires Waiting(left) && Dealing(list, left, d, log)
    ensures DealtOnTime(list, log) && (left == [] <==> Thinks(list) <= |log|)
  {
    forall k | 0 <= k < |list| ensures k < d || DealtAt(list, k) > |log| {
      if k >= d {
        DealtLater(list, d, k);
      }
    }
    if list != [] {
      DealtLater(list, if left == [] then |list| - 1 else d, |list| - 1);
      assert list[..|list|] == list;
    }
  }

  /** Entries equally far apart are dealt at equal distances. */
  lemma {:induction false} EvenlyDealt(list: seq<IntervalInfo>, wait: int, w: int, k: nat)
    requires Evenly(list, wait) && wait == w * THINK && w > 0 && k < |list|
    ensures DealtAt(list, k) == Every(k, w)
  {
    NextDealt(list, k);
    if k > 0 {
      EvenlyDealt(list, wait, w, k - 1);
      assert list[..k] == list[..k - 1 + 1];
    }
  }

  /** The `k`th think, counted from 0, of those `w` apart. */
  function Every(k: nat, w: int): int {
    (k + 1) * w
  }

  /** Every value comes alone, each `w` thinks after the one before, the first of them after `w` thinks. */
  ghost predicate Spaced(values: seq<int>, log: seq<seq<int>>, w: int) {
    forall k :: 0 <= k < |values| ==> 0 < Every(k, w) <= |log| && log[Every(k, w) - 1] == [values[k]]
  }

  lemma InTime(k: nat, w: int, n: int, m: int)
    requires k < n && w > 0 && m >= n * w
    ensures 0 < Every(k, w) <= m
  {
    assert (n - k - 1) * w >= 0;
    assert n * w == (k + 1) * w + (n - k - 1) * w;
    assert (k + 1) * w == k * w + w;
    assert k * w >= 0;
  }

  lemma Scheduled(list: seq<IntervalInfo>, log: seq<seq<int>>, wait: int, w: int)
    requires Evenly(list, wait) && wait == w * THINK && w > 0
    requires DealtOnTime(list, log) && |log| >= |list| * w
    ensures Spaced(Values(list), log, w)
  {
    forall k: nat | k < |list| ensures 0 < Every(k, w) <= |log| && log[Every(k, w) - 1] == [Values(list)[k]] {
      EvenlyDealt(list, wait, w, k);
      InTime(k, w, |list|, |log|);
      ValueAt(list, k);
    }
  }

  lemma {:induction false} ValueAt(list: seq<IntervalInfo>, k: nat)
    requires k < |list|
    ensures Values(list)[k] == list[k].value
  {
    if k > 0 {
      ValueAt(list[1..], k - 1);
    }
  }

  lemma FlatFour(log: seq<seq<int>>)
    requires |log| == 4
    ensures Flat(log) == log[0] + log[1] + log[2] + log[3]
  {
    var three, two, one := log[..3], log[..2], log[..1];
    assert one[..0] == [] && Flat(one) == [] + log[0] == log[0];
    assert two[..1] == one && Flat(two) == Flat(one) + log[1];
    assert three[..2] == two && Flat(three) == Flat(two) + log[2];
  }

  lemma FourThinks(entry: IntervalInfo, log: seq<seq<int>>, left: seq<IntervalInfo>)
    requires entry == IntervalInfo(1100, -1, 1100) && DealtOnTime([entry, entry, entry], log) && |log| == 4 && left != []
    requires Flat(log) + Values(left) == [-1, -1, -1]
    ensures log == [[], [-1], [], [-1]] && Values(left) == [-1]
  {
    var list := [entry, entry, entry];
    NextDealt(list, 0);
    NextDealt(list, 1);
    assert list[..1] == list[..0 + 1];
    assert log[1] == [-1] && log[3] == [-1];
    FlatFour(log);
    assert |log[0]| + |log[2]| + |left| == 1;
    assert |Values(left)| == 1;
    assert log[0] == [] && log[2] == [] && Flat(log) == [-1, -1];
    assert log == [log[0], log[1], log[2], log[3]];
    assert Values(left) == (Flat(log) + Values(left))[2..] && [-1, -1, -1][2..] == [-1];
  }

  function DefaultStart(amount: int): int {
    if amount <= 0 then 1 else (amount + 19) / 20
  }

  /** With the default start the split is exact for small amounts only. */
  lemma DefaultStartExact(amount: int)
    requires amount > 0
    ensures var s := DefaultStart(amount);
            2 * amount >= s * (s + 1) <==> amount <= 760 || amount == 780
  {
    var s := DefaultStart(amount);
    assert 20 * s - 19 <= amount <= 20 * s;
    if s <= 38 {
      assert (s - 1) * (38 - s) >= 0;
      assert (s - 1) * (38 - s) == 39 * s - s * s - 38;
      assert s * (s + 1) == s * s + s;
    } else if s >= 40 {
      assert s * (s + 1) >= s * 41;
    }
  }

  function Repeat<T>(x: T, n: int): (r: seq<T>)
    ensures |r| == if n < 0 then 0 else n
  {
    if n <= 0 then [] else Repeat(x, n - 1) + [x]
  }
}
