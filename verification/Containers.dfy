/**
 The live container tree: item lists, parent pointers, and the cached weight
 that every change pushes up the parent chain.
 */
module Containers {
  import opened Common
  import opened Forest
  import opened Items

  /** Weights are unsigned 32-bit numbers and wrap around. */
  const WORD: int := 0x1_0000_0000

  lemma WrapSum(a: int, b: int, c: int)
    requires b % WORD == c % WORD
    ensures (a % WORD + b) % WORD == (a + c) % WORD
  {}

  class Item {
    const container: bool
    const maxSize: nat
    const unlocked: bool
    var ty: ItemType
    var attributes: Attributes
    var count: nat
    var parent: Item?
    var itemlist: seq<Item>
    var totalWeight: nat

    constructor (ty: ItemType, count: nat, attributes: Attributes)
      ensures !container && this.ty == ty && this.count == count && this.attributes == attributes
      ensures parent == null && itemlist == [] && totalWeight == 0
    {
      container, maxSize, unlocked := false, 0, true;
      this.ty, this.count, this.attributes := ty, count, attributes;
      parent, itemlist, totalWeight := null, [], 0;
    }

    /** An empty container. */
    constructor Container(ty: ItemType, maxSize: nat, unlocked: bool, count: nat, attributes: Attributes)
      ensures container && this.maxSize == maxSize && this.unlocked == unlocked
      ensures this.ty == ty && this.count == count && this.attributes == attributes
      ensures parent == null && itemlist == [] && totalWeight == 0
    {
      container, this.maxSize, this.unlocked := true, maxSize, unlocked;
      this.ty, this.count, this.attributes := ty, count, attributes;
      parent, itemlist, totalWeight := null, [], 0;
    }

    function BaseWeight(): (weight: int)
      reads this`ty, this`attributes
    {
      if attributes.Present? && Weight in attributes.values then IntAttr(attributes.values, Weight)
      else ty.weight
    }

    /** The weight of the item without its contents. */
    function OwnWeight(): (weight: int)
      reads this`ty, this`attributes, this`count
    {
      if ty.stackable then BaseWeight() * (if count > 1 then count else 1) else BaseWeight()
    }

    function GetWeight(): (weight: int)
      reads this
    {
      (OwnWeight() + totalWeight) % WORD
    }
  }

  /** Weights of items with their contents, without wrap-around. */
  type Loads = map<Item, int>

  /** The items in play, how deep each of them lies, and how much it weighs in all. */
  class World {
    ghost var items: set<Item>
    ghost var depth: map<Item, nat>
    ghost var loads: Loads

    /** To begin with there is nothing. */
    ghost constructor ()
      ensures Valid() && items == {}
    {
      items, depth, loads := {}, map[], map[];
    }

    ghost function Depth(i: Item): nat
      reads this`depth
    {
      if i in depth then depth[i] else 0
    }

    /** Parent links and item lists agree around `i`; parents lie less deep. */
    ghost predicate LinkOk(i: Item)
      reads this`items, this`depth, items`parent, items`itemlist
    {
      && i in items
      && (i.parent != null ==>
            && i.parent in items && Depth(i.parent) < Depth(i)
            && i.parent.container && i in i.parent.itemlist)
      && (forall k :: 0 <= k < |i.itemlist| ==> i.itemlist[k] in items && i.itemlist[k].parent == i)
      && (forall j, k :: 0 <= j < k < |i.itemlist| ==> i.itemlist[j] != i.itemlist[k])
      && (!i.container ==> i.itemlist == [])
    }

    ghost predicate Links()
      reads this`items, this`depth, items`parent, items`itemlist
    {
      forall i {:trigger LinkOk(i)} :: i in items ==> LinkOk(i)
    }

    /** `a` is `c` or one of the containers around it. */
    ghost predicate OnChain(c: Item, a: Item)
      requires Links() && c in items
      reads this`items, this`depth, items`parent, items`itemlist
      decreases Depth(c)
    {
      assert LinkOk(c);
      c == a || (c.parent != null && OnChain(c.parent, a))
    }

    lemma {:induction false} ChainDepth(c: Item, a: Item)
      requires Links() && c in items && OnChain(c, a)
      ensures a in items && LinkOk(a) && Depth(a) <= Depth(c) && (c != a ==> Depth(a) < Depth(c))
      decreases Depth(c)
    {
      assert LinkOk(c);
      if c != a {
        ChainDepth(c.parent, a);
      }
    }

    /** The parent of a container on the chain is on the chain, above the start. */
    lemma {:induction false} ChainParent(c: Item, a: Item)
      requires Links() && c in items && OnChain(c, a) && a.parent != null
      ensures OnChain(c, a.parent) && a.parent != c
      decreases Depth(c)
    {
      assert LinkOk(c);
      ChainDepth(c, a);
      if c != a {
        ChainParent(c.parent, a);
      }
    }

    /** Two containers of the chain with the same parent are the same. */
    lemma {:induction false} ChainUnique(c: Item, x: Item, y: Item)
      requires Links() && c in items && OnChain(c, x) && OnChain(c, y)
      requires x.parent != null && x.parent == y.parent
      ensures x == y
      decreases Depth(c)
    {
      assert LinkOk(c);
      if c != x && c != y {
        ChainUnique(c.parent, x, y);
      } else if c != y {
        ChainDepth(c.parent, y);
      } else if c != x {
        ChainDepth(c.parent, x);
      }
    }

    /** The position in `a` of the item through which `c` lies in `a`. */
    lemma {:induction false} ChainChild(c: Item, a: Item) returns (k: nat)
      requires Links() && c in items && OnChain(c, a) && c != a
      ensures k < |a.itemlist| && OnChain(c, a.itemlist[k])
      decreases Depth(c)
    {
      assert LinkOk(c);
      if c.parent == a {
        k :| 0 <= k < |a.itemlist| && a.itemlist[k] == c;
      } else {
        k := ChainChild(c.parent, a);
      }
    }

    /** Links are sound, and every cached weight is that of the contents, modulo the word size. */
    ghost predicate Valid()
      reads this, items
    {
      Links() && loads.Keys == items && forall d {:trigger LoadOk(d, 0)} :: d in items ==> LinkOk(d) && LoadOk(d, 0)
    }

    /** The load of `d` is its own weight and those of its list, plus `slack`; its contents' part is cached. */
    ghost predicate LoadOk(d: Item, slack: int)
      reads this`loads, d
    {
      && d in loads && d.totalWeight == (loads[d] - d.OwnWeight()) % WORD
      && loads[d] == d.OwnWeight() + SumLoads(d.itemlist, loads) + slack
    }

    /** Links are sound; cached weights are right, except that the one of `c` is ahead by `slack`. */
    ghost predicate Balanced(c: Item, slack: int)
      reads this, items
    {
      Links() && forall d {:trigger LoadAt(d, c, slack)} :: d in items ==> LinkOk(d) && LoadAt(d, c, slack)
    }

    ghost predicate LoadAt(d: Item, c: Item, slack: int)
      reads this`loads, d
    {
      LoadOk(d, if d == c then slack else 0)
    }

    /** The loads after `diff` was added along the chain of `c`. */
    ghost function Pushed(before: Loads, c: Item, diff: int): (after: Loads)
      requires Links() && c in items && before.Keys == items
      reads this`items, this`depth, items`parent, items`itemlist
    {
      map i | i in items :: before[i] + if OnChain(c, i) then diff else 0
    }
  }

  ghost function LoadsOf(list: seq<Item>, loads: Loads): (ws: seq<int>) {
    seq(|list|, k requires 0 <= k < |list| => if list[k] in loads then loads[list[k]] else 0)
  }

  ghost function SumLoads(list: seq<Item>, loads: Loads): (sum: int) {
    Sum(LoadsOf(list, loads))
  }

  /** If one entry gained `diff`, so did the sum. */
  lemma {:induction false} SumShift(ws: seq<int>, ws': seq<int>, on: int, diff: int)
    requires |ws| == |ws'|
    requires forall k :: 0 <= k < |ws| ==> ws'[k] == ws[k] + if k == on then diff else 0
    ensures Sum(ws') == Sum(ws) + if 0 <= on < |ws| then diff else 0
  {
    if ws != [] {
      SumShift(ws[1..], ws'[1..], on - 1, diff);
    }
  }

  /** At most one item of a list is on the chain of `c`: the one through which `c` lies there. */
  lemma ChainEntry(w: World, c: Item, d: Item) returns (on: int)
    requires w.Links() && c in w.items && d in w.items
    ensures 0 <= on < |d.itemlist| <==> w.OnChain(c, d) && c != d
    ensures forall k :: 0 <= k < |d.itemlist| ==> d.itemlist[k] in w.items && (w.OnChain(c, d.itemlist[k]) <==> k == on)
  {
    assert w.LinkOk(d);
    on := -1;
    if w.OnChain(c, d) && c != d {
      on := w.ChainChild(c, d);
    }
    forall k | 0 <= k < |d.itemlist| && w.OnChain(c, d.itemlist[k]) ensures k == on {
      w.ChainParent(c, d.itemlist[k]);
      w.ChainUnique(c, d.itemlist[k], d.itemlist[on]);
    }
  }

  /** A push moves the sum of a list by `diff` exactly strictly above `c`. */
  lemma PushSum(w: World, before: Loads, c: Item, diff: int, d: Item)
    requires w.Links() && c in w.items && d in w.items && before.Keys == w.items
    ensures SumLoads(d.itemlist, w.Pushed(before, c, diff))
         == SumLoads(d.itemlist, before) + if w.OnChain(c, d) && c != d then diff else 0
  {
    var on := ChainEntry(w, c, d);
    SumShift(LoadsOf(d.itemlist, before), LoadsOf(d.itemlist, w.Pushed(before, c, diff)), on, diff);
  }

  /** Adds `diff` to the cached weight of `c` and of every container around it. */
  method UpdateItemWeight(c: Item, diff: int, ghost w: World)
    requires w.Links() && c in w.items
    modifies w.items`totalWeight
    ensures w.Links()
    ensures forall i :: i in w.items ==>
              i.totalWeight == if w.OnChain(c, i) then (old(i.totalWeight) + diff) % WORD else old(i.totalWeight)
    decreases w.Depth(c)
  {
    assert w.LinkOk(c);
    c.totalWeight := (c.totalWeight + diff) % WORD;
    if c.parent != null {
      UpdateItemWeight(c.parent, diff, w);
    }
    forall i | i in w.items
      ensures i.totalWeight == if w.OnChain(c, i) then (old(i.totalWeight) + diff) % WORD else old(i.totalWeight)
    {
      if c.parent != null && w.OnChain(c.parent, i) {
        w.ChainDepth(c.parent, i);
      }
    }
  }

  lemma PushedLoad(w: World, before: Loads, c: Item, diff: int, exact: int, d: Item, own: int, slack: int, cached: int)
    requires w.Links() && c in w.items && d in w.items && before.Keys == w.items && diff % WORD == exact % WORD
    requires cached == (before[d] - own) % WORD && before[d] == own + SumLoads(d.itemlist, before) + slack
    ensures var after := w.Pushed(before, c, exact);
            && (if w.OnChain(c, d) then (cached + diff) % WORD else cached) == (after[d] - own) % WORD
            && after[d] == own + SumLoads(d.itemlist, after) + slack + if d == c then exact else 0
  {
    PushSum(w, before, c, exact, d);
    WrapSum(before[d] - own, diff, exact);
  }

  lemma PushedAt(w: World, before: Loads, c: Item, diff: int, exact: int, d: Item, slack: int, cached: int)
    requires w.Links() && c in w.items && d in w.items && before.Keys == w.items && diff % WORD == exact % WORD
    requires cached == (before[d] - d.OwnWeight()) % WORD
    requires before[d] == d.OwnWeight() + SumLoads(d.itemlist, before) + if d == c then slack else 0
    requires w.loads == w.Pushed(before, c, exact)
    requires d.totalWeight == if w.OnChain(c, d) then (cached + diff) % WORD else cached
    ensures w.LoadAt(d, c, slack + exact)
  {
    PushedLoad(w, before, c, diff, exact, d, d.OwnWeight(), if d == c then slack else 0, cached);
  }

  /** Pushing moves the slack at the start of the chain and disturbs no other cache. */
  method PushWeight(c: Item, diff: int, ghost w: World, ghost exact: int, ghost slack: int)
    requires w.Balanced(c, slack) && c in w.items && w.loads.Keys == w.items && diff % WORD == exact % WORD
    modifies w`loads, w.items`totalWeight
    ensures w.Balanced(c, slack + exact) && w.loads.Keys == w.items
    ensures forall i :: i in w.items && !w.OnChain(c, i) ==> w.loads[i] == old(w.loads)[i]
  {
    ghost var before := w.loads;
    UpdateItemWeight(c, diff, w);
    w.loads := w.Pushed(before, c, exact);
    forall d | d in w.items ensures w.LinkOk(d) && w.LoadAt(d, c, slack + exact) {
      assert w.LinkOk(d) && old(w.LoadAt(d, c, slack));
      PushedAt(w, before, c, diff, exact, d, slack, old(d.totalWeight));
    }
  }

  lemma BalancedValid(w: World, c: Item)
    requires w.Balanced(c, 0) && w.loads.Keys == w.items
    ensures w.Valid()
  {
    forall d | d in w.items ensures w.LinkOk(d) && w.LoadOk(d, 0) {
      assert w.LoadAt(d, c, 0);
    }
  }

  lemma SumInsert(list: seq<Item>, k: nat, item: Item, loads: Loads)
    requires k <= |list| && item in loads
    ensures SumLoads(list[..k] + [item] + list[k..], loads) == SumLoads(list, loads) + loads[item]
    decreases k
  {
    var long := list[..k] + [item] + list[k..];
    if k == 0 {
      assert long == [item] + list;
      assert LoadsOf(long, loads)[1..] == LoadsOf(list, loads);
    } else {
      var rest := list[1..];
      SumInsert(rest, k - 1, item, loads);
      assert long[1..] == rest[..k - 1] + [item] + rest[k - 1..];
      assert LoadsOf(long, loads)[1..] == LoadsOf(long[1..], loads);
      assert LoadsOf(list, loads)[1..] == LoadsOf(rest, loads);
    }
  }

  /** Depths after `item` and all below it have moved under `c`. */
  ghost function Lowered(w: World, c: Item, item: Item): (depth: map<Item, nat>)
    requires w.Links()
    reads w`items, w`depth, w.items`parent, w.items`itemlist
  {
    map i | i in w.items :: if w.OnChain(i, item) then w.Depth(i) + w.Depth(c) + 1 else w.Depth(i)
  }

  /** Inserts a free item into a list and sinks it, with all below it, under its container. */
  method LinkIn(c: Item, k: nat, item: Item, ghost w: World)
    requires w.Links() && c in w.items && item in w.items
    requires c.container && item.parent == null && !w.OnChain(c, item) && k <= |c.itemlist|
    modifies w`depth, item`parent, c`itemlist
    ensures c.itemlist == old(c.itemlist[..k] + [item] + c.itemlist[k..]) && item.parent == c
    ensures w.Links()
  {
    assert w.LinkOk(c) && w.LinkOk(item);
    ghost var depth := Lowered(w, c, item);
    item.parent := c;
    c.itemlist := c.itemlist[..k] + [item] + c.itemlist[k..];
    w.depth := depth;
    forall d | d in w.items ensures w.LinkOk(d) {
      assert old(w.LinkOk(d));
    }
  }

  /** Inserts a free item, leaving the cached weight of the container short of it. */
  method Attach(c: Item, k: nat, item: Item, ghost w: World)
    requires w.Valid() && c in w.items && item in w.items
    requires c.container && item.parent == null && !w.OnChain(c, item) && k <= |c.itemlist|
    modifies w`depth, item`parent, c`itemlist
    ensures c.itemlist == old(c.itemlist[..k] + [item] + c.itemlist[k..]) && item.parent == c
    ensures w.Balanced(c, -w.loads[item])
  {
    SumInsert(c.itemlist, k, item, w.loads);
    LinkIn(c, k, item, w);
    forall d | d in w.items ensures w.LinkOk(d) && w.LoadAt(d, c, -w.loads[item]) {
      assert w.LinkOk(d) && old(w.LoadOk(d, 0));
    }
  }

  lemma Reported(own: int, cached: int, load: int)
    requires cached == (load - own) % WORD
    ensures (own + cached) % WORD % WORD == load % WORD
    ensures -((own + cached) % WORD) % WORD == -load % WORD
  {
    assert own + cached == load - WORD * ((load - own) / WORD);
  }

  /** The weight an item reports is its load, modulo the word size. */
  lemma WeightIsLoad(w: World, item: Item)
    requires item in w.items && w.LoadOk(item, 0)
    ensures item.GetWeight() % WORD == w.loads[item] % WORD
    ensures -item.GetWeight() % WORD == -w.loads[item] % WORD
  {
    Reported(item.OwnWeight(), item.totalWeight, w.loads[item]);
  }

  /** `push_front` with the weight pushed up: `addThing` past its index check, and `internalAddThing`. */
  method InternalAddThing(c: Item, item: Item, ghost w: World)
    requires w.Valid() && c in w.items && item in w.items
    requires c.container && item.parent == null && !w.OnChain(c, item)
    modifies w`depth, w`loads, item`parent, c`itemlist, w.items`totalWeight
    ensures w.Valid()
    ensures c.itemlist == [item] + old(c.itemlist) && item.parent == c
  {
    assert w.LoadOk(item, 0);
    WeightIsLoad(w, item);
    var weight := item.GetWeight();
    ghost var load := w.loads[item];
    Attach(c, 0, item, w);
    PushWeight(c, weight, w, load, -load);
    BalancedValid(w, c);
  }

  method AddItemBack(c: Item, item: Item, ghost w: World)
    requires w.Valid() && c in w.items && item in w.items
    requires c.container && item.parent == null && !w.OnChain(c, item)
    modifies w`depth, w`loads, item`parent, c`itemlist, w.items`totalWeight
    ensures w.Valid()
    ensures c.itemlist == old(c.itemlist) + [item] && item.parent == c
  {
    assert w.LoadOk(item, 0);
    WeightIsLoad(w, item);
    var weight := item.GetWeight();
    ghost var load := w.loads[item];
    Attach(c, |c.itemlist|, item, w);
    PushWeight(c, weight, w, load, -load);
    BalancedValid(w, c);
  }

  /** Adds in front, unless the index is past the capacity. */
  method AddThing(c: Item, index: int, item: Item, ghost w: World)
    requires w.Valid() && c in w.items && item in w.items
    requires c.container && item.parent == null && !w.OnChain(c, item)
    modifies w`depth, w`loads, item`parent, c`itemlist, w.items`totalWeight
    ensures w.Valid()
    ensures if index >= c.maxSize then c.itemlist == old(c.itemlist) && item.parent == null
            else c.itemlist == [item] + old(c.itemlist) && item.parent == c
  {
    if index < c.maxSize {
      InternalAddThing(c, item, w);
    }
  }

  /** An item just created, on its own and empty, comes into play. */
  ghost method Enter(item: Item, w: World)
    requires w.Valid() && item !in w.items && item.parent == null && item.itemlist == [] && item.totalWeight == 0
    modifies w`items, w`loads
    ensures w.Valid() && w.items == old(w.items) + {item}
  {
    w.items := w.items + {item};
    w.loads := w.loads[item := item.OwnWeight()];
    forall d | d in w.items ensures w.LinkOk(d) && w.LoadOk(d, 0) {
      if d != item {
        assert old(w.LinkOk(d) && w.LoadOk(d, 0));
        assert LoadsOf(d.itemlist, w.loads) == LoadsOf(d.itemlist, old(w.loads));
      }
    }
  }

  // --------------------------------------------------------------- removing

  lemma SumRemove(list: seq<Item>, k: nat, loads: Loads)
    requires k < |list| && list[k] in loads
    ensures SumLoads(list[..k] + list[k + 1..], loads) == SumLoads(list, loads) - loads[list[k]]
  {
    var short := list[..k] + list[k + 1..];
    SumInsert(short, k, list[k], loads);
    assert short[..k] + [list[k]] + short[k..] == list;
  }

  /** Takes the item at `k` out of a list whose container was already relieved of its weight. */
  method Detach(c: Item, k: nat, item: Item, ghost w: World)
    requires c in w.items && item in w.items && k < |c.itemlist| && c.itemlist[k] == item && w.loads.Keys == w.items
    requires w.Balanced(c, -w.loads[item])
    modifies item`parent, c`itemlist
    ensures w.Valid() && item.parent == null
    ensures c.itemlist == old(c.itemlist[..k] + c.itemlist[k + 1..])
  {
    assert w.LinkOk(c) && w.LinkOk(item);
    SumRemove(c.itemlist, k, w.loads);
    item.parent := null;
    c.itemlist := c.itemlist[..k] + c.itemlist[k + 1..];
    forall d | d in w.items ensures w.LinkOk(d) && w.LoadOk(d, 0) {
      assert old(w.LinkOk(d) && w.LoadAt(d, c, -w.loads[item]));
    }
  }

  /** The first place of the thing. */
  method GetThingIndex(c: Item, thing: Item) returns (index: int)
    ensures if thing in c.itemlist
            then 0 <= index < |c.itemlist| && c.itemlist[index] == thing && thing !in c.itemlist[..index]
            else index == -1
  {
    for k := 0 to |c.itemlist|
      invariant thing !in c.itemlist[..k]
    {
      if c.itemlist[k] == thing {
        return k;
      }
    }
    return -1;
  }

  method Retype(item: Item, ty: ItemType, attributes: Attributes, count: nat) returns (ghost gain: int)
    modifies item`ty, item`attributes, item`count
    ensures item.ty == ty && item.attributes == attributes && item.count == count
    ensures gain == item.OwnWeight() - old(item.OwnWeight())
  {
    gain := -item.OwnWeight();
    item.ty, item.attributes, item.count := ty, attributes, count;
    gain := gain + item.OwnWeight();
  }

  /** Changes an item in place, leaving the cached weight of its container behind by the difference. */
  method Reweigh(c: Item, item: Item, ty: ItemType, attributes: Attributes, count: nat, ghost w: World)
    returns (ghost gain: int)
    requires w.Valid() && c in w.items && item in w.items && item.parent == c
    modifies w`loads, item`ty, item`attributes, item`count
    ensures item.ty == ty && item.attributes == attributes && item.count == count
    ensures gain == item.OwnWeight() - old(item.OwnWeight())
    ensures w.Balanced(c, -gain) && w.loads.Keys == w.items
  {
    ghost var before := w.loads;
    gain := Retype(item, ty, attributes, count);
    w.loads := before[item := before[item] + gain];
    forall d | d in w.items ensures w.LinkOk(d) && w.LoadAt(d, c, -gain) {
      assert w.LinkOk(d) && w.LinkOk(item) && old(w.LoadOk(d, 0));
      ReweighSum(w, before, item, gain, c, d);
    }
  }

  /** Only the list that holds the item sees the difference. */
  lemma ReweighSum(w: World, before: Loads, item: Item, gain: int, c: Item, d: Item)
    requires w.Links() && d in w.items && item in w.items && item.parent == c && item in before
    ensures SumLoads(d.itemlist, before[item := before[item] + gain])
         == SumLoads(d.itemlist, before) + if d == c then gain else 0
  {
    assert w.LinkOk(d) && w.LinkOk(item);
    var on: int := -1;
    if d == c {
      on :| 0 <= on < |d.itemlist| && d.itemlist[on] == item;
    }
    SumShift(LoadsOf(d.itemlist, before), LoadsOf(d.itemlist, before[item := before[item] + gain]), on, gain);
  }

  const REWARD_CORPSE := 0x7FFF_FFFF

  /** The attributes after `setID`: decay attributes are dropped or restarted, a corpse owner is dropped. */
  function Renewed(prev: ItemType, ty: ItemType, a: Attributes): Attributes {
    var duration := DefaultDuration(ty);
    var a1 := if duration == 0 && !ty.stopTime && ty.decayTo < 0
              then Without(a, {DecayState, Duration}) else a;
    var a2 := if Has(a1, CorpseOwner) && a1.values[CorpseOwner] == Int(REWARD_CORPSE) then a1
              else Without(a1, {CorpseOwner});
    if duration > 0 && (!prev.stopTime || !Has(a2, Duration))
    then With(With(a2, DecayState, 0), Duration, Signed(4, duration)) else a2
  }

  lemma GainMod(before: int, after: int, gain: int)
    requires gain % WORD == (after - before) % WORD
    ensures (-(before % WORD) + after % WORD) % WORD == gain % WORD
  {}

  /** Changes an item of a container in place and pushes up the difference in weight. */
  method ChangeItem(c: Item, item: Item, ty: ItemType, attributes: Attributes, count: nat, ghost w: World)
    requires w.Valid() && c in w.items && item in w.items && item.parent == c
    modifies w`loads, item`ty, item`attributes, item`count, w.items`totalWeight
    ensures w.Valid() && item.ty == ty && item.attributes == attributes && item.count == count
  {
    var oldWeight := item.GetWeight();
    ghost var before := item.OwnWeight() + item.totalWeight;
    ghost var gain := Reweigh(c, item, ty, attributes, count, w);
    GainMod(before, item.OwnWeight() + item.totalWeight, gain);
    PushWeight(c, -oldWeight + item.GetWeight(), w, gain, -gain);
    BalancedValid(w, c);
  }

  /** The attributes after `setSubType`, where these carry the subtype. */
  function SubTyped(ty: ItemType, a: Attributes, n: nat): Attributes {
    if SubTypeKey(ty) == Count then a else With(a, SubTypeKey(ty), Unsigned(2, n))
  }

  /** What a subtype sets: the fluid of a fluid container, the count of a stack, or the charges of a charged item. */
  ghost predicate HasSubType(item: Item, n: nat)
    reads item`ty, item`attributes, item`count
  {
    if item.ty.fluid then Has(item.attributes, FluidType) && item.attributes.values[FluidType] == Int(n % 0x1_0000)
    else if !item.ty.stackable && item.ty.charges != 0
    then Has(item.attributes, Charges) && item.attributes.values[Charges] == Int(n % 0x1_0000)
    else item.count == n % 256
  }

  /** Gives an item in a container another type and subtype: a count, charges or a fluid. */
  method UpdateThing(c: Item, item: Item, ty: ItemType, count: nat, ghost w: World)
    requires w.Valid() && c in w.items && item in w.items
    modifies w`loads, item`ty, item`attributes, item`count, w.items`totalWeight
    ensures w.Valid()
    ensures if item in c.itemlist
            then item.ty == ty && item.count == (if SubTypeKey(ty) == Count then count % 256 else old(item.count))
                 && item.attributes == SubTyped(ty, Renewed(old(item.ty), ty, old(item.attributes)), count)
                 && HasSubType(item, count)
            else item.ty == old(item.ty) && item.count == old(item.count) && item.attributes == old(item.attributes)
  {
    var index := GetThingIndex(c, item);
    if index == -1 {
      return;
    }
    assert w.LinkOk(c);
    var attributes := SubTyped(ty, Renewed(item.ty, ty, item.attributes), count);
    ChangeItem(c, item, ty, attributes, if SubTypeKey(ty) == Count then count % 256 else item.count, w);
  }

  function LeftOver(have: nat, take: nat): (left: nat)
    ensures take <= have < 256 ==> left == have - take
  {
    (if have < take then 0 else have - take) % 256
  }

  /** A list without the first place of `item`. */
  ghost function Dropped(list: seq<Item>, item: Item): (rest: seq<Item>) {
    if list == [] then [] else if list[0] == item then list[1..] else [list[0]] + Dropped(list[1..], item)
  }

  lemma {:induction false} DroppedAt(list: seq<Item>, k: nat)
    requires k < |list| && list[k] !in list[..k]
    ensures Dropped(list, list[k]) == list[..k] + list[k + 1..]
  {
    if k > 0 {
      assert list[0] == list[..k][0];
      assert list[1..][..k - 1] == list[..k][1..];
      DroppedAt(list[1..], k - 1);
    }
  }

  /** Takes `count` off a stack, or the whole item out of the list. */
  method RemoveThing(c: Item, item: Item, count: nat, ghost w: World)
    requires w.Valid() && c in w.items && item in w.items
    modifies w`loads, item`ty, item`attributes, item`count, item`parent, c`itemlist, w.items`totalWeight
    ensures w.Valid() && item.ty == old(item.ty) && item.attributes == old(item.attributes)
    ensures item !in old(c.itemlist) ==> c.itemlist == old(c.itemlist) && item.count == old(item.count)
                                         && item.parent == old(item.parent)
    ensures item in old(c.itemlist) && item.ty.stackable && count != old(item.count) ==>
              c.itemlist == old(c.itemlist) && item.parent == c
              && item.count == LeftOver(old(item.count), count)
    ensures item in old(c.itemlist) && !(item.ty.stackable && count != old(item.count)) ==>
              item.parent == null && item.count == old(item.count) && c.itemlist == Dropped(old(c.itemlist), item)
  {
    var index := GetThingIndex(c, item);
    if index == -1 {
      return;
    }
    assert w.LinkOk(c);
    if item.ty.stackable && count != item.count {
      ChangeItem(c, item, item.ty, item.attributes, LeftOver(item.count, count), w);
    } else {
      RemoveWhole(c, index, item, w);
    }
  }

  method RemoveWhole(c: Item, k: nat, item: Item, ghost w: World)
    requires w.Valid() && c in w.items && item in w.items
    requires k < |c.itemlist| && c.itemlist[k] == item && item !in c.itemlist[..k]
    modifies w`loads, item`parent, c`itemlist, w.items`totalWeight
    ensures w.Valid() && item.parent == null
    ensures c.itemlist == Dropped(old(c.itemlist), item)
  {
    DroppedAt(c.itemlist, k);
    assert w.LoadOk(item, 0);
    WeightIsLoad(w, item);
    ghost var load := w.loads[item];
    NotAbove(w, c, item);
    ValidBalanced(w, c);
    PushWeight(c, -item.GetWeight(), w, -load, 0);
    Detach(c, k, item, w);
  }

  lemma NotAbove(w: World, c: Item, item: Item)
    requires w.Links() && c in w.items && item in c.itemlist
    ensures !w.OnChain(c, item)
  {
    assert w.LinkOk(c) && w.LinkOk(item);
    if w.OnChain(c, item) {
      w.ChainDepth(c, item);
    }
  }

  lemma ValidBalanced(w: World, c: Item)
    requires w.Valid()
    ensures w.Balanced(c, 0)
  {
    forall d | d in w.items ensures w.LinkOk(d) && w.LoadAt(d, c, 0) {
      assert w.LoadOk(d, 0) && w.LinkOk(d);
    }
  }

  // -------------------------------------------------------------- replacing

  /** Puts a free item at `k` in place of the one there, which becomes free. */
  method LinkSwap(c: Item, k: nat, item: Item, replaced: Item, ghost w: World)
    requires w.Links() && c in w.items && item in w.items && k < |c.itemlist| && c.itemlist[k] == replaced
    requires item.parent == null && !w.OnChain(c, item)
    modifies w`depth, item`parent, replaced`parent, c`itemlist
    ensures c.itemlist == old(c.itemlist)[k := item] && item.parent == c && replaced.parent == null
    ensures w.Links()
  {
    assert w.LinkOk(c) && w.LinkOk(item) && w.LinkOk(replaced);
    ghost var depth := Lowered(w, c, item);
    NotAbove(w, c, replaced);
    item.parent := c;
    replaced.parent := null;
    c.itemlist := c.itemlist[k := item];
    w.depth := depth;
    forall d | d in w.items ensures w.LinkOk(d) {
      assert old(w.LinkOk(d));
      if d == item {
        assert c.itemlist[k] == item;
      } else if d.parent == c {
        var j :| 0 <= j < |old(c.itemlist)| && old(c.itemlist)[j] == d;
        assert c.itemlist[j] == d;
      }
    }
  }

  lemma SumReplace(list: seq<Item>, k: nat, item: Item, loads: Loads)
    requires k < |list| && item in loads && list[k] in loads
    ensures SumLoads(list[k := item], loads) == SumLoads(list, loads) - loads[list[k]] + loads[item]
  {
    SumRemove(list, k, loads);
    var short := list[..k] + list[k + 1..];
    SumInsert(short, k, item, loads);
    assert short[..k] + [item] + short[k..] == list[k := item];
  }

  lemma SwapMod(replaced: int, item: int, from: int, to: int)
    requires replaced % WORD == from % WORD && item % WORD == to % WORD
    ensures (-replaced + item) % WORD == (to - from) % WORD
  {}

  /**
   The replaced item loses its parent before the weight is pushed; the push
   starts at `c` and never looks at it, so the order makes no difference.
   */
  method ReplaceThing(c: Item, index: nat, item: Item, ghost w: World)
    requires w.Valid() && c in w.items && item in w.items && item.parent == null && !w.OnChain(c, item)
    modifies w`depth, w`loads, item`parent, c.itemlist`parent, c`itemlist, w.items`totalWeight
    ensures w.Valid()
    ensures if index < |old(c.itemlist)|
            then c.itemlist == old(c.itemlist)[index := item] && item.parent == c
                 && (var replaced: Item := old(c.itemlist)[index]; replaced.parent == null)
            else c.itemlist == old(c.itemlist) && item.parent == null
  {
    if index >= |c.itemlist| {
      return;
    }
    var replaced := c.itemlist[index];
    assert w.LinkOk(c) && w.LoadOk(item, 0) && w.LoadOk(replaced, 0);
    WeightIsLoad(w, item);
    WeightIsLoad(w, replaced);
    var diff := -replaced.GetWeight() + item.GetWeight();
    ghost var exact := w.loads[item] - w.loads[replaced];
    SwapMod(replaced.GetWeight(), item.GetWeight(), w.loads[replaced], w.loads[item]);
    Swap(c, index, item, replaced, w);
    PushWeight(c, diff, w, exact, -exact);
    BalancedValid(w, c);
  }

  method Swap(c: Item, k: nat, item: Item, replaced: Item, ghost w: World)
    requires w.Valid() && c in w.items && item in w.items && replaced in w.items
    requires k < |c.itemlist| && c.itemlist[k] == replaced && item.parent == null && !w.OnChain(c, item)
    modifies w`depth, item`parent, replaced`parent, c`itemlist
    ensures c.itemlist == old(c.itemlist)[k := item] && item.parent == c && replaced.parent == null
    ensures w.Balanced(c, w.loads[replaced] - w.loads[item])
  {
    SumReplace(c.itemlist, k, item, w.loads);
    ghost var slack := w.loads[replaced] - w.loads[item];
    LinkSwap(c, k, item, replaced, w);
    forall d | d in w.items ensures w.LinkOk(d) && w.LoadAt(d, c, slack) {
      assert w.LinkOk(d) && old(w.LoadOk(d, 0));
    }
  }

  // -------------------------------------------------- what the cache means

  /** An item together with everything in it, as a finite tree. */
  type Shape = Tree<Item>

  ghost predicate ShapeOf(s: Shape, w: World)
    reads w`items, w.items`itemlist
    decreases s
  {
    && s.item in w.items && |s.contents| == |s.item.itemlist|
    && forall k :: 0 <= k < |s.contents| ==> s.contents[k].item == s.item.itemlist[k] && ShapeOf(s.contents[k], w)
  }

  /** What one piece of an item weighs: what its attribute says, or else its type. */
  function UnitWeight(ty: ItemType, a: Attributes): int {
    if Has(a, Weight) then IntAttr(a.values, Weight) else ty.weight
  }

  /** The pieces of an item: as many as a stack has, never none, and one of anything else. */
  function Number(item: Item): (n: nat)
    reads item`ty, item`count
    ensures n >= 1
  {
    if item.ty.stackable && item.count > 0 then item.count else 1
  }

  /** The weight of an item and of everything in it, added up piece by piece. */
  ghost function DeepWeight(s: Shape): int
    reads *
    decreases s, 0
  {
    UnitWeight(s.item.ty, s.item.attributes) * Number(s.item) + DeepSum(s.contents)
  }

  ghost function DeepSum(inside: seq<Shape>): int
    reads *
    decreases inside, 1
  {
    if inside == [] then 0 else DeepWeight(inside[0]) + DeepSum(inside[1..])
  }

  /** The items that lie deeper than `i`. */
  ghost function Deeper(w: World, i: Item): (deeper: set<Item>)
    reads w`items, w`depth
  {
    set j | j in w.items && w.Depth(j) > w.Depth(i)
  }

  /** Every item has such a tree: containment is well founded. */
  ghost function ShapeAt(w: World, i: Item): (s: Shape)
    requires w.Links() && i in w.items
    reads w`items, w`depth, w.items`parent, w.items`itemlist
    ensures s.item == i && ShapeOf(s, w)
    decreases Deeper(w, i), |i.itemlist| + 1
  {
    assert w.LinkOk(i);
    Tree(i, ShapesFrom(w, i, 0))
  }

  ghost function ShapesFrom(w: World, i: Item, k: nat): (shapes: seq<Shape>)
    requires w.Links() && i in w.items && k <= |i.itemlist|
    reads w`items, w`depth, w.items`parent, w.items`itemlist
    ensures |shapes| == |i.itemlist| - k
    ensures forall n :: 0 <= n < |shapes| ==> shapes[n].item == i.itemlist[k + n] && ShapeOf(shapes[n], w)
    decreases Deeper(w, i), |i.itemlist| - k
  {
    assert w.LinkOk(i);
    if k == |i.itemlist| then [] else
      assert w.LinkOk(i.itemlist[k]);
      assert i.itemlist[k] in Deeper(w, i) && i.itemlist[k] !in Deeper(w, i.itemlist[k]);
      [ShapeAt(w, i.itemlist[k])] + ShapesFrom(w, i, k + 1)
  }

  lemma OwnPieces(item: Item)
    ensures item.OwnWeight() == UnitWeight(item.ty, item.attributes) * Number(item)
  {}

  /** In a valid world the load of an item is its weight added up piece by piece. */
  lemma {:induction false} LoadIsDeep(w: World, s: Shape)
    requires w.Valid() && ShapeOf(s, w)
    ensures w.loads[s.item] == DeepWeight(s)
    decreases s, 0
  {
    assert w.LoadOk(s.item, 0);
    OwnPieces(s.item);
    LoadsAreDeep(w, s.item.itemlist, s.contents);
  }

  lemma {:induction false} LoadsAreDeep(w: World, list: seq<Item>, inside: seq<Shape>)
    requires w.Valid() && |inside| == |list|
    requires forall k :: 0 <= k < |inside| ==> inside[k].item == list[k] && ShapeOf(inside[k], w)
    ensures SumLoads(list, w.loads) == DeepSum(inside)
    decreases inside, 1
  {
    if inside != [] {
      LoadIsDeep(w, inside[0]);
      LoadsAreDeep(w, list[1..], inside[1..]);
      assert LoadsOf(list, w.loads)[1..] == LoadsOf(list[1..], w.loads);
    }
  }

  lemma DeepCache(own: int, deep: int, cached: int)
    requires cached == (own + deep - own) % WORD
    ensures cached == deep % WORD && (own + cached) % WORD == (own + deep) % WORD
  {
    WrapSum(deep, own, own);
  }

  /** The cached weight of a container is the weight of its contents at any depth, as a 32-bit number. */
  lemma CachedWeight(w: World, s: Shape)
    requires w.Valid() && ShapeOf(s, w)
    ensures s.item.totalWeight == DeepSum(s.contents) % WORD
    ensures s.item.GetWeight() == DeepWeight(s) % WORD
  {
    assert w.LoadOk(s.item, 0);
    LoadIsDeep(w, s);
    OwnPieces(s.item);
    DeepCache(s.item.OwnWeight(), DeepSum(s.contents), s.item.totalWeight);
  }

  /** A container that holds nothing but a plain stack weighs as much more as the pieces of the stack. */
  lemma OneStack(w: World, c: Item, stack: Item)
    requires w.Valid() && c in w.items && stack in w.items && c.itemlist == [stack] && stack.itemlist == []
    requires stack.ty.stackable && stack.count > 0 && !Has(stack.attributes, Weight)
    ensures c.totalWeight == stack.count * stack.ty.weight % WORD
  {
    var inner: Shape := Tree(stack, []);
    assert ShapeOf(inner, w) && ShapeOf(Tree(c, [inner]), w);
    CachedWeight(w, Tree(c, [inner]));
    assert DeepSum([inner]) == DeepWeight(inner) == stack.count * stack.ty.weight;
  }

  lemma Loose(w: World, c: Item, item: Item)
    requires w.Links() && c in w.items && c != item && c.parent == null
    ensures !w.OnChain(c, item)
  {}

  /** A new stack in a new bag. */
  method Fill(bag: ItemType, coin: ItemType, n: nat) returns (purse: Item, stack: Item, ghost w: World)
    requires coin.stackable && n > 0
    ensures fresh(w) && fresh(w.items) && w.Valid() && purse in w.items && stack in w.items
    ensures purse.itemlist == [stack] && stack.itemlist == [] && stack.ty == coin && stack.attributes == Absent
    ensures purse.totalWeight == n * coin.weight % WORD
  {
    w := new World();
    purse := new Item.Container(bag, 20, true, 1, Absent);
    Enter(purse, w);
    stack := new Item(coin, n, Absent);
    Enter(stack, w);
    Loose(w, purse, stack);
    InternalAddThing(purse, stack, w);
    OneStack(w, purse, stack);
  }

  /** A stack of coins is put into an empty bag, grows, shrinks, and goes. */
  method Purse(bag: ItemType, coin: ItemType, n: nat, more: nat, less: nat)
    returns (filled: nat, grown: nat, shrunk: nat, empty: nat)
    requires coin.stackable && !coin.fluid && 0 < less < more < 256 && n > 0
    ensures filled == n * coin.weight % WORD && grown == more * coin.weight % WORD
    ensures shrunk == (more - less) * coin.weight % WORD && empty == 0
  {
    ghost var w;
    var purse, stack;
    purse, stack, w := Fill(bag, coin, n);
    filled := purse.totalWeight;
    UpdateThing(purse, stack, coin, more, w);
    assert !Has(stack.attributes, Weight);
    OneStack(w, purse, stack);
    grown := purse.totalWeight;
    shrunk, empty := Spend(purse, stack, less, w);
  }

  method Spend(purse: Item, stack: Item, less: nat, ghost w: World) returns (shrunk: nat, empty: nat)
    requires w.Valid() && purse in w.items && stack in w.items && purse.itemlist == [stack] && stack.itemlist == []
    requires stack.ty.stackable && 0 < less < stack.count < 256 && !Has(stack.attributes, Weight) && purse != stack
    modifies w`loads, stack`ty, stack`attributes, stack`count, stack`parent, purse`itemlist, w.items`totalWeight
    ensures shrunk == (old(stack.count) - less) * old(stack.ty).weight % WORD && empty == 0
  {
    RemoveThing(purse, stack, less, w);
    OneStack(w, purse, stack);
    shrunk := purse.totalWeight;
    RemoveThing(purse, stack, stack.count, w);
    assert purse.itemlist == [] && ShapeOf(Tree(purse, []), w);
    CachedWeight(w, Tree(purse, []));
    empty := purse.totalWeight;
  }
}
