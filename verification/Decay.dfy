/**
 The decay timing wheel: four buckets visited in turn, one every 250 ms. It is
 shown to fire every item at a tick that is fixed when the item enters.
 */
module Decay {
  const INTERVAL := 250
  const BUCKETS := 4
  const ROUND := 1000  // INTERVAL * BUCKETS

  /** The next tick after `tick` at which bucket `b` is visited. */
  function NextVisit(tick: nat, b: nat): (t: nat)
    requires b < BUCKETS
    ensures tick < t <= tick + BUCKETS && t % BUCKETS == b
  {
    var next := (tick + 1) % BUCKETS;
    tick + 1 + if b >= next then b - next else b + BUCKETS - next
  }

  /** The tick at which an item with `duration` left decays, when its bucket is next visited at `visit`. */
  function DueAt(visit: nat, duration: nat): (t: nat)
    ensures t >= visit
  {
    if duration < ROUND then visit
    else visit + BUCKETS * (duration / ROUND - 1) + if duration % ROUND >= 875 then 1 else 0
  }

  /** What items of a type decay into, 0 for nothing, less when they do not decay; and after how many seconds. */
  datatype Kind = Kind(decayTo: int, decayTime: nat)

  /** The item types; none decays into itself or into an unknown one. */
  type Kinds = kinds: map<nat, Kind> | forall id :: id in kinds && kinds[id].decayTo > 0 ==>
                 kinds[id].decayTo != id && kinds[id].decayTo in kinds
    witness map[]

  class Item {
    var id: nat
    var unique: bool
    var removed: bool
    var duration: int
    var decaying: bool
    ghost var due: nat    // the tick at which it will decay
    ghost var place: int  // its bucket, or -1 when it is in none
  }

  /** What there is to know of an item before it is seen to: whether it can decay, when it is due, and its type. */
  datatype Past = Past(could: bool, due: nat, id: nat)

  /** The items in any of the buckets. */
  ghost function Queued(buckets: seq<seq<Item>>): (items: set<Item>) {
    set b, k | 0 <= b < |buckets| && 0 <= k < |buckets[b]| :: buckets[b][k]
  }

  class Game {
    const kinds: Kinds
    var decayItems: seq<seq<Item>>
    var toDecayItems: seq<Item>
    var lastBucket: nat
    ghost var tick: nat

    function KindOf(id: nat): Kind {
      if id in kinds then kinds[id] else Kind(-1, 0)
    }

    predicate CanDecay(item: Item)
      reads item`id, item`unique, item`removed
    {
      !item.removed && KindOf(item.id).decayTo >= 0 && KindOf(item.id).decayTime != 0 && !item.unique
    }

    ghost function PastOf(item: Item): Past
      reads item
    {
      Past(CanDecay(item), item.due, item.id)
    }

    ghost predicate Waits(i: Item, b: nat, visit: nat)
      reads i
    {
      i.place == b && i.decaying && i.duration > 0 && i.due == DueAt(visit, i.duration)
    }

    ghost predicate BucketOk(list: seq<Item>, b: nat, visit: nat)
      reads list
    {
      && (forall k :: 0 <= k < |list| ==> Waits(list[k], b, visit))
      && forall j, k :: 0 <= j < k < |list| ==> list[j] != list[k]
    }

    ghost predicate PendingOk()
      reads this, toDecayItems
    {
      && (forall k :: 0 <= k < |toDecayItems| ==>
            toDecayItems[k].place == BUCKETS && toDecayItems[k].decaying && toDecayItems[k].duration > 0)
      && forall j, k :: 0 <= j < k < |toDecayItems| ==> toDecayItems[j] != toDecayItems[k]
    }

    /** Buckets other than `bucket` are in order for `tick`. */
    ghost predicate OthersOk(bucket: nat)
      reads this, Items()
    {
      |decayItems| == BUCKETS &&
      forall b :: 0 <= b < BUCKETS && b != bucket ==> BucketOk(decayItems[b], b, NextVisit(tick, b))
    }

    ghost function Items(): (items: set<Item>)
      reads this
    {
      Queued(decayItems)
    }

    ghost predicate Valid()
      reads this, Items(), toDecayItems
    {
      && |decayItems| == BUCKETS && lastBucket == tick % BUCKETS && PendingOk()
      && forall b :: 0 <= b < BUCKETS ==> BucketOk(decayItems[b], b, NextVisit(tick, b))
    }

    /** In the middle of a visit: the first `it` items of the bucket have been seen to at this tick. */
    ghost predicate Visiting(bucket: nat, it: nat)
      reads this, Items(), toDecayItems
    {
      && OthersOk(bucket) && PendingOk() && bucket == tick % BUCKETS
      && var list := decayItems[bucket];
         && it <= |list|
         && (forall k :: 0 <= k < it ==> Waits(list[k], bucket, tick + BUCKETS))
         && (forall k :: it <= k < |list| ==> Waits(list[k], bucket, tick))
         && forall j, k :: 0 <= j < k < |list| ==> list[j] != list[k]
    }

    /** Queues an item whose duration is left to run; decays it at once otherwise. */
    method StartDecay(item: Item)
      requires PendingOk()
      modifies this`toDecayItems, item
      ensures PendingOk() && item.due == old(item.due)
      ensures !old(CanDecay(item)) || old(item.decaying) ==> toDecayItems == old(toDecayItems) && unchanged(item)
      ensures old(item.removed || item.unique || KindOf(item.id).decayTo < 0 || KindOf(item.id).decayTime == 0) ==>
                toDecayItems == old(toDecayItems) && unchanged(item)
      ensures old(CanDecay(item) && !item.decaying && item.duration > 0) ==>
                && toDecayItems == [item] + old(toDecayItems)
                && item.duration == old(item.duration) && item.place == BUCKETS && item.id == old(item.id) && CanDecay(item)
      ensures old(CanDecay(item) && !item.decaying && item.duration <= 0) ==>
                Became(item, old(item.id)) && toDecayItems == (if CanDecay(item) then [item] else []) + old(toDecayItems)
      decreases if CanDecay(item) && item.duration <= 0 then 2 else 0
    {
      if !CanDecay(item) || item.decaying {
        return;
      }
      if item.duration > 0 {
        item.decaying := true;
        item.place := BUCKETS;
        toDecayItems := [item] + toDecayItems;
      } else {
        InternalDecayItem(item);
      }
    }

    /**
     What has become of an item of type `id` that has decayed: it is gone, or of the type
     that follows, which decays in turn from its whole time or does not decay.
     */
    ghost predicate Became(item: Item, id: nat)
      reads item
    {
      if KindOf(id).decayTo <= 0 then item.removed && item.id == id
      else
        var next := KindOf(id).decayTo;
        && item.id == next && !item.removed
        && (CanDecay(item) <==> KindOf(next).decayTo >= 0 && KindOf(next).decayTime > 0)
        && (CanDecay(item) ==> item.duration == 1000 * KindOf(next).decayTime)
    }

    /** Gives the item another type; its time starts afresh, or ends when it has none. */
    method TransformItem(item: Item, newId: nat)
      requires newId in kinds && newId != item.id
      modifies item`id, item`duration, item`decaying
      ensures item.id == newId
      ensures kinds[newId].decayTime > 0 ==> item.duration == 1000 * kinds[newId].decayTime && !item.decaying
    {
      item.id := newId;
      var newDuration := KindOf(newId).decayTime * 1000;
      if newDuration == 0 && KindOf(newId).decayTo < 0 {
        item.decaying := false;
        item.duration := 0;
      }
      if newDuration > 0 {
        item.decaying := false;
        item.duration := newDuration;
      }
    }

    /** The item becomes its successor, whose decay starts afresh, or is removed. */
    method InternalDecayItem(item: Item)
      requires PendingOk() && item !in toDecayItems && CanDecay(item)
      modifies this`toDecayItems, item
      ensures PendingOk() && item.due == old(item.due) && Became(item, old(item.id))
      ensures toDecayItems == (if CanDecay(item) then [item] else []) + old(toDecayItems)
      decreases 1
    {
      item.place := -1;
      var decayTo := KindOf(item.id).decayTo;
      if decayTo != 0 {
        TransformItem(item, decayTo);
        StartDecay(item);
      } else {
        item.removed := true;
      }
    }

    ghost predicate Free(item: Item)
      reads this
    {
      item !in Items() && item !in toDecayItems
    }

    method Erase(bucket: nat, it: nat) returns (item: Item)
      requires Visiting(bucket, it) && it < |decayItems[bucket]|
      modifies this`decayItems
      ensures item == old(decayItems[bucket][it]) && Free(item)
      ensures Visiting(bucket, it) && decayItems[bucket][it..] == old(decayItems[bucket][it + 1..])
      ensures Items() == old(Items()) - {item}
    {
      var list := decayItems[bucket];
      item := list[it];
      decayItems := decayItems[bucket := list[..it] + list[it + 1..]];
      StillThere(old(decayItems), bucket, it);
    }

    method PushBack(bucket: nat, it: nat, newBucket: nat, item: Item)
      requires Visiting(bucket, it) && Free(item)
      requires newBucket < BUCKETS && newBucket != bucket && Waits(item, newBucket, NextVisit(tick, newBucket))
      modifies this`decayItems
      ensures Visiting(bucket, it) && decayItems[bucket] == old(decayItems[bucket])
      ensures Items() == old(Items()) + {item}
    {
      var list := decayItems[newBucket];
      assert BucketOk(list, newBucket, NextVisit(tick, newBucket));
      assert forall k :: 0 <= k < |list| ==> list[k] in Items();
      decayItems := decayItems[newBucket := list + [item]];
      AlsoThere(old(decayItems), newBucket, item);
    }

    /** Takes an item off the list and lets it decay. */
    method Fire(bucket: nat, it: nat, decreaseTime: int)
      requires Visiting(bucket, it) && it < |decayItems[bucket]| && CanDecay(decayItems[bucket][it])
      modifies this`decayItems, this`toDecayItems, decayItems[bucket][it]
      ensures Visiting(bucket, it) && decayItems[bucket][it..] == old(decayItems[bucket][it + 1..])
      ensures var x := old(decayItems[bucket][it]);
              && Items() == old(Items()) - {x} && Became(x, old(x.id))
              && toDecayItems == (if CanDecay(x) then [x] else []) + old(toDecayItems)
    {
      var item := Erase(bucket, it);
      item.duration := item.duration - decreaseTime;
      InternalDecayItem(item);
    }

    /** Takes an item off the list and queues it in the bucket visited next. */
    method MoveOn(bucket: nat, it: nat, decreaseTime: int, newBucket: nat)
      requires Visiting(bucket, it) && it < |decayItems[bucket]| && newBucket == (tick + 1) % BUCKETS
      requires var x := decayItems[bucket][it];
               x.duration > decreaseTime && x.due == DueAt(tick + 1, x.duration - decreaseTime)
      modifies this`decayItems, decayItems[bucket][it]
      ensures Visiting(bucket, it) && decayItems[bucket][it..] == old(decayItems[bucket][it + 1..])
      ensures var x := old(decayItems[bucket][it]);
              x.place == newBucket && x.due == old(x.due) && x.id == old(x.id) && CanDecay(x) == old(CanDecay(x))
      ensures Items() == old(Items())
    {
      var item := Erase(bucket, it);
      item.duration := item.duration - decreaseTime;
      item.place := newBucket;
      NextBucket(tick, newBucket);
      PushBack(bucket, it, newBucket, item);
    }

    method StayOn(bucket: nat, it: nat, item: Item, decreaseTime: int)
      requires Visiting(bucket, it) && it < |decayItems[bucket]| && item == decayItems[bucket][it]
      requires item.duration > decreaseTime && item.due == DueAt(tick + BUCKETS, item.duration - decreaseTime)
      modifies item`duration
      ensures Visiting(bucket, it + 1)
    {
      forall b, k | 0 <= b < BUCKETS && b != bucket && 0 <= k < |decayItems[b]| ensures decayItems[b][k] != item {
        assert BucketOk(decayItems[b], b, NextVisit(tick, b)) && decayItems[b][k].place == b;
      }
      assert forall k :: 0 <= k < |toDecayItems| ==> toDecayItems[k].place == BUCKETS;
      item.duration := item.duration - decreaseTime;
    }

    /** An item of type `id` has been seen to at this tick: it fires exactly when it was due and could decay. */
    ghost predicate Seen(x: Item, was: Past, fires: bool)
      reads this, x
    {
      && (fires <==> was.could && was.due == tick)
      && (fires ==> Became(x, was.id))
      && (!fires ==> x.id == was.id && CanDecay(x) == was.could)
      && (was.could && !fires ==> x.due == was.due > tick)
    }

    /** Takes an item that cannot decay any more off the list. */
    method Drop(bucket: nat, it: nat)
      requires Visiting(bucket, it) && it < |decayItems[bucket]|
      modifies this`decayItems, decayItems[bucket][it]
      ensures Visiting(bucket, it) && decayItems[bucket][it..] == old(decayItems[bucket][it + 1..])
      ensures var x := old(decayItems[bucket][it]);
              && x.place == -1 && !x.decaying && x.id == old(x.id) && CanDecay(x) == old(CanDecay(x))
              && Items() == old(Items()) - {x}
    {
      var item := Erase(bucket, it);
      item.decaying := false;
      item.place := -1;
    }

    /**
     Sees to one item of the visited bucket; `fires` when it decays now. It is
     taken off the list before its fields change, which nothing observes.
     */
    method VisitItem(bucket: nat, it: nat) returns (it': nat, fires: bool)
      requires Visiting(bucket, it) && it < |decayItems[bucket]|
      modifies this`decayItems, this`toDecayItems, decayItems[bucket][it]
      ensures Visiting(bucket, it') && it' <= |decayItems[bucket]|
      ensures decayItems[bucket][it'..] == old(decayItems[bucket][it + 1..])
      ensures var x := old(decayItems[bucket][it]);
              && Seen(x, old(PastOf(x)), fires)
              && (!old(CanDecay(x)) ==> x.place == -1 && !x.decaying)
              && Items() == old(Items()) - (if old(CanDecay(x)) && !fires then {} else {x})
              && toDecayItems == (if fires && CanDecay(x) then [x] else []) + old(toDecayItems)
    {
      if CanDecay(decayItems[bucket][it]) {
        it', fires := RunDown(bucket, it);
      } else {
        Drop(bucket, it);
        assert [] + toDecayItems == toDecayItems;
        it', fires := it, false;
      }
    }

    /** What the time left after a visit says of when an item is due. */
    lemma TimeTaken(item: Item, bucket: nat)
      requires Waits(item, bucket, tick)
      ensures var left := item.duration - if item.duration < ROUND then item.duration else ROUND;
              && (left <= 0 ==> item.due == tick)
              && (0 < left < ROUND ==> (left + INTERVAL / 2) / 1000 == if item.due == tick then 0 else 1)
              && (0 < left < ROUND && item.due != tick ==> item.due == tick + 1 == DueAt(tick + 1, left))
              && (left >= ROUND ==> item.due == DueAt(tick + BUCKETS, left) > tick)
    {
      VisitKeepsDue(tick, item.duration);
    }

    /** The same for an item that can decay. */
    method RunDown(bucket: nat, it: nat) returns (it': nat, fires: bool)
      requires Visiting(bucket, it) && it < |decayItems[bucket]| && CanDecay(decayItems[bucket][it])
      modifies this`decayItems, this`toDecayItems, decayItems[bucket][it]
      ensures Visiting(bucket, it') && it' <= |decayItems[bucket]|
      ensures decayItems[bucket][it'..] == old(decayItems[bucket][it + 1..])
      ensures var x := old(decayItems[bucket][it]);
              && Seen(x, old(PastOf(x)), fires)
              && Items() == old(Items()) - (if fires then {x} else {})
              && toDecayItems == (if fires && CanDecay(x) then [x] else []) + old(toDecayItems)
    {
      var item := decayItems[bucket][it];
      TimeTaken(item, bucket);
      it', fires := it, false;
      assert [] + toDecayItems == toDecayItems;
      var decreaseTime := if item.duration < ROUND then item.duration else ROUND;
      var duration := item.duration - decreaseTime;
      if duration <= 0 {
        Fire(bucket, it, decreaseTime);
        fires := true;
      } else if duration < ROUND {
        fires := Requeue(bucket, it, decreaseTime, duration);
      } else {
        StayOn(bucket, it, item, decreaseTime);
        it' := it + 1;
      }
    }

    /** Less than a round is left: the item fires now if that is nearest, or else in a later bucket. */
    method Requeue(bucket: nat, it: nat, decreaseTime: int, duration: int) returns (fires: bool)
      requires Visiting(bucket, it) && it < |decayItems[bucket]| && CanDecay(decayItems[bucket][it])
      requires 0 < duration == decayItems[bucket][it].duration - decreaseTime < ROUND
      requires (duration + INTERVAL / 2) / 1000 == (if decayItems[bucket][it].due == tick then 0 else 1)
      requires decayItems[bucket][it].due != tick ==> decayItems[bucket][it].due == tick + 1 == DueAt(tick + 1, duration)
      modifies this`decayItems, this`toDecayItems, decayItems[bucket][it]
      ensures Visiting(bucket, it) && decayItems[bucket][it..] == old(decayItems[bucket][it + 1..])
      ensures var x := old(decayItems[bucket][it]);
              && Seen(x, old(PastOf(x)), fires)
              && Items() == old(Items()) - (if fires then {x} else {})
              && toDecayItems == (if fires && CanDecay(x) then [x] else []) + old(toDecayItems)
    {
      fires := false;
      assert [] + toDecayItems == toDecayItems;
      var newBucket := (bucket + (duration + INTERVAL / 2) / 1000) % BUCKETS;
      if newBucket == bucket {
        Fire(bucket, it, decreaseTime);
        fires := true;
      } else {
        MoveOn(bucket, it, decreaseTime, newBucket);
      }
    }

    /**
     What has become of an item once its list has been visited, with `items` in the buckets and
     `waiting` to be queued: what fired waits again exactly when it still decays.
     */
    ghost predicate Settled(x: Item, was: Past, fired: set<Item>, items: set<Item>, waiting: seq<Item>)
      reads this, x
    {
      && Seen(x, was, x in fired)
      && (x in fired ==> x !in items) && (was.could && x !in fired ==> x in items)
      && (x in waiting <==> x in fired && CanDecay(x))
    }

    lemma NewlySettled(x: Item, was: Past, fires: bool, fired: set<Item>, items: set<Item>, items': set<Item>,
                       waiting: seq<Item>, waiting': seq<Item>)
      requires Seen(x, was, fires) && x in items && x !in waiting && x !in fired
      requires items' == items - if was.could && !fires then {} else {x}
      requires waiting' == (if fires && CanDecay(x) then [x] else []) + waiting
      ensures Settled(x, was, if fires then fired + {x} else fired, items', waiting')
    {}

    /** Seeing to another item leaves it at that. */
    lemma StillSettled(x: Item, was: Past, item: Item, fires: bool, fired: set<Item>, items: set<Item>, items': set<Item>,
                       waiting: seq<Item>, waiting': seq<Item>)
      requires Settled(x, was, fired, items, waiting) && x != item
      requires items' == items || items' == items - {item}
      requires waiting' == waiting || waiting' == [item] + waiting
      ensures Settled(x, was, if fires then fired + {item} else fired, items', waiting')
    {}

    /**
     What the visit of a list does to the items in buckets and to those waiting: only items of the
     list leave the buckets or fire, and only what has fired starts to wait.
     */
    ghost predicate Swept(items0: set<Item>, items1: set<Item>, waiting0: seq<Item>, waiting1: seq<Item>,
                          list: seq<Item>, fired: set<Item>)
    {
      && items1 <= items0 && (forall x :: x in items0 && x !in list ==> x in items1)
      && (forall x :: x in fired ==> x in list)
      && (forall x :: x in waiting0 ==> x in waiting1) && (forall x :: x in waiting1 ==> x in waiting0 || x in fired)
    }

    /** Visits the bucket from end to end. */
    method VisitBucket(bucket: nat) returns (fired: set<Item>)
      requires Visiting(bucket, 0) && forall x :: x in toDecayItems ==> x !in decayItems[bucket]
      modifies this`decayItems, this`toDecayItems, decayItems[bucket]
      ensures |decayItems| == BUCKETS && Visiting(bucket, |decayItems[bucket]|)
      ensures forall x :: x in old(decayItems[bucket]) ==> Settled(x, old(PastOf(x)), fired, Items(), toDecayItems)
      ensures Swept(old(Items()), Items(), old(toDecayItems), toDecayItems, old(decayItems[bucket]), fired)
    {
      ghost var list, n: nat, items, waiting := decayItems[bucket], 0, Items(), toDecayItems;
      ghost var was := map x | x in list :: PastOf(x);
      var it: nat := 0;
      fired := {};
      assert list[0..] == list;
      while it < |decayItems[bucket]|
        invariant |decayItems| == BUCKETS && Visiting(bucket, it)
        invariant Sweeping(bucket, it, list, n, was, fired, items, waiting)
        decreases |list| - n
      {
        it, fired := VisitNext(bucket, it, list, n, was, fired, items, waiting);
        n := n + 1;
      }
    }

    /** In the middle of the visit of a list: the first `n` of its items have been seen to. */
    ghost predicate Sweeping(bucket: nat, it: nat, list: seq<Item>, n: nat, was: map<Item, Past>, fired: set<Item>,
                             items: set<Item>, waiting: seq<Item>)
      reads this, list
    {
      && |decayItems| == BUCKETS && bucket < BUCKETS && it <= |decayItems[bucket]| && n <= |list|
      && decayItems[bucket][it..] == list[n..] && (forall j, k :: 0 <= j < k < |list| ==> list[j] != list[k])
      && (forall x :: x in list ==> x in was && x !in waiting)
      && (forall k :: n <= k < |list| ==> PastOf(list[k]) == was[list[k]] && list[k] !in fired)
      && (forall k :: 0 <= k < n ==> Settled(list[k], was[list[k]], fired, Items(), toDecayItems))
      && Swept(items, Items(), waiting, toDecayItems, list, fired)
    }

    method VisitNext(bucket: nat, it: nat, ghost list: seq<Item>, ghost n: nat, ghost was: map<Item, Past>,
                     fired: set<Item>, ghost items: set<Item>, ghost waiting: seq<Item>)
      returns (it': nat, fired': set<Item>)
      requires Visiting(bucket, it) && it < |decayItems[bucket]|
      requires Sweeping(bucket, it, list, n, was, fired, items, waiting)
      modifies this`decayItems, this`toDecayItems, list
      ensures |decayItems| == BUCKETS && n < |list| && Visiting(bucket, it')
      ensures Sweeping(bucket, it', list, n + 1, was, fired', items, waiting)
    {
      ghost var items1, waiting1 := Items(), toDecayItems;
      var item := decayItems[bucket][it];
      assert item == list[n..][0] == list[n] && item in items1;
      NotYet(items, items1, waiting, waiting1, list, fired, item);
      var fires;
      it', fires := VisitItem(bucket, it);
      fired' := if fires then fired + {item} else fired;
      NewlySettled(item, was[item], fires, fired, items1, Items(), waiting1, toDecayItems);
      forall k | 0 <= k < n ensures Settled(list[k], was[list[k]], fired', Items(), toDecayItems) {
        StillSettled(list[k], was[list[k]], item, fires, fired, items1, Items(), waiting1, toDecayItems);
      }
      SweptOn(items, items1, Items(), waiting, waiting1, toDecayItems, list, fired, item, fires);
    }

    lemma NotYet(items0: set<Item>, items1: set<Item>, waiting0: seq<Item>, waiting1: seq<Item>, list: seq<Item>,
                 fired: set<Item>, x: Item)
      requires Swept(items0, items1, waiting0, waiting1, list, fired) && x !in waiting0 && x !in fired
      ensures x !in waiting1
    {}

    lemma SweptOn(items0: set<Item>, items1: set<Item>, items2: set<Item>, waiting0: seq<Item>, waiting1: seq<Item>,
                  waiting2: seq<Item>, list: seq<Item>, fired: set<Item>, x: Item, fires: bool)
      requires Swept(items0, items1, waiting0, waiting1, list, fired) && x in list
      requires (items2 == items1 || items2 == items1 - {x}) && (fires ==> items2 == items1 - {x})
      requires waiting2 == waiting1 || (fires && waiting2 == [x] + waiting1)
      ensures Swept(items0, items2, waiting0, waiting2, list, if fires then fired + {x} else fired)
    {}

    /** Moves the item at the head of the waiting list into the bucket its duration calls for. */
    method Enqueue(item: Item)
      requires Valid() && toDecayItems != [] && item == toDecayItems[0]
      modifies this`decayItems, this`toDecayItems, item`due, item`place
      ensures Valid() && toDecayItems == old(toDecayItems[1..])
      ensures Items() == old(Items()) + {item} && item.due == tick + Delay(item.duration)
    {
      var bucket := if item.duration >= ROUND then lastBucket else (lastBucket + 1 + item.duration / 1000) % BUCKETS;
      EntryBucket(tick, item.duration);
      NotQueued(item);
      toDecayItems := toDecayItems[1..];
      item.place := bucket;
      item.due := tick + Delay(item.duration);
      Append(bucket, item);
    }

    method Append(bucket: nat, item: Item)
      requires Valid() && Free(item) && bucket < BUCKETS && Waits(item, bucket, NextVisit(tick, bucket))
      modifies this`decayItems
      ensures Valid() && Items() == old(Items()) + {item}
    {
      var list := decayItems[bucket];
      assert BucketOk(list, bucket, NextVisit(tick, bucket));
      assert forall k :: 0 <= k < |list| ==> list[k] in Items();
      decayItems := decayItems[bucket := list + [item]];
      AlsoThere(old(decayItems), bucket, item);
    }

    lemma NotQueued(item: Item)
      requires Valid() && item.place == BUCKETS
      ensures item !in Items()
    {
      forall b, k | 0 <= b < BUCKETS && 0 <= k < |decayItems[b]| ensures decayItems[b][k] != item {
        assert BucketOk(decayItems[b], b, NextVisit(tick, b)) && decayItems[b][k].place == b;
      }
    }

    /** Empties the waiting list into the buckets. */
    method Cleanup()
      requires Valid()
      modifies this`decayItems, this`toDecayItems, toDecayItems`due, toDecayItems`place
      ensures Valid() && toDecayItems == [] && Items() == old(Items()) + set x | x in old(toDecayItems)
      ensures forall x :: x in old(toDecayItems) ==>
                x.duration == old(x.duration) > 0 && x.due == tick + Delay(x.duration)
    {
      ghost var waiting := toDecayItems;
      ghost var n: nat := 0;
      while toDecayItems != []
        invariant Valid() && n <= |waiting| && toDecayItems == waiting[n..]
        invariant Items() == old(Items()) + set x | x in waiting[..n]
        invariant forall k :: 0 <= k < |waiting| ==>
                    waiting[k].duration == old(waiting[k].duration) > 0
        invariant forall k :: 0 <= k < n ==> waiting[k].due == tick + Delay(waiting[k].duration)
      {
        Enqueue(toDecayItems[0]);
        assert waiting[..n + 1] == waiting[..n] + [waiting[n]];
        n := n + 1;
      }
    }

    /** The clock moves on to the next bucket: all items in it now are to be seen to at this tick. */
    ghost method Turn(bucket: nat)
      requires Valid() && bucket == (lastBucket + 1) % BUCKETS
      modifies this`tick
      ensures tick == old(tick) + 1 && Visiting(bucket, 0)
      ensures |decayItems| == BUCKETS && bucket < BUCKETS && forall x :: x in Items() && x !in decayItems[bucket] ==> x.due > tick
    {
      NextVisitNow(tick);
      forall b | 0 <= b < BUCKETS && b != bucket ensures NextVisit(tick, b) == NextVisit(tick + 1, b) {
        NextVisitSame(tick, b);
      }
      tick := tick + 1;
      DueLater(bucket);
    }

    lemma DueLater(bucket: nat)
      requires OthersOk(bucket)
      ensures forall x :: x in Items() && (bucket < BUCKETS ==> x !in decayItems[bucket]) ==> x.due > tick
    {
      forall x | x in Items() && (bucket < BUCKETS ==> x !in decayItems[bucket]) ensures x.due > tick {
        var b, k :| 0 <= b < BUCKETS && 0 <= k < |decayItems[b]| && decayItems[b][k] == x;
        assert BucketOk(decayItems[b], b, NextVisit(tick, b)) && Waits(decayItems[b][k], b, NextVisit(tick, b));
      }
    }

    /** The first half of a tick: the bucket whose turn it is is visited. */
    method Visit() returns (fired: set<Item>)
      requires Valid()
      modifies this, Items()
      ensures Valid() && tick == old(tick) + 1
      ensures forall x :: x in old(Items()) ==> Settled(x, old(PastOf(x)), fired, Items(), toDecayItems)
      ensures fired <= old(Items()) && Items() <= old(Items())
      ensures forall x :: x in old(toDecayItems) ==> x in toDecayItems
      ensures forall x :: x in toDecayItems ==> x in old(toDecayItems) || x in fired
    {
      var bucket := (lastBucket + 1) % BUCKETS;
      Apart();
      Turn(bucket);
      ghost var list := decayItems[bucket];
      fired := VisitBucket(bucket);
      lastBucket := bucket;
      Visited();
      forall x | x in old(Items()) ensures Settled(x, old(PastOf(x)), fired, Items(), toDecayItems) {
        if x !in list {
          assert x in Items() && x !in fired && x.due == old(x.due) > tick;
        }
      }
    }

    /** An item is in at most one bucket, once, and then not waiting. */
    lemma AtMostOneBucket(b: nat, j: nat, c: nat, k: nat)
      requires Valid() && b < BUCKETS && c < BUCKETS && j < |decayItems[b]| && k < |decayItems[c]|
      requires decayItems[b][j] == decayItems[c][k]
      ensures b == c && j == k && decayItems[b][j] !in toDecayItems
    {
      assert BucketOk(decayItems[b], b, NextVisit(tick, b)) && BucketOk(decayItems[c], c, NextVisit(tick, c));
    }

    lemma Visited()
      requires |decayItems| == BUCKETS && lastBucket < BUCKETS && Visiting(lastBucket, |decayItems[lastBucket]|)
      ensures Valid()
    {
      NextVisitNow(tick);
    }

    /**
     What a tick has done to an item of type `id` that was in a bucket: it fired exactly when it was
     due and could decay. Fired, it is gone, or of the type that follows, and back in a bucket exactly
     when that decays, due after its whole time.
     */
    ghost predicate Ticked(x: Item, was: Past, fired: set<Item>)
      reads this, x
    {
      && (x in fired <==> was.could && was.due == tick)
      && (x in fired ==> Became(x, was.id) && (x in Items() <==> CanDecay(x)))
      && (x in fired && CanDecay(x) ==> x.due == tick + Delay(x.duration))
      && (x !in fired ==> x.id == was.id && CanDecay(x) == was.could)
      && (was.could && x !in fired ==> x in Items() && x.due == was.due > tick)
    }

    /**
     One tick of the wheel. Exactly the queued items that are due now and can
     still decay fire; every other one that can decay keeps its due tick, which
     is still to come; and the items that were waiting get theirs.
     */
    method CheckDecay() returns (fired: set<Item>)
      requires Valid()
      modifies this, Items(), toDecayItems
      ensures Valid() && toDecayItems == [] && tick == old(tick) + 1
      ensures forall x :: x in old(Items()) ==> Ticked(x, old(PastOf(x)), fired)
      ensures forall x :: x in old(toDecayItems) ==>
                && x !in fired && x in Items() && x.due == tick + Delay(old(x.duration))
                && x.id == old(x.id) && CanDecay(x) == old(CanDecay(x))
      ensures Items() <= old(Items()) + set x | x in old(toDecayItems)
    {
      Apart();
      fired := Visit();
      Apart();
      Cleanup();
    }

    /** Items whose decay starts between two ticks. */
    method Admit(items: seq<Item>)
      requires Valid()
      modifies this`toDecayItems, items
      ensures Valid()
      ensures forall x :: x in old(Items()) ==> unchanged(x)
      ensures forall x :: x in toDecayItems ==> x in old(toDecayItems) || x in items
    {
      for k := 0 to |items|
        invariant Valid()
        invariant forall x :: x in old(Items()) ==> unchanged(x)
        invariant forall x :: x in toDecayItems ==> x in old(toDecayItems) || x in items
      {
        AllDecaying();
        StartDecay(items[k]);
      }
    }

    lemma AllDecaying()
      requires Valid()
      ensures forall x :: x in Items() || x in toDecayItems ==> x.decaying
    {
      forall b, k | 0 <= b < BUCKETS && 0 <= k < |decayItems[b]| ensures decayItems[b][k].decaying {
        assert BucketOk(decayItems[b], b, NextVisit(tick, b)) && Waits(decayItems[b][k], b, NextVisit(tick, b));
      }
    }

    /** The item fires at the last of the ticks logged and at no earlier one. */
    ghost predicate FiresLast(item: Item, log: seq<set<Item>>) {
      && log != [] && item in log[|log| - 1]
      && forall k :: 0 <= k < |log| - 1 ==> item !in log[k]
    }

    /**
     Whatever else starts to decay meanwhile, a queued item that can decay first
     fires at the very tick it was given when it was queued. The log holds what
     fired, tick by tick. What it has become is queued again if it decays.
     */
    method AwaitDecay(item: Item, arrivals: seq<seq<Item>>, ghost world: set<Item>) returns (log: seq<set<Item>>)
      requires Valid() && item in Items() && CanDecay(item)
      requires Within(arrivals, world)
      modifies this, world
      ensures Valid() && tick == old(item.due) && |log| == old(item.due) - old(tick) && FiresLast(item, log)
      ensures Within(arrivals, world) && toDecayItems == [] && Became(item, old(item.id))
      ensures if CanDecay(item) then item in Items() && item.due == tick + Delay(item.duration) else item !in Items()
    {
      DueLater(BUCKETS);
      log := [];
      while true
        invariant Valid() && item in Items() && CanDecay(item) && item.due == old(item.due) > tick && item.id == old(item.id)
        invariant |log| == tick - old(tick) && forall k :: 0 <= k < |log| ==> item !in log[k]
        invariant Within(arrivals, world)
        decreases item.due - tick
      {
        if |log| < |arrivals| {
          Admit(arrivals[|log|]);
        }
        var fired := CheckDecay();
        log := log + [fired];
        if item in fired {
          return;
        }
      }
    }

    /** Whatever is queued, waits, or will yet start to decay is one of `world`. */
    ghost predicate Within(arrivals: seq<seq<Item>>, world: set<Item>)
      reads this
    {
      && Items() <= world && (forall x :: x in toDecayItems ==> x in world)
      && forall k, x :: 0 <= k < |arrivals| && x in arrivals[k] ==> x in world
    }

    /**
     From start to end: an item whose decay starts with some duration left fires
     `Delay` ticks after it was queued, and at no tick on the way.
     */
    method DecayFromStart(item: Item, arrivals: seq<seq<Item>>, ghost world: set<Item>) returns (log: seq<set<Item>>)
      requires Valid() && CanDecay(item) && !item.decaying && item.duration > 0
      requires item in world && Within(arrivals, world)
      modifies this, world
      ensures Valid() && tick == old(tick) + Delay(old(item.duration))
      ensures |log| == Delay(old(item.duration)) && FiresLast(item, log)
      ensures Within(arrivals, world) && toDecayItems == [] && Became(item, old(item.id))
      ensures if CanDecay(item) then item in Items() && item.due == tick + Delay(item.duration) else item !in Items()
    {
      AllDecaying();
      StartDecay(item);
      assert item == toDecayItems[0];
      Cleanup();
      log := AwaitDecay(item, arrivals, world);
    }

    predicate Decays(id: nat) {
      KindOf(id).decayTo >= 0 && KindOf(id).decayTime > 0
    }

    /** The decaying types an item goes through, one after the other, until it is gone or of a type that stays. */
    predicate Life(path: seq<nat>) {
      && path != [] && (forall k :: 0 <= k < |path| ==> Decays(path[k]))
      && (forall k :: 0 < k < |path| ==> KindOf(path[k - 1]).decayTo == path[k] > 0)
      && var last := KindOf(path[|path| - 1]).decayTo;
         last == 0 || !Decays(last)
    }

    /** The ticks that the types last, each from its whole time. */
    function Lifetime(path: seq<nat>): nat {
      if path == [] then 0 else Lifetime(path[..|path| - 1]) + Delay(1000 * KindOf(path[|path| - 1]).decayTime)
    }

    lemma LifetimeStep(path: seq<nat>, k: nat)
      requires 1 <= k < |path|
      ensures Lifetime(path[1..][..k]) == Lifetime(path[1..][..k - 1]) + Delay(1000 * KindOf(path[k]).decayTime)
    {
      var part := path[1..][..k];
      assert part[..k - 1] == path[1..][..k - 1] && part[k - 1] == path[k];
    }

    /** How often the item has fired. */
    ghost function Firings(item: Item, log: seq<set<Item>>): nat {
      if log == [] then 0 else Firings(item, log[..|log| - 1]) + if item in log[|log| - 1] then 1 else 0
    }

    /**
     A whole life: the item fires once for each of its types, each of which lasts its whole
     time, and at the end it is gone, or of the type that stays, and in no bucket.
     */
    method LiveOut(item: Item, path: seq<nat>, arrivals: seq<seq<Item>>, ghost world: set<Item>)
      returns (log: seq<set<Item>>)
      requires Valid() && item in Items() && CanDecay(item) && Life(path) && path[0] == item.id
      requires Within(arrivals, world)
      modifies this, world
      ensures Valid() && tick == old(item.due) + Lifetime(path[1..]) && |log| == tick - old(tick)
      ensures Firings(item, log) == |path| && Became(item, path[|path| - 1])
      ensures !CanDecay(item) && item !in Items()
    {
      log := AwaitDecay(item, arrivals, world);
      FiringsOnce(item, log);
      assert path[1..][..0] == [];
      for k := 1 to |path|
        invariant Valid() && Within(arrivals, world) && toDecayItems == [] && Became(item, path[k - 1])
        invariant tick == old(item.due) + Lifetime(path[1..][..k - 1]) && |log| == tick - old(tick)
        invariant Firings(item, log) == k
        invariant if CanDecay(item) then item in Items() && item.due == tick + Delay(item.duration) else item !in Items()
      {
        assert item.id == path[k] && CanDecay(item);
        LifetimeStep(path, k);
        var more := AwaitDecay(item, if |log| < |arrivals| then arrivals[|log|..] else [], world);
        FiringsOnce(item, more);
        FiringsConcat(item, log, more);
        log := log + more;
      }
      assert path[1..][..|path| - 1] == path[1..];
    }

    lemma {:induction false} FiringsConcat(item: Item, a: seq<set<Item>>, b: seq<set<Item>>)
      ensures Firings(item, a + b) == Firings(item, a) + Firings(item, b)
    {
      if b == [] {
        assert a + b == a;
      } else {
        var n := |b| - 1;
        assert (a + b)[..|a| + n] == a + b[..n];
        FiringsConcat(item, a, b[..n]);
      }
    }

    lemma {:induction false} NoFirings(item: Item, log: seq<set<Item>>)
      requires forall k :: 0 <= k < |log| ==> item !in log[k]
      ensures Firings(item, log) == 0
    {
      if log != [] {
        NoFirings(item, log[..|log| - 1]);
      }
    }

    lemma FiringsOnce(item: Item, log: seq<set<Item>>)
      requires FiresLast(item, log)
      ensures Firings(item, log) == 1
    {
      NoFirings(item, log[..|log| - 1]);
    }

    /** No item is both queued and waiting. */
    lemma Apart()
      requires Valid()
      ensures forall x :: x in toDecayItems ==> x !in Items()
      ensures forall b, x :: 0 <= b < BUCKETS && x in toDecayItems ==> x !in decayItems[b]
    {
      forall x | x in toDecayItems ensures x !in Items() {
        NotQueued(x);
      }
    }
  }

  lemma NextBucket(tick: nat, b: nat)
    requires b == (tick + 1) % BUCKETS
    ensures NextVisit(tick, b) == tick + 1
  {}

  /** How many ticks an item with `duration` left waits once it is queued. */
  function Delay(duration: nat): nat {
    if duration < ROUND then 1 else BUCKETS * (duration / ROUND) + if duration % ROUND >= 875 then 1 else 0
  }

  lemma EntryBucket(tick: nat, duration: nat)
    requires duration > 0
    ensures var lastBucket := tick % BUCKETS;
            var b := if duration >= ROUND then lastBucket else (lastBucket + 1 + duration / 1000) % BUCKETS;
            DueAt(NextVisit(tick, b), duration) == tick + Delay(duration)
  {}

  /** In tick time a decay of at least a round is never late, and early by less than 875 ms. */
  lemma NeverLate(duration: nat)
    requires duration >= ROUND
    ensures duration - 875 < INTERVAL * Delay(duration) <= duration
  {}

  lemma NextVisitSame(tick: nat, b: nat)
    requires b < BUCKETS && b != (tick + 1) % BUCKETS
    ensures NextVisit(tick, b) == NextVisit(tick + 1, b)
  {}

  lemma NextVisitNow(tick: nat)
    ensures NextVisit(tick, (tick + 1) % BUCKETS) == tick + 1
    ensures NextVisit(tick, tick % BUCKETS) == tick + BUCKETS
  {}

  lemma RoundLess(duration: nat)
    requires duration >= ROUND
    ensures (duration - ROUND) / ROUND == duration / ROUND - 1 && (duration - ROUND) % ROUND == duration % ROUND
    ensures duration < 2 * ROUND ==> duration / ROUND == 1 && duration % ROUND == duration - ROUND
  {}

  /** What one visit does to the due tick: it fires now, one tick later, or keeps waiting. */
  lemma VisitKeepsDue(visit: nat, duration: nat)
    requires duration > 0
    ensures var left := duration - if duration < ROUND then duration else ROUND;
            && (left == 0 ==> DueAt(visit, duration) == visit)
            && (0 < left < ROUND && (left + INTERVAL / 2) / 1000 == 0 ==> DueAt(visit, duration) == visit)
            && (0 < left < ROUND && (left + INTERVAL / 2) / 1000 != 0 ==>
                  (left + INTERVAL / 2) / 1000 == 1 && DueAt(visit, duration) == visit + 1 == DueAt(visit + 1, left))
            && (left >= ROUND ==> DueAt(visit, duration) == DueAt(visit + BUCKETS, left) > visit)
  {
    if duration >= ROUND {
      RoundLess(duration);
      if duration >= 2 * ROUND {
        RoundLess(duration - ROUND);
      } else {
        Rounding(duration - ROUND);
      }
    }
  }

  lemma Rounding(left: nat)
    requires left < ROUND
    ensures (left + INTERVAL / 2) / 1000 == if left >= 875 then 1 else 0
  {}

  lemma StillThere(buckets: seq<seq<Item>>, b: nat, it: nat)
    requires b < |buckets| && it < |buckets[b]|
    requires forall c, k :: 0 <= c < |buckets| && 0 <= k < |buckets[c]| && (c != b || k != it) ==>
               buckets[c][k] != buckets[b][it]
    ensures Queued(buckets[b := buckets[b][..it] + buckets[b][it + 1..]]) == Queued(buckets) - {buckets[b][it]}
  {
    var list := buckets[b][..it] + buckets[b][it + 1..];
    var after := buckets[b := list];
    forall x | x in Queued(buckets) && x != buckets[b][it] ensures x in Queued(after) {
      var c, k :| 0 <= c < |buckets| && 0 <= k < |buckets[c]| && buckets[c][k] == x;
      assert after[c][if c == b && k > it then k - 1 else k] == x;
    }
    forall x | x in Queued(after) ensures x in Queued(buckets) && x != buckets[b][it] {
      var c, k :| 0 <= c < |after| && 0 <= k < |after[c]| && after[c][k] == x;
      assert buckets[c][if c == b && k >= it then k + 1 else k] == x;
    }
  }

  lemma AlsoThere(buckets: seq<seq<Item>>, b: nat, item: Item)
    requires b < |buckets|
    ensures Queued(buckets[b := buckets[b] + [item]]) == Queued(buckets) + {item}
  {
    var after := buckets[b := buckets[b] + [item]];
    forall x | x in Queued(buckets) + {item} ensures x in Queued(after) {
      if x in Queued(buckets) {
        var c, k :| 0 <= c < |buckets| && 0 <= k < |buckets[c]| && buckets[c][k] == x;
        assert after[c][k] == x;
      } else {
        assert after[b][|buckets[b]|] == x;
      }
    }
    forall x | x in Queued(after) ensures x in Queued(buckets) + {item} {
      var c, k :| 0 <= c < |after| && 0 <= k < |after[c]| && after[c][k] == x;
      if x != item {
        assert buckets[c][k] == x;
      }
    }
  }
}
