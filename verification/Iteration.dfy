/**
 The breadth-first iterator over everything in a container, and what is
 computed with it: the number of items held, and membership. The iterator
 walks over live containers; a tree says what is in them.
 */
module Iteration {
  import opened Common
  import opened Containers
  import opened Forest

  /** The contents of all trees of a forest, one level further in. */
  function Inside<T>(f: seq<Tree<T>>): (g: seq<Tree<T>>)
    ensures Size(f) == |f| + Size(g)
  {
    if f == [] then [] else
      SizeConcat(f[0].contents, Inside(f[1..]));
      f[0].contents + Inside(f[1..])
  }

  /** A forest level by level. */
  ghost function LevelOrder<T>(f: seq<Tree<T>>): (order: seq<Tree<T>>)
    decreases Size(f)
  {
    if f == [] then [] else f + LevelOrder(Inside(f))
  }

  /** The order in which a queue is worked off when contents are queued behind. */
  ghost function QueueOrder<T>(q: seq<Tree<T>>): (order: seq<Tree<T>>)
    decreases Size(q)
  {
    if q == [] then [] else
      SizeConcat(q[1..], q[0].contents);
      [q[0]] + QueueOrder(q[1..] + q[0].contents)
  }

  lemma QueueStep<T>(x: Tree<T>, q: seq<Tree<T>>)
    ensures QueueOrder([x] + q) == [x] + QueueOrder(q + x.contents)
  {
    assert ([x] + q)[1..] == q;
  }

  lemma {:induction false} QueueLevel<T>(a: seq<Tree<T>>, b: seq<Tree<T>>)
    ensures QueueOrder(a + b) == a + QueueOrder(b + Inside(a))
    decreases |a|
  {
    if a == [] {
      assert a + b == b && b + Inside(a) == b;
    } else {
      var x, rest := a[0], a[1..];
      Associate([x], rest, b);
      QueueStep(x, rest + b);
      Associate(rest, b, x.contents);
      QueueLevel(rest, b + x.contents);
      Associate(b, x.contents, Inside(rest));
      Associate([x], rest, QueueOrder(b + Inside(a)));
      assert a == [x] + rest;
    }
  }

  /** Working off a queue goes level by level. */
  lemma {:induction false} QueueIsLevelOrder<T>(f: seq<Tree<T>>)
    ensures QueueOrder(f) == LevelOrder(f)
    decreases Size(f)
  {
    if f != [] {
      QueueLevel(f, []);
      assert f + [] == f && [] + Inside(f) == Inside(f);
      QueueIsLevelOrder(Inside(f));
    }
  }

  ghost function Count<T>(s: seq<Tree<T>>, t: Tree<T>): (n: nat)
    ensures n > 0 <==> t in s
  {
    if s == [] then 0 else (if s[0] == t then 1 else 0) + Count(s[1..], t)
  }

  lemma {:induction false} CountConcat<T>(a: seq<Tree<T>>, b: seq<Tree<T>>, t: Tree<T>)
    ensures Count(a + b, t) == Count(a, t) + Count(b, t)
  {
    if a == [] {
      assert a + b == b;
    } else {
      CountConcat(a[1..], b, t);
      assert (a + b)[1..] == a[1..] + b;
    }
  }

  lemma {:induction false} OccurrencesInside<T>(f: seq<Tree<T>>, t: Tree<T>)
    ensures Occurrences(f, t) == Count(f, t) + Occurrences(Inside(f), t)
  {
    if f != [] {
      OccurrencesInside(f[1..], t);
      OccurrencesConcat(f[0].contents, Inside(f[1..]), t);
    }
  }

  /** Level order lists every node of the forest as often as it occurs, and nothing else. */
  lemma {:induction false} LevelOrderExact<T>(f: seq<Tree<T>>, t: Tree<T>)
    ensures |LevelOrder(f)| == Size(f)
    ensures Count(LevelOrder(f), t) == Occurrences(f, t)
    decreases Size(f)
  {
    if f != [] {
      LevelOrderExact(Inside(f), t);
      OccurrencesInside(f, t);
      CountConcat(f, LevelOrder(Inside(f)), t);
    }
  }

  /** The contents of the containers waiting in the iterator. */
  ghost function Waiting<T>(over: seq<Tree<T>>): (w: seq<Tree<T>>) {
    if over == [] then [] else over[0].contents + Waiting(over[1..])
  }

  lemma {:induction false} WaitingAppend<T>(over: seq<Tree<T>>, c: Tree<T>)
    ensures Waiting(over + [c]) == Waiting(over) + c.contents
  {
    if over == [] {
      assert over + [c] == [c] && [c][1..] == [];
    } else {
      WaitingAppend(over[1..], c);
      assert (over + [c])[1..] == over[1..] + [c];
      assert over[0].contents + (Waiting(over[1..]) + c.contents) == over[0].contents + Waiting(over[1..]) + c.contents;
    }
  }

  /** The containers waiting in the iterator: none is empty, and the shapes say what is in them. */
  ghost predicate Entries(over: seq<Item>, shapes: seq<Shape>, w: World)
    reads w`items, w.items`itemlist
  {
    |shapes| == |over| && forall k :: 0 <= k < |over| ==> Entry(over[k], shapes[k], w)
  }

  ghost predicate Entry(container: Item, shape: Shape, w: World)
    reads w`items, w.items`itemlist
  {
    shape.item == container && ShapeOf(shape, w) && shape.contents != []
  }

  lemma EntriesPush(over: seq<Item>, shapes: seq<Shape>, i: Item, shape: Shape, w: World)
    requires Entries(over, shapes, w) && Entry(i, shape, w)
    ensures Entries(over + [i], shapes + [shape], w)
  {}

  lemma EntriesPop(over: seq<Item>, shapes: seq<Shape>, w: World)
    requires Entries(over, shapes, w) && over != []
    ensures Entries(over[1..], shapes[1..], w) && |shapes[0].contents| == |over[0].itemlist|
    ensures |over| > 1 ==> shapes[1].contents != []
  {
    assert Entry(over[0], shapes[0], w) && (|over| > 1 ==> Entry(over[1], shapes[1], w));
  }

  /** What is still to come: the rest of the container in front, then what is in the others. */
  ghost function QueueOf(shapes: seq<Shape>, cur: nat): (q: seq<Shape>) {
    if shapes == [] || cur > |shapes[0].contents| then [] else shapes[0].contents[cur..] + Waiting(shapes[1..])
  }

  class ContainerIterator {
    var over: seq<Item>
    var cur: nat
    ghost var shapes: seq<Shape>

    /** The current position is on an item of the container in front. */
    ghost predicate Valid(w: World)
      reads this, w`items, w.items`itemlist
    {
      Entries(over, shapes, w) && (over != [] ==> cur < |shapes[0].contents|)
    }

    /** The queue of items the iterator stands for. */
    ghost function Queue(): (q: seq<Shape>)
      reads this
    {
      QueueOf(shapes, cur)
    }

    constructor (container: Item, ghost shape: Shape, ghost w: World)
      requires ShapeOf(shape, w) && shape.item == container
      ensures Valid(w) && Queue() == shape.contents
    {
      over := if container.itemlist == [] then [] else [container];
      shapes := if container.itemlist == [] then [] else [shape];
      cur := 0;
      new;
      assert shape.contents[0..] + [] == shape.contents;
    }

    predicate HasNext()
      reads this
    {
      over != []
    }

    method Current(ghost w: World) returns (item: Item)
      requires Valid(w) && HasNext()
      ensures Queue() != [] && item == Queue()[0].item && ShapeOf(Queue()[0], w)
    {
      assert Entry(over[0], shapes[0], w);
      item := over[0].itemlist[cur];
    }

    /** Queues the container at the current position behind, if it is one and not empty. */
    method Descend(ghost w: World)
      requires Valid(w) && HasNext()
      modifies this`over, this`shapes
      ensures Valid(w) && HasNext() && over[0] == old(over[0])
      ensures var shape := old(shapes[0].contents[cur]);
              shapes == old(shapes) + if shape.contents == [] then [] else [shape]
    {
      var i := Current(w);
      ghost var shape := shapes[0].contents[cur];
      if i.itemlist != [] {
        EntriesPush(over, shapes, i, shape, w);
        over := over + [i];
        shapes := shapes + [shape];
      }
    }

    /** Goes on to the next place, and to the next container at the end of one. */
    method Step(ghost w: World)
      requires Valid(w) && HasNext()
      modifies this
      ensures Valid(w) && Queue() == QueueOf(old(shapes), old(cur) + 1)
    {
      QueueFront(shapes);
      EntriesPop(over, shapes, w);
      cur := cur + 1;
      if cur == |over[0].itemlist| {
        over := over[1..];
        shapes := shapes[1..];
        cur := 0;
      }
    }

    method Advance(ghost w: World)
      requires Valid(w) && HasNext()
      modifies this
      ensures Valid(w) && Queue() == old(Queue()[1..] + Queue()[0].contents)
    {
      QueueNext(shapes, cur);
      Descend(w);
      Step(w);
    }
  }

  /** Queuing a container behind, and stepping on, in terms of what is still to come. */
  lemma QueueNext(shapes: seq<Shape>, cur: nat)
    requires shapes != [] && cur < |shapes[0].contents|
    ensures var i := shapes[0].contents[cur]; var queue := QueueOf(shapes, cur);
            queue[0] == i && queue[1..] + i.contents == QueueOf(shapes + if i.contents == [] then [] else [i], cur + 1)
  {
    var i, rest := shapes[0].contents[cur], shapes[0].contents[cur + 1..];
    var more := if i.contents == [] then [] else [i];
    WaitingMore(shapes[1..], i);
    assert (shapes + more)[1..] == shapes[1..] + more;
    assert QueueOf(shapes, cur)[1..] == rest + Waiting(shapes[1..]) by {
      assert shapes[0].contents[cur..] == [i] + rest;
      assert ([i] + rest + Waiting(shapes[1..]))[1..] == rest + Waiting(shapes[1..]);
    }
    Associate(rest, Waiting(shapes[1..]), i.contents);
  }

  /** At the end of the container in front the queue goes on with the next. */
  lemma QueueFront(shapes: seq<Shape>)
    requires shapes != []
    ensures QueueOf(shapes, |shapes[0].contents|) == QueueOf(shapes[1..], 0)
  {
    var rest := shapes[1..];
    assert [] + Waiting(rest) == Waiting(rest);
    assert rest != [] ==> rest[0].contents[0..] == rest[0].contents;
  }

  lemma WaitingMore(over: seq<Shape>, c: Shape)
    ensures Waiting(over + if c.contents == [] then [] else [c]) == Waiting(over) + c.contents
  {
    if c.contents == [] {
      assert over + [] == over;
    } else {
      WaitingAppend(over, c);
    }
  }

  ghost function ItemsOf(f: seq<Shape>): (items: seq<Item>) {
    seq(|f|, k requires 0 <= k < |f| => f[k].item)
  }

  lemma ItemsOfNext(all: seq<Shape>, n: nat, q: seq<Shape>)
    requires n < |all| && all[n..] == q
    ensures q[0] == all[n] && all[n + 1..] == q[1..] && ItemsOf(all[..n + 1]) == ItemsOf(all[..n]) + [q[0].item]
  {
    assert all[n + 1..] == all[n..][1..];
  }

  /** Visits everything in a container, in the iterator's order. */
  method Visit(container: Item, ghost shape: Shape, ghost w: World) returns (visited: seq<Item>)
    requires ShapeOf(shape, w) && shape.item == container
    ensures visited == ItemsOf(LevelOrder(shape.contents))
  {
    visited := [];
    var it := new ContainerIterator(container, shape, w);
    ghost var all, n := QueueOrder(shape.contents), 0;
    while it.HasNext()
      invariant it.Valid(w) && fresh(it)
      invariant n <= |all| && all[n..] == QueueOrder(it.Queue()) && visited == ItemsOf(all[..n])
      decreases Size(it.Queue())
    {
      ghost var q := it.Queue();
      var item := it.Current(w);
      SizeConcat(q[1..], q[0].contents);
      ItemsOfNext(all, n, QueueOrder(q));
      visited, n := visited + [item], n + 1;
      it.Advance(w);
    }
    assert all[..n] == all;
    QueueIsLevelOrder(shape.contents);
  }

  method GetItemHoldingCount(container: Item, ghost shape: Shape, ghost w: World) returns (counter: nat)
    requires ShapeOf(shape, w) && shape.item == container
    ensures counter == Size(shape.contents)
  {
    counter := 0;
    var it := new ContainerIterator(container, shape, w);
    while it.HasNext()
      invariant it.Valid(w) && fresh(it)
      invariant counter + Size(it.Queue()) == Size(shape.contents)
      decreases Size(it.Queue())
    {
      ghost var q := it.Queue();
      var _ := it.Current(w);
      SizeConcat(q[1..], q[0].contents);
      counter := counter + 1;
      it.Advance(w);
    }
  }

  /** Whether this very item lies in the container at any depth. */
  method IsHoldingItem(container: Item, item: Item, ghost shape: Shape, ghost w: World) returns (found: bool)
    requires ShapeOf(shape, w) && shape.item == container
    ensures found <==> Places(shape.contents, item) > 0
  {
    var it := new ContainerIterator(container, shape, w);
    while it.HasNext()
      invariant it.Valid(w) && fresh(it)
      invariant Places(it.Queue(), item) == Places(shape.contents, item)
      decreases Size(it.Queue())
    {
      ghost var q := it.Queue();
      var current := it.Current(w);
      SizeConcat(q[1..], q[0].contents);
      PlacesConcat(q[1..], q[0].contents, item);
      if current == item {
        return true;
      }
      it.Advance(w);
    }
    return false;
  }
}
