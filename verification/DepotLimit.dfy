/**
 When the limit of a depot chest is kept: what an admitted move does to the number
 of items a chest holds, and a run that leads past the limit.
 */
module DepotLimit {
  import opened Containers
  import opened DepotChest
  import opened Forest
  import opened Items
  import opened Moves
  import Iteration

  // ------------------------------------------------------------------- moves

  lemma {:induction false} ChainLinear(w: World, c: Item, a: Item, b: Item)
    requires w.Links() && c in w.items && w.OnChain(c, a) && w.OnChain(c, b)
    ensures a in w.items && b in w.items && (w.OnChain(a, b) || w.OnChain(b, a))
    decreases w.Depth(c)
  {
    assert w.LinkOk(c);
    if c == a || c == b {
      w.ChainDepth(c, a);
      w.ChainDepth(c, b);
    } else {
      ChainLinear(w, c.parent, a, b);
    }
  }

  /** `i` was below `x`, or is `x`, exactly if its parent was. */
  ghost predicate Follows(i: Item, x: Item, below: set<Item>)
    reads i`parent
  {
    i in below <==> i == x || (i.parent != null && i.parent in below)
  }

  /** What hangs below `dest` since a move: the item moved, and what lies in it. */
  ghost predicate Hangs(i: Item, dest: Item, moved: set<Item>)
    reads i`parent
  {
    i.parent != null && (i.parent == dest || i.parent in moved)
  }

  /** After a move, what moved is below `x` if the destination is, and all else if it was. */
  lemma {:induction false} ChainAfter(w: World, x: Item, dest: Item, below: set<Item>, moved: set<Item>, i: Item)
    requires w.Links() && x in w.items && dest in w.items && dest !in moved && x !in moved && i in w.items
    requires forall j :: j in w.items && j in moved ==> Hangs(j, dest, moved)
    requires forall j :: j in w.items && j !in moved ==> Follows(j, x, below) && (j.parent == null || j.parent !in moved)
    ensures w.OnChain(i, x) <==> if i in moved then dest in below else i in below
    decreases w.Depth(i)
  {
    assert w.LinkOk(i);
    if i in moved {
      assert Hangs(i, dest, moved);
    } else {
      assert Follows(i, x, below);
    }
    if i.parent != null && i != x {
      ChainAfter(w, x, dest, below, moved, i.parent);
    }
  }

  /** How many items more a chest holds once pieces of `item` have arrived somewhere in it. */
  ghost function Growth(w: World, x: Item, item: Item, fits: nat, moved: nat): int
    requires w.Links() && x in w.items && item in w.items
    reads w`items, w`depth, w.items`parent, w.items`itemlist, item
  {
    var inside := w.OnChain(item, x);
    if item.ty.stackable then (if fits < moved then 1 else 0) - (if inside && moved == item.count then 1 else 0)
    else if inside then 0 else 1 + Held(w, item)
  }

  /** What the links were before a move, seen from a chest. */
  datatype Sight = Sight(parents: map<Item, Item?>, below: set<Item>, under: set<Item>, item: Item, items: set<Item>)

  ghost function Look(w: World, x: Item, item: Item): (sight: Sight)
    requires w.Links() && x in w.items && item in w.items
    reads w`items, w`depth, w.items`parent, w.items`itemlist
  {
    Sight(map i | i in w.items :: i.parent, Inside(w, x) + {x}, Inside(w, item) + {item}, item, w.items)
  }

  /** Parents lead on within what is below the chest and within what is under the item. */
  ghost predicate Clear(sight: Sight, x: Item) {
    && sight.parents.Keys == sight.items && x in sight.items && x !in sight.under && sight.item in sight.under
    && sight.under <= sight.items && sight.below <= sight.items
    && (forall i :: i in sight.items ==> StepOk(sight, x, i))
    && (sight.under <= sight.below || sight.under !! sight.below)
    && (sight.item in sight.below <==> sight.under <= sight.below)
  }

  ghost predicate StepOk(sight: Sight, x: Item, i: Item)
    requires i in sight.parents
  {
    var parent := sight.parents[i];
    && (parent != null ==> parent in sight.items)
    && (i in sight.below <==> i == x || (parent != null && parent in sight.below))
    && (i in sight.under <==> i == sight.item || (parent != null && parent in sight.under))
  }

  lemma LookClear(w: World, x: Item, item: Item)
    requires w.Links() && x in w.items && item in w.items && !w.OnChain(x, item)
    ensures Clear(Look(w, x, item), x)
  {
    var sight := Look(w, x, item);
    forall i | i in w.items ensures StepOk(sight, x, i) {
      assert w.LinkOk(i);
      ChainStep(w, i, x);
      ChainStep(w, i, item);
    }
    if w.OnChain(item, x) {
      forall i | i in sight.under ensures i in sight.below {
        ChainThrough(w, i, item, x);
      }
    } else {
      forall i | i in sight.under ensures i !in sight.below {
        if i in sight.below {
          ChainLinear(w, i, item, x);
        }
      }
    }
  }

  lemma ChainStep(w: World, i: Item, a: Item)
    requires w.Links() && i in w.items && a in w.items
    ensures var below := Inside(w, a) + {a};
            i in below <==> i == a || (i.parent != null && i.parent in below)
  {
    assert w.LinkOk(i);
    var below := Inside(w, a) + {a};
    assert w.OnChain(a, a);
    assert i in below <==> w.OnChain(i, a);
    if i.parent != null {
      assert i.parent in below <==> w.OnChain(i.parent, a);
    }
  }

  lemma {:induction false} ChainThrough(w: World, i: Item, a: Item, b: Item)
    requires w.Links() && i in w.items && w.OnChain(i, a) && a in w.items && w.OnChain(a, b)
    ensures w.OnChain(i, b)
    decreases w.Depth(i)
  {
    assert w.LinkOk(i);
    if i != a {
      ChainThrough(w, i.parent, a, b);
    }
  }

  /** Every item there was before, but the one moved, has kept its parent. */
  ghost predicate Unmoved(w: World, sight: Sight)
    reads w`items, w.items`parent
  {
    forall j :: j in w.items && j in sight.items && j in sight.parents && j != sight.item ==> j.parent == sight.parents[j]
  }

  /** The count of a chest after an item that is no stack has moved into it or within it. */
  lemma HeldAfterWhole(w: World, x: Item, dest: Item, sight: Sight)
    requires Clear(sight, x) && w.Links() && w.items == sight.items && Unmoved(w, sight)
    requires sight.item.parent == dest && dest in sight.below && dest !in sight.under
    ensures Held(w, x) == |sight.below| - 1 + if sight.item in sight.below then 0 else |sight.under|
  {
    forall j | j in w.items
      ensures if j in sight.under then Hangs(j, dest, sight.under)
              else Follows(j, x, sight.below) && (j.parent == null || j.parent !in sight.under)
    {
      assert StepOk(sight, x, j) && StepOk(sight, x, sight.item);
    }
    forall i | i in w.items ensures w.OnChain(i, x) <==> i in sight.below + sight.under {
      ChainAfter(w, x, dest, sight.below, sight.under, i);
    }
    assert x in sight.below by {
      assert StepOk(sight, x, x);
    }
    assert Inside(w, x) == sight.below + sight.under - {x};
    assert |sight.below + sight.under| == |sight.below| + |sight.under| - |sight.below * sight.under|;
    if sight.item in sight.below {
      assert sight.below * sight.under == sight.under;
    } else {
      assert sight.below * sight.under == {};
    }
  }

  lemma InsideAfterStack(w: World, x: Item, dest: Item, sight: Sight, rest: Item?, left: set<Item>)
    requires Clear(sight, x) && w.Links() && Unmoved(w, sight) && w.items == sight.items - left + Target(rest)
    requires if sight.item in w.items then sight.item.parent == sight.parents[sight.item] && left == {} else left == {sight.item}
    requires rest != null ==> rest !in sight.items && rest.parent == dest
    requires dest in sight.below && dest in w.items
    ensures x in sight.below && Inside(w, x) == sight.below - left - {x} + Target(rest)
  {
    var moved := Target(rest);
    forall j | j in w.items
      ensures if j in moved then Hangs(j, dest, moved)
              else Follows(j, x, sight.below) && (j.parent == null || j.parent !in moved)
    {
      if j !in moved {
        assert StepOk(sight, x, j);
      }
    }
    forall i | i in w.items ensures w.OnChain(i, x) <==> i in sight.below + moved {
      ChainAfter(w, x, dest, sight.below, moved, i);
    }
    assert StepOk(sight, x, x);
  }

  /** The same after pieces of a stack have moved; `rest` is the new stack, if there is one. */
  lemma HeldAfterStack(w: World, x: Item, dest: Item, sight: Sight, rest: Item?)
    requires Clear(sight, x) && w.Links() && Unmoved(w, sight)
    requires w.items == sight.items - (if sight.item in w.items then {} else {sight.item}) + Target(rest)
    requires sight.item in w.items ==> sight.item.parent == sight.parents[sight.item]
    requires rest != null ==> rest !in sight.items && rest.parent == dest
    requires dest in sight.below && dest in w.items
    ensures Held(w, x) == |sight.below| - 1 + (if rest == null then 0 else 1)
                          - if sight.item !in w.items && sight.item in sight.below then 1 else 0
  {
    var left := if sight.item in w.items then {} else {sight.item};
    InsideAfterStack(w, x, dest, sight, rest, left);
    var kept := sight.below - left - {x};
    assert kept !! Target(rest);
    assert left * sight.below == if sight.item in sight.below then left else {};
    assert |sight.below - left| == |sight.below| - |left * sight.below|;
  }

  /** The limit of `chest` as a move finds it: what it will hold, and whether it is asked. */
  datatype Case = Case(concerned: bool, asked: bool, held: int)

  ghost function CaseOf(w: World, chest: Item, way: Way, item: Item, moved: nat): (before: Case)
    requires w.Links() && chest in w.items && item in w.items && way.dest in w.items
    reads w, w.items, item, way.toItem
  {
    Case(w.OnChain(way.dest, chest) && !w.OnChain(chest, item), Asked(w, way.dest, chest),
         Held(w, chest) + Growth(w, chest, item, Fitting(item, way.toItem, moved), moved))
  }

  /** The chest holds what was foreseen, and its limit is kept exactly if it was asked or there was room anyway. */
  ghost predicate AsForeseen(w: World, chest: Item, before: Case, limit: nat)
    requires w.Links()
    reads w`items, w`depth, w.items`parent, w.items`itemlist
  {
    && chest in w.items && Held(w, chest) == before.held
    && (Held(w, chest) <= limit <==> before.asked || before.held <= limit)
  }

  /** A chest that is asked reckons with at least what a move brings, even when only part of a stack finds room. */
  lemma AskedKeepsLimit(w: World, from: Item, way: Way, item: Item, count: nat, m: nat, limits: Limits, x: Item)
    requires w.Links() && Tidy(w) && item in w.items && x in w.items && x in limits
    requires way.dest in w.items && Denotes(way.dest, way.index, way.toItem)
    requires Allowed(from, way.dest, way.index, item, count, limits, w) && m == Movable(way.dest, way.index, item, count, limits, w)
    requires Asked(w, way.dest, x)
    ensures CaseOf(w, x, way, item, if item.ty.stackable then m else 1).held <= limits[x]
  {
    assert HasRoom(w, x, item, count, limits) && w.LinkOk(item) && TidyItem(item);
    if TopCylinder(w, item) == x {
      assert w.OnChain(item, x);
    }
  }

  /**
   For an item that is no stack it reckons with exactly what the move brings, unless the
   item lies in it already and it is not the item's top parent.
   */
  lemma AskedExactly(w: World, way: Way, item: Item, count: nat, limits: Limits, x: Item)
    requires w.Links() && item in w.items && x in w.items && x in limits && way.dest in w.items && !item.ty.stackable
    requires x != item && (w.OnChain(item, x) ==> TopCylinder(w, item) == x)
    ensures HasRoom(w, x, item, count, limits) <==> CaseOf(w, x, way, item, 1).held <= limits[x]
  {
    assert w.LinkOk(item);
    TopOnChain(w, item);
  }

  /** The top cylinder of an item lies around it, or is it. */
  lemma TopOnChain(w: World, item: Item)
    requires w.Links() && item in w.items
    ensures var top := TopCylinder(w, item); top != null ==> top in w.items && w.OnChain(item, top)
  {
    assert w.LinkOk(item);
  }

  /** The growth, in terms of what was seen before the move. */
  ghost function Brought(sight: Sight, was: Stock, moved: nat): int {
    if was.ty.stackable
    then (if was.fits < moved then 1 else 0) - (if sight.item in sight.below && moved == was.count then 1 else 0)
    else if sight.item in sight.below then 0 else |sight.under|
  }

  /** What `HeldAfter` needs to have seen, and that it reckons with the growth. */
  ghost predicate Seen(sight: Sight, x: Item, from: Item, way: Way, was: Stock, moved: nat, held: int) {
    && Clear(sight, x) && was.items == sight.items && way.dest in sight.below && way.dest !in sight.under
    && sight.parents[sight.item] == from && held == |sight.below| - 1 + Brought(sight, was, moved)
  }

  lemma SeenBefore(w: World, x: Item, from: Item, way: Way, item: Item, moved: nat)
    requires w.Links() && x in w.items && item in w.items && way.dest in w.items && item.parent == from
    requires w.OnChain(way.dest, x) && !w.OnChain(x, item) && !w.OnChain(way.dest, item)
    ensures Seen(Look(w, x, item), x, from, way, Before(from, way, item, moved, w), moved,
                 Held(w, x) + Growth(w, x, item, Fitting(item, way.toItem, moved), moved))
  {
    LookClear(w, x, item);
    var below, under := Inside(w, x) + {x}, Inside(w, item) + {item};
    assert |below| == Held(w, x) + 1 && |under| == Held(w, item) + 1;
  }

  /** What a move needs to have foreseen for a chest: what it will hold, and that being asked keeps it within the limit. */
  ghost predicate Foresight(before: Case, sight: Sight, x: Item, from: Item, way: Way, was: Stock, moved: nat, limit: nat) {
    && (before.concerned ==> Seen(sight, x, from, way, was, moved, before.held))
    && (before.asked ==> before.held <= limit)
  }

  lemma HeldAfter(w: World, x: Item, from: Item, way: Way, sight: Sight, was: Stock, moved: nat, before: Case, limit: nat)
    requires w.Links() && moved > 0 && before.concerned
    ensures (Foresight(before, sight, x, from, way, was, moved, limit) && Unmoved(w, sight)
             && Arrived(from, way, sight.item, moved, was, w)) ==> AsForeseen(w, x, before, limit)
  {
    if Seen(sight, x, from, way, was, moved, before.held) && Unmoved(w, sight) && Arrived(from, way, sight.item, moved, was, w) {
      if was.ty.stackable {
        HeldAfterStack(w, x, way.dest, sight, if was.fits < moved then way.dest.itemlist[0] else null);
      } else {
        HeldAfterWhole(w, x, way.dest, sight);
      }
    }
  }

  /** Where redirections end, what is reported is what lies there. */
  lemma {:induction false} FollowDenotes(c: Item, index: int, item: Item, autoStack: bool, floorN: nat, w: World)
    requires w.Links() && Tidy(w) && c in w.items && c.container && item in w.items && index >= WHEREVER && floorN < MAX_LAYERS
    ensures var way := Follow(c, index, item, autoStack, floorN, w);
            way.dest in w.items && (way.dest.unlocked ==> Denotes(way.dest, way.index, way.toItem))
    decreases MAX_LAYERS - floorN
  {
    assert w.LinkOk(c) && TidyItem(c);
    var way := Route(c, index, item, autoStack);
    if way.dest != c {
      assert w.LinkOk(way.dest);
      if floorN + 1 < MAX_LAYERS {
        FollowDenotes(way.dest, way.index, item, true, floorN + 1, w);
      }
    }
  }

  /** All that a move to come will do to a chest. */
  lemma Foreseen(w: World, x: Item, from: Item, way: Way, item: Item, count: nat, n: nat, limits: Limits)
    requires w.Links() && Tidy(w) && item in w.items && x in w.items && x in limits && from in w.items
    requires way.dest in w.items && (way.dest.unlocked ==> Denotes(way.dest, way.index, way.toItem))
    requires Allowed(from, way.dest, way.index, item, count, limits, w)
    requires n == if item.ty.stackable then Movable(way.dest, way.index, item, count, limits, w) else 1
    ensures Foresight(CaseOf(w, x, way, item, n), Look(w, x, item), x, from, way, Before(from, way, item, n, w), n, limits[x])
  {
    assert w.LinkOk(from);
    if Asked(w, way.dest, x) {
      AskedKeepsLimit(w, from, way, item, count, Movable(way.dest, way.index, item, count, limits, w), limits, x);
    }
    if w.OnChain(way.dest, x) && !w.OnChain(x, item) {
      SeenBefore(w, x, from, way, item, n);
    }
  }

  /**
   A move with all chests in play. Whatever arrives in a chest, at any depth, the
   limit of the chest is kept exactly if the destination is the chest, or the
   chest is the top parent of the destination, or there is room anyway.
   */
  method MoveItem(from: Item, toCylinder: Item, index: int, item: Item, count: nat, autoStack: bool, limits: Limits,
                  ghost chest: Item, ghost w: World)
    returns (r: ReturnValue, moved: nat, way: Way)
    requires w.Valid() && Tidy(w) && from in w.items && toCylinder in w.items && item in w.items
    requires toCylinder.container && index >= WHEREVER && chest in w.items && chest in limits
    modifies w`items, w`loads, w`depth, w.items`totalWeight, from`itemlist
    modifies item`ty, item`attributes, item`count, item`parent
    modifies Follow(toCylinder, index, item, autoStack, 0, w).dest`itemlist
    modifies Target(Follow(toCylinder, index, item, autoStack, 0, w).toItem)`ty
    modifies Target(Follow(toCylinder, index, item, autoStack, 0, w).toItem)`attributes
    modifies Target(Follow(toCylinder, index, item, autoStack, 0, w).toItem)`count
    ensures w.Valid() && Tidy(w) && way == old(Follow(toCylinder, index, item, autoStack, 0, w)) && way.dest in old(w.items)
    ensures moved > 0 <==> item != way.toItem && old(Allowed(from, way.dest, way.index, item, count, limits, w))
    ensures var before := old(CaseOf(w, chest, way, item, moved));
            moved == 0 || !before.concerned || AsForeseen(w, chest, before, limits[chest])
  {
    ghost var where := Follow(toCylinder, index, item, autoStack, 0, w);
    FollowDenotes(toCylinder, index, item, autoStack, 0, w);
    ghost var n: nat := if item.ty.stackable then Movable(where.dest, where.index, item, count, limits, w) else 1;
    ghost var go := item != where.toItem && Allowed(from, where.dest, where.index, item, count, limits, w);
    if go {
      Foreseen(w, chest, from, where, item, count, n, limits);
    }
    r, moved, way := MoveForeseen(from, toCylinder, index, item, count, autoStack, limits, chest, w,
                                  where, CaseOf(w, chest, where, item, n), go, n);
  }

  /** The same for a chest whose case is given, and where the way leads. */
  method MoveForeseen(from: Item, toCylinder: Item, index: int, item: Item, count: nat, autoStack: bool, limits: Limits,
                      ghost chest: Item, ghost w: World, ghost aim: Way, ghost before: Case, ghost go: bool, ghost n: nat)
    returns (r: ReturnValue, moved: nat, way: Way)
    requires w.Valid() && Tidy(w) && from in w.items && toCylinder in w.items && item in w.items
    requires toCylinder.container && index >= WHEREVER && chest in w.items && chest in limits
    requires aim == Follow(toCylinder, index, item, autoStack, 0, w) && aim.dest in w.items
    requires go <==> item != aim.toItem && Allowed(from, aim.dest, aim.index, item, count, limits, w)
    requires go ==> n == if item.ty.stackable then Movable(aim.dest, aim.index, item, count, limits, w) else 1
    requires go ==>
               Foresight(before, Look(w, chest, item), chest, from, aim, Before(from, aim, item, n, w), n, limits[chest])
    modifies w`items, w`loads, w`depth, w.items`totalWeight, from`itemlist, aim.dest`itemlist
    modifies item`ty, item`attributes, item`count, item`parent
    modifies Target(aim.toItem)`ty, Target(aim.toItem)`attributes, Target(aim.toItem)`count
    ensures w.Valid() && Tidy(w) && way == aim && moved == if go then n else 0
    ensures moved == 0 || !before.concerned || AsForeseen(w, chest, before, limits[chest])
  {
    ghost var sight, was := Look(w, chest, item), Before(from, aim, item, n, w);
    r, moved, way := InternalMoveItem(from, toCylinder, index, item, count, autoStack, limits, w,
                                      (ty: ItemType, a: Attributes) => 0);
    if moved > 0 && before.concerned {
      HeldAfter(w, chest, from, aim, sight, was, n, before, limits[chest]);
    }
  }

  // --------------------------------------------------------- past the limit

  /** A new container inside another. */
  method NewInside(c: Item, ty: ItemType, maxSize: nat, ghost w: World) returns (item: Item)
    requires w.Valid() && c in w.items && c.container
    modifies w`items, w`loads, w`depth, c`itemlist, w.items`totalWeight
    ensures w.Valid() && fresh(item) && w.items == old(w.items) + {item}
    ensures item.container && item.unlocked && item.maxSize == maxSize && item.itemlist == []
    ensures item.parent == c && c.itemlist == [item] + old(c.itemlist)
  {
    item := new Item.Container(ty, maxSize, true, 1, Absent);
    Enter(item, w);
    Childless(w, c, item);
    InternalAddThing(c, item, w);
  }

  method Locker(ty: ItemType, ghost w: World) returns (depot: Item)
    requires w.Valid() && w.items == {}
    modifies w
    ensures w.Valid() && fresh(w.items) && depot in w.items && depot.container && depot.parent != null
  {
    var tile := new Item.Container(ty, 100, true, 1, Absent);
    Enter(tile, w);
    var locker := NewInside(tile, ty, 3, w);
    depot := NewInside(locker, ty, 17, w);
  }

  /** A player's depot: on a tile a locker, in it the depot, in that a chest, in the chest a bag. */
  method Depot(ty: ItemType, ghost w: World) returns (chest: Item, bag: Item)
    requires w.Valid() && w.items == {}
    modifies w
    ensures w.Valid() && fresh(w.items) && chest in w.items && bag in w.items
    ensures bag.container && bag.unlocked && bag.maxSize == 20 && bag.itemlist == []
    ensures chest.itemlist == [bag] && bag.parent == chest
    ensures chest.parent != null && chest.parent.parent != null
  {
    var depot := Locker(ty, w);
    chest := NewInside(depot, ty, 30, w);
    bag := NewInside(chest, ty, 20, w);
  }

  lemma NotAsked(w: World, chest: Item, bag: Item, item: Item, limit: nat)
    requires w.Links() && chest in w.items && bag in w.items && item in w.items && bag.parent == chest
    requires chest.parent != null && chest.parent.parent != null
    ensures Agree(w, bag, item, 1, map[chest := limit])
  {
    assert w.LinkOk(bag);
    TopParentIff(w, bag, chest);
  }

  /**
   A chest that may hold one item and holds one, a bag: the bag agrees to another
   item, as the locker is its top parent, and the chest ends up with two.
   */
  method OverLimit(ty: ItemType) returns (limit: nat, before: nat, answer: ReturnValue, after: nat)
    requires ty.pickupable
    ensures before == limit && answer == NoError && after == limit + 1
  {
    ghost var w := new World();
    var chest, bag := Depot(ty, w);
    limit := 1;
    before := Iteration.GetItemHoldingCount(chest, Tree(chest, [Tree(bag, [])]), w);
    answer, after := OneMore(chest, bag, ty, limit, w);
  }

  method OneMore(chest: Item, bag: Item, ty: ItemType, limit: nat, ghost w: World) returns (answer: ReturnValue, after: nat)
    requires w.Valid() && chest in w.items && bag in w.items && chest.itemlist == [bag] && bag.parent == chest
    requires bag.container && bag.unlocked && bag.maxSize == 20 && bag.itemlist == [] && ty.pickupable
    requires chest.parent != null && chest.parent.parent != null
    modifies w`items, w`loads, w`depth, bag`itemlist, w.items`totalWeight
    ensures answer == NoError && after == 2
  {
    var item := new Item(ty, 1, Absent);
    Enter(item, w);
    Childless(w, bag, item);
    NotAsked(w, chest, bag, item, limit);
    answer := QueryAdd(bag, 0, item, 1, map[chest := limit], w);
    assert w.LinkOk(bag);
    InternalAddThing(bag, item, w);
    NestedShape(w, chest, bag, item);
    after := Iteration.GetItemHoldingCount(chest, Tree(chest, [Tree(bag, [Tree(item, [])])]), w);
  }

  lemma NestedShape(w: World, chest: Item, bag: Item, item: Item)
    requires chest in w.items && bag in w.items && item in w.items
    requires chest.itemlist == [bag] && bag.itemlist == [item] && item.itemlist == []
    ensures ShapeOf(Tree(chest, [Tree(bag, [Tree(item, [])])]), w)
  {
    assert ShapeOf(Tree(item, []), w) && ShapeOf(Tree(bag, [Tree(item, [])]), w);
  }
}
