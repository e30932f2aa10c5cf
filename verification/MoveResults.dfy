/**
 What moves come to for those who ask for them: where an item dropped somewhere ends up,
 and that a move changes no weights.
 */
module MoveResults {
  import opened Containers
  import opened DepotChest
  import opened Items
  import opened Moves

  // ---------------------------------------------------------------- weights

  /** What all items in play weigh together, without what lies in them. */
  ghost function Heft(w: World): int
    reads w`items, w.items`ty, w.items`attributes, w.items`count
  {
    Total(map i | i in w.items :: i.OwnWeight())
  }

  function Weights(): Kinds {
    (ty: ItemType, a: Attributes) => UnitWeight(ty, a)
  }

  lemma HeftIsTally(w: World)
    ensures Heft(w) == Total(Tally(w, Weights()))
  {
    forall i | i in w.items ensures i.OwnWeight() == Pieces(i, Weights()) {
      OwnPieces(i);
      OfProduct(Weights(), i.ty, i.attributes, Number(i));
    }
    assert (map i | i in w.items :: i.OwnWeight()) == Tally(w, Weights());
  }

  /** No rewriting of attributes changes what a piece weighs. */
  lemma WeightSettled(ty: ItemType, a: Attributes)
    ensures Settled(ty, a, Weights())
  {}

  /** Whatever is moved wherever, and merged, split or refused: all items together weigh what they did. */
  method MoveWeighed(from: Item, toCylinder: Item, index: int, item: Item, count: nat, autoStack: bool, limits: Limits,
                     ghost w: World)
    returns (r: ReturnValue, moved: nat, way: Way)
    requires w.Valid() && Tidy(w) && from in w.items && toCylinder in w.items && item in w.items
    requires toCylinder.container && index >= WHEREVER
    modifies w`items, w`loads, w`depth, w.items`totalWeight, from`itemlist
    modifies item`ty, item`attributes, item`count, item`parent
    modifies Follow(toCylinder, index, item, autoStack, 0, w).dest`itemlist
    modifies Target(Follow(toCylinder, index, item, autoStack, 0, w).toItem)`ty
    modifies Target(Follow(toCylinder, index, item, autoStack, 0, w).toItem)`attributes
    modifies Target(Follow(toCylinder, index, item, autoStack, 0, w).toItem)`count
    ensures w.Valid() && Tidy(w) && Heft(w) == old(Heft(w))
  {
    HeftIsTally(w);
    WeightSettled(item.ty, item.attributes);
    r, moved, way := InternalMoveItem(from, toCylinder, index, item, count, autoStack, limits, w, Weights());
    HeftIsTally(w);
  }

  // ----------------------------------------------------------- destinations

  /** Dropped anywhere in a container, an item stays in it. */
  lemma Anywhere(c: Item, item: Item, autoStack: bool, floorN: nat, w: World)
    requires w.Links() && c in w.items && item in w.items
    ensures var way := Follow(c, WHEREVER, item, autoStack, floorN, w);
            way.dest == c && (way.toItem != null ==> item.ty.stackable)
  {}

  /** Containers redirect once at most, so that the limit on redirections is never reached. */
  lemma OneRedirection(c: Item, index: int, item: Item, autoStack: bool, w: World)
    requires w.Links() && c in w.items && item in w.items
    ensures var way := Route(c, index, item, autoStack);
            Follow(c, index, item, autoStack, 0, w) == if way.dest == c then way else Route(way.dest, WHEREVER, item, true)
  {
    assert w.LinkOk(c);
    var way := Route(c, index, item, autoStack);
    if way.dest != c {
      Anywhere(way.dest, item, true, 1, w);
    }
  }

  /** Position 254 leads to the parent. */
  lemma UpLeadsOut(c: Item, item: Item, autoStack: bool, w: World)
    requires w.Links() && c in w.items && item in w.items && c.unlocked && c.parent != null
    ensures var way := Follow(c, 254, item, autoStack, 0, w);
            way.dest == c.parent && (way.toItem != null ==> item.ty.stackable)
  {
    assert w.LinkOk(c);
    Anywhere(c.parent, item, true, 1, w);
  }

  /** The position of a container leads into that. */
  lemma ContainerLeadsIn(c: Item, index: nat, item: Item, autoStack: bool, w: World)
    requires w.Links() && c in w.items && item in w.items && c.unlocked && !item.ty.stackable
    requires index < |c.itemlist| && index < c.maxSize && index != 254 && index != 255 && c.itemlist[index].container
    ensures var way := Follow(c, index, item, autoStack, 0, w);
            way.dest == c.itemlist[index] && way.toItem == null
  {
    assert w.LinkOk(c);
    Anywhere(c.itemlist[index], item, true, 1, w);
  }

  /** An open container with a free place takes an item that is no stack and does not hold it. */
  ghost predicate Takes(dest: Item, item: Item, count: nat, limits: Limits, w: World)
    requires w.Links() && dest in w.items && item in w.items
    reads w, w.items, dest, item
  {
    && dest.unlocked && |dest.itemlist| < dest.maxSize && !w.OnChain(dest, item)
    && item.ty.pickupable && item.ty.moveable && !item.ty.stackable && Agree(w, dest, item, count, limits)
  }

  /** An item that is no stack is in front of `dest` now, and out of `from`. */
  ghost predicate Moved(from: Item, dest: Item, item: Item, fromList: seq<Item>, destList: seq<Item>)
    reads from`itemlist, dest`itemlist, item`parent
  {
    item.parent == dest && dest.itemlist == [item] + destList && from.itemlist == Dropped(fromList, item)
  }

  /** Moved to position 254 of the container it is in, an item leaves it for the parent, if that takes it. */
  method MoveUp(from: Item, up: Item, item: Item, count: nat, autoStack: bool, limits: Limits, ghost w: World)
    returns (r: ReturnValue)
    requires w.Valid() && Tidy(w) && from in w.items && item in from.itemlist && item in w.items
    requires from.container && from.unlocked && from.parent == up && up in w.items && Takes(up, item, count, limits, w)
    modifies w`items, w`loads, w`depth, w.items`totalWeight, from`itemlist, up`itemlist
    modifies item`ty, item`attributes, item`count, item`parent
    ensures w.Valid() && Tidy(w) && r == NoError && Moved(from, up, item, old(from.itemlist), old(up.itemlist))
  {
    assert w.LinkOk(from);
    UpLeadsOut(from, item, autoStack, w);
    var moved, way;
    r, moved, way := InternalMoveItem(from, from, 254, item, count, autoStack, limits, w, Weights());
  }

  /** Dropped on a container in a list, an item ends up in that container, if it takes it. */
  method MoveInto(from: Item, c: Item, index: nat, into: Item, item: Item, count: nat, autoStack: bool, limits: Limits,
                  ghost w: World)
    returns (r: ReturnValue)
    requires w.Valid() && Tidy(w) && from in w.items && item in from.itemlist && item in w.items
    requires c in w.items && c.container && c.unlocked && index < |c.itemlist| && index != 254 && index != 255
    requires c.itemlist[index] == into && into in w.items && into.container && into != from
    requires Takes(into, item, count, limits, w)
    modifies w`items, w`loads, w`depth, w.items`totalWeight, from`itemlist, into`itemlist
    modifies item`ty, item`attributes, item`count, item`parent
    ensures w.Valid() && Tidy(w) && r == NoError && Moved(from, into, item, old(from.itemlist), old(into.itemlist))
  {
    assert TidyItem(c);
    ContainerLeadsIn(c, index, item, autoStack, w);
    var moved, way;
    r, moved, way := InternalMoveItem(from, c, index, item, count, autoStack, limits, w, Weights());
  }

  /** `other`, at place `k`, is the first stack in `c` that can be topped up, and has room for so many more. */
  ghost predicate TopsFirst(c: Item, k: nat, other: Item, item: Item, count: nat)
    reads c, c.itemlist, other, item
  {
    && k < |c.itemlist| && c.itemlist[k] == other && Tops(other, item) && 0 < count && other.count + count <= STACK
    && forall j :: 0 <= j < k ==> !Tops(c.itemlist[j], item)
  }

  /** It is where pieces dropped anywhere go, when they stack by themselves. */
  lemma {:induction false} FirstTopIs(c: Item, k: nat, other: Item, item: Item, count: nat, n: nat)
    requires TopsFirst(c, k, other, item, count) && n <= k
    ensures FirstTop(c.itemlist, item, n) == k
    decreases k - n
  {
    if n < k {
      FirstTopIs(c, k, other, item, count, n + 1);
    }
  }

  lemma StacksThere(c: Item, k: nat, other: Item, item: Item, count: nat, limits: Limits, w: World)
    requires w.Valid() && Tidy(w) && c in w.items && c.container && item in w.items && item.ty.stackable && item.parent != c
    requires c.unlocked && item.ty.pickupable && item.ty.moveable && TopsFirst(c, k, other, item, count)
    requires Agree(w, c, item, count, limits) && Agree(w, c, item, STACK - other.count, limits)
    ensures Follow(c, WHEREVER, item, true, 0, w) == Way(c, k, other)
    ensures Admits(c, k, item, count, limits, w) && Movable(c, k, item, count, limits, w) == count
    ensures Equals(item, other) && Fitting(item, other, count) == count
  {
    FirstTopIs(c, k, other, item, count, 0);
    assert w.LinkOk(item) && TidyItem(item) && w.LinkOk(c);
    Childless(w, c, item);
    assert Open(c, k, item, w) && Open(c, 0, item, w);
    assert Space(c, other, item, limits, w) == STACK - other.count;
  }

  /** Pieces that stack by themselves go onto the first stack of their kind with room, and the list stays as it is. */
  method MoveOnto(from: Item, c: Item, k: nat, other: Item, item: Item, count: nat, limits: Limits, ghost w: World)
    returns (r: ReturnValue)
    requires w.Valid() && Tidy(w) && from in w.items && item in from.itemlist && item in w.items && item.ty.stackable
    requires c in w.items && c.container && c.unlocked && item.ty.pickupable && item.ty.moveable && item.parent != c
    requires TopsFirst(c, k, other, item, count) && count <= item.count && from != c
    requires Agree(w, c, item, count, limits) && Agree(w, c, item, STACK - other.count, limits)
    modifies w`items, w`loads, w`depth, w.items`totalWeight, from`itemlist, c`itemlist
    modifies item`ty, item`attributes, item`count, item`parent, other`ty, other`attributes, other`count
    ensures w.Valid() && Tidy(w) && r == NoError
    ensures other.count == old(other.count) + count && c.itemlist == old(c.itemlist)
    ensures if count < old(item.count) then item.count == old(item.count) - count && from.itemlist == old(from.itemlist)
            else item !in w.items && from.itemlist == Dropped(old(from.itemlist), item)
  {
    StacksThere(c, k, other, item, count, limits, w);
    var moved, way;
    r, moved, way := InternalMoveItem(from, c, WHEREVER, item, count, true, limits, w, Weights());
    assert moved == count && [] + c.itemlist == c.itemlist;
  }

  // ------------------------------------------------------------------- room

  ghost function Piled(list: seq<Item>): nat
    reads list`count
  {
    if list == [] then 0 else Piled(list[..|list| - 1]) + list[|list| - 1].count
  }

  /** All that lies in `c` are stacks of the kind of `item`, which lies elsewhere. */
  ghost predicate OneKind(c: Item, item: Item)
    reads c`itemlist, c.itemlist, item
  {
    item !in c.itemlist && forall j :: 0 <= j < |c.itemlist| ==> Equals(c.itemlist[j], item) && c.itemlist[j].count <= STACK
  }

  lemma {:induction false} RoomOnStacks(c: Item, n: nat, item: Item, w: World)
    requires w.Links() && c in w.items && item in w.items && OneKind(c, item) && Open(c, 0, item, w) && n <= |c.itemlist|
    ensures Room(c, n, item, map[], w) + Piled(c.itemlist[..n]) == n * STACK
  {
    if n > 0 {
      RoomOnStacks(c, n - 1, item, w);
      var list, other := c.itemlist[..n], c.itemlist[n - 1];
      assert list[..n - 1] == c.itemlist[..n - 1] && list[n - 1] == other && Equals(other, item);
      assert other in c.itemlist;
    }
  }

  /**
   A container that holds nothing but stacks of a kind takes exactly the pieces of that
   kind that it lacks of a full stack in every place.
   */
  lemma RoomIsMissing(c: Item, item: Item, w: World)
    requires w.Links() && Tidy(w) && c in w.items && c.container && item in w.items && item.ty.stackable
    requires OneKind(c, item) && Open(c, 0, item, w)
    ensures MaxCount(c, WHEREVER, item, map[], w) + Piled(c.itemlist) == c.maxSize * STACK
  {
    assert TidyItem(c);
    RoomOnStacks(c, |c.itemlist|, item, w);
    assert c.itemlist[..|c.itemlist|] == c.itemlist;
  }
}
