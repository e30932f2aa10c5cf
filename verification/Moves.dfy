/**
 Moving items between containers: the queries a container answers, and the
 split, merge and transfer of `internalMoveItem`.
 */
module Moves {
  import opened Containers
  import opened DepotChest
  import opened Items

  const WHEREVER := -1
  const MAX_LAYERS := 16
  const STACK := 100

  datatype ReturnValue = NoError | NotPossible | CannotPickup | ThisIsImpossible | ContainerNotEnoughRoom | NotMoveable | DepotIsFull

  /** No container is over its capacity, and every stack holds 1 to 100 pieces. */
  ghost predicate Tidy(w: World)
    reads w`items, w.items`itemlist, w.items`ty, w.items`count
  {
    forall i {:trigger TidyItem(i)} :: i in w.items ==> TidyItem(i)
  }

  ghost predicate TidyItem(i: Item)
    reads i`itemlist, i`ty, i`count
  {
    && (i.container ==> |i.itemlist| <= i.maxSize)
    && (i.ty.stackable ==> !i.container && !i.ty.fluid && 1 <= i.count <= STACK)
  }

  /** Same type (an id names one type) and same attributes; an absent attribute object only equals an absent one. */
  predicate Equals(a: Item, b: Item?)
    reads a, b
  {
    b != null && a.ty == b.ty && a.attributes == b.attributes
  }

  // ---------------------------------------------------------------- queries

  /** What a container itself asks for: it is open, not full, and does not lie in `item`. */
  ghost predicate Open(c: Item, index: int, item: Item, w: World)
    requires w.Links() && c in w.items
    reads w, w.items, c, item
  {
    && c.unlocked && item.ty.pickupable && !w.OnChain(c, item)
    && !(index == WHEREVER && |c.itemlist| >= c.maxSize)
  }

  /** Why `c` may take `item`: it is open, and the chests that are asked agree. */
  ghost predicate Admits(c: Item, index: int, item: Item, count: nat, limits: Limits, w: World)
    requires w.Links() && c in w.items && item in w.items
    reads w, w.items, c, item
  {
    Open(c, index, item, w) && Agree(w, c, item, count, limits)
  }

  method QueryOpen(c: Item, index: int, item: Item, ghost w: World) returns (r: ReturnValue)
    requires w.Links() && c in w.items
    ensures r == NoError <==> Open(c, index, item, w)
  {
    if !c.unlocked {
      return NotPossible;
    }
    if !item.ty.pickupable {
      return CannotPickup;
    }
    if item == c {
      return ThisIsImpossible;
    }
    assert w.LinkOk(c);
    var cylinder := c.parent;
    while cylinder != null
      invariant cylinder != null ==> cylinder in w.items
      invariant w.OnChain(c, item) <==> cylinder != null && w.OnChain(cylinder, item)
      decreases if cylinder == null then 0 else w.Depth(cylinder) + 1
    {
      if cylinder == item {
        return ThisIsImpossible;
      }
      assert w.LinkOk(cylinder);
      cylinder := cylinder.parent;
    }
    if index == WHEREVER && |c.itemlist| >= c.maxSize {
      return ContainerNotEnoughRoom;
    }
    return NoError;
  }

  /**
   Whether `c` may take the item: a chest checks its limit first; a container
   then looks at itself and asks its top parent last, which answers for the
   limit only. Nobody in between is asked.
   */
  method QueryAdd(c: Item, index: int, item: Item, count: nat, limits: Limits, ghost w: World) returns (r: ReturnValue)
    requires w.Links() && c in w.items && c.container && item in w.items
    ensures r == NoError <==> Admits(c, index, item, count, limits, w)
  {
    var ok := WithinLimit(c, item, count, limits, w);
    if !ok {
      return DepotIsFull;
    }
    r := QueryOpen(c, index, item, w);
    if r == NoError {
      ok := AskTopParent(c, item, count, limits, w);
      r := if ok then NoError else DepotIsFull;
    }
  }

  /** A stack of the kind of `item`, other than it, that is not full. */
  predicate Tops(other: Item, item: Item)
    reads other`ty, other`attributes, other`count, item`ty, item`attributes
  {
    other != item && other.ty == item.ty && other.attributes == item.attributes && other.count < STACK
  }

  /** The pieces that fit on the stack `other` in `c`, if `c` may take as many. */
  ghost function Space(c: Item, other: Item, item: Item, limits: Limits, w: World): nat
    requires w.Links() && c in w.items && item in w.items
    reads w, w.items, c, other, item
  {
    if other.count < STACK && Admits(c, 0, item, STACK - other.count, limits, w) then STACK - other.count else 0
  }

  /** The pieces that fit on top of such stacks among the first `n` in `c`. */
  ghost function Room(c: Item, n: nat, item: Item, limits: Limits, w: World): nat
    requires w.Links() && c in w.items && item in w.items
    reads w, w.items, c, c.itemlist, item
  {
    if n == 0 || n > |c.itemlist| then 0 else
      var other := c.itemlist[n - 1];
      Room(c, n - 1, item, limits, w) + if Tops(other, item) then Space(c, other, item, limits, w) else 0
  }

  /** The pieces that fit on top of what is at `index`, or anywhere. */
  ghost function OnTop(c: Item, index: int, item: Item, limits: Limits, w: World): nat
    requires w.Links() && c in w.items && item in w.items
    reads w, w.items, c, c.itemlist, item
  {
    if index == WHEREVER then Room(c, |c.itemlist|, item, limits, w)
    else if 0 <= index < |c.itemlist| && Equals(item, c.itemlist[index])
    then Space(c, c.itemlist[index], item, limits, w) else 0
  }

  /** How many pieces, or how many items that are no stacks, `c` has room for. */
  ghost function MaxCount(c: Item, index: int, item: Item, limits: Limits, w: World): nat
    requires w.Links() && c in w.items && item in w.items
    reads w, w.items, c, c.itemlist, item
  {
    var free := if c.maxSize > |c.itemlist| then c.maxSize - |c.itemlist| else 0;
    if item.ty.stackable then free * STACK + OnTop(c, index, item, limits, w) else free
  }

  method QuerySpace(c: Item, index: nat, other: Item, item: Item, limits: Limits, ghost w: World) returns (n: nat)
    requires w.Links() && c in w.items && c.container && item in w.items
    ensures n == Space(c, other, item, limits, w)
  {
    n := 0;
    if other.count < STACK {
      var ok := QueryAdd(c, index, item, STACK - other.count, limits, w);
      if ok == NoError {
        n := STACK - other.count;
      }
    }
  }

  method QueryMaxCount(c: Item, index: int, item: Item, count: nat, limits: Limits, ghost w: World)
    returns (r: ReturnValue, maxCount: nat)
    requires w.Links() && c in w.items && c.container && item in w.items && index >= WHEREVER
    ensures maxCount == MaxCount(c, index, item, limits, w)
    ensures r == NoError <==> if item.ty.stackable then maxCount >= count else maxCount > 0
  {
    var free := if c.maxSize > |c.itemlist| then c.maxSize - |c.itemlist| else 0;
    if item.ty.stackable {
      var n := 0;
      if index == WHEREVER {
        n := CountRoom(c, item, limits, w);
      } else if index < |c.itemlist| && Equals(item, c.itemlist[index]) {
        n := QuerySpace(c, index, c.itemlist[index], item, limits, w);
      }
      maxCount := free * STACK + n;
      r := if maxCount < count then ContainerNotEnoughRoom else NoError;
    } else {
      maxCount := free;
      r := if maxCount == 0 then ContainerNotEnoughRoom else NoError;
    }
  }

  /** Asks for every stack with room whether as many pieces may go there. */
  method CountRoom(c: Item, item: Item, limits: Limits, ghost w: World) returns (n: nat)
    requires w.Links() && c in w.items && c.container && item in w.items
    ensures n == Room(c, |c.itemlist|, item, limits, w)
  {
    n := 0;
    var slot: nat := 0;
    for k := 0 to |c.itemlist|
      invariant n == Room(c, k, item, limits, w)
    {
      var other := c.itemlist[k];
      if other != item && Equals(other, item) && other.count < STACK {
        var more := QuerySpace(c, slot, other, item, limits, w);
        slot := slot + 1;
        n := n + more;
      }
    }
  }

  /** `count` pieces of the item can be taken out of `c`. */
  predicate Removable(c: Item, item: Item, count: nat)
    reads c`itemlist, item`ty, item`count
  {
    item in c.itemlist && count > 0 && (item.ty.stackable ==> count <= item.count) && item.ty.moveable
  }

  method QueryRemove(c: Item, item: Item, count: nat) returns (r: ReturnValue)
    ensures r == NoError <==> Removable(c, item, count)
  {
    var index := GetThingIndex(c, item);
    if index == -1 || count == 0 || (item.ty.stackable && count > item.count) {
      return NotPossible;
    }
    r := if item.ty.moveable then NoError else NotMoveable;
  }

  /** The item a destination index denotes. */
  ghost predicate Denotes(c: Item, index: int, toItem: Item?)
    reads c
  {
    && WHEREVER <= index < c.maxSize
    && toItem == if 0 <= index < |c.itemlist| then c.itemlist[index] else null
  }

  /** Where an item goes: a container, a place in it, and what lies there. */
  datatype Way = Way(dest: Item, index: int, toItem: Item?)

  /** The first stack from place `k` on that the item can top up; the length of the list if there is none. */
  ghost function FirstTop(list: seq<Item>, item: Item, k: nat): (n: nat)
    reads list`ty, list`attributes, list`count, item`ty, item`attributes
    ensures n >= k && forall j :: k <= j < n && j < |list| ==> !Tops(list[j], item)
    ensures n < |list| ==> Tops(list[n], item)
    decreases |list| - k
  {
    if k >= |list| || Tops(list[k], item) then k else FirstTop(list, item, k + 1)
  }

  /** The item is to be stacked by itself: it comes from elsewhere, and some stack in `c` can be topped up. */
  ghost predicate Stacks(c: Item, item: Item, autoStack: bool)
    reads c, c.itemlist, item
  {
    autoStack && item.ty.stackable && item.parent != c && exists j :: 0 <= j < |c.itemlist| && Tops(c.itemlist[j], item)
  }

  /**
   Where an item dropped on position `index` of `c` really goes: the parent
   (254), anywhere (255 or past the end), onto a stack to merge with, or into
   the container at that position.
   */
  ghost function Route(c: Item, index: int, item: Item, autoStack: bool): Way
    reads c, c.itemlist, item
  {
    if !c.unlocked then Way(c, index, null)
    else if index == 254 then Way(if c.parent != null then c.parent else c, WHEREVER, null)
    else
      var at := if index == 255 || index >= c.maxSize then WHEREVER else index;
      var top := FirstTop(c.itemlist, item, 0);
      if autoStack && item.ty.stackable && item.parent != c && top < |c.itemlist| then Way(c, top, c.itemlist[top])
      else if 0 <= at < |c.itemlist| then
        if c.itemlist[at].container then Way(c.itemlist[at], WHEREVER, null) else Way(c, at, c.itemlist[at])
      else Way(c, at, null)
  }

  method QueryDestination(c: Item, index: int, item: Item, autoStack: bool, ghost w: World)
    returns (dest: Item, index': int, toItem: Item?)
    requires w.Links() && Tidy(w) && c in w.items && c.container && index >= WHEREVER
    ensures dest in w.items && dest.container && index' >= WHEREVER
    ensures dest == c && c.unlocked ==> Denotes(c, index', toItem)
    ensures dest == c && c.unlocked && toItem != null ==> !toItem.container
    ensures Way(dest, index', toItem) == Route(c, index, item, autoStack)
    ensures !c.unlocked ==> dest == c && index' == index && toItem == null
    ensures c.unlocked && index == 254 ==>
              dest == (if c.parent != null then c.parent else c) && index' == WHEREVER && toItem == null
    ensures c.unlocked && index != 254 && Stacks(c, item, autoStack) ==>
              && dest == c && 0 <= index' < |c.itemlist| && toItem == c.itemlist[index'] && Tops(toItem, item)
              && forall j :: 0 <= j < index' ==> !Tops(c.itemlist[j], item)
    ensures c.unlocked && index != 254 && !Stacks(c, item, autoStack) && index != 255 && 0 <= index < |c.itemlist| ==>
              var there := c.itemlist[index];
              if there.container then dest == there && index' == WHEREVER && toItem == null
              else dest == c && index' == index && toItem == there
    ensures c.unlocked && index != 254 && !Stacks(c, item, autoStack) && (index == 255 || index >= |c.itemlist|) ==>
              && dest == c && toItem == null
              && index' == if index == 255 || index >= c.maxSize then WHEREVER else index
  {
    assert w.LinkOk(c) && TidyItem(c);
    dest, index', toItem := c, index, null;
    if !c.unlocked {
      return;
    }
    if index == 254 {
      index' := WHEREVER;
      if c.parent != null {
        dest := c.parent;
      }
      return;
    }
    if index == 255 || index >= c.maxSize {
      index' := WHEREVER;
    }
    if autoStack && item.ty.stackable && item.parent != c {
      for n := 0 to |c.itemlist|
        invariant FirstTop(c.itemlist, item, 0) == FirstTop(c.itemlist, item, n)
      {
        var listItem := c.itemlist[n];
        if listItem != item && Equals(listItem, item) && listItem.count < STACK {
          assert TidyItem(listItem);
          return c, n, listItem;
        }
      }
    }
    if index' != WHEREVER && index' < |c.itemlist| {
      toItem := c.itemlist[index'];
      assert w.LinkOk(toItem);
      if toItem.container {
        dest := toItem;
        return dest, WHEREVER, null;
      }
    }
  }

  // ----------------------------------------------------------- parent paths

  /** `path` leads from `c` up to an item without parent. */
  ghost predicate IsPath(path: seq<Item>, c: Item)
    reads path`parent
  {
    && path != [] && path[0] == c && path[|path| - 1].parent == null
    && forall k :: 0 <= k < |path| - 1 ==> path[k].parent == path[k + 1]
  }

  lemma {:induction false} FindPath(w: World, c: Item) returns (path: seq<Item>)
    requires w.Links() && c in w.items
    ensures IsPath(path, c) && forall a :: a in path ==> w.OnChain(c, a)
    decreases w.Depth(c)
  {
    assert w.LinkOk(c);
    if c.parent == null {
      path := [c];
    } else {
      var rest := FindPath(w, c.parent);
      path := [c] + rest;
    }
  }

  lemma {:induction false} PathIsChain(w: World, path: seq<Item>, c: Item, a: Item)
    requires w.Links() && c in w.items && IsPath(path, c) && w.OnChain(c, a)
    ensures a in path
    decreases |path|
  {
    if a != c {
      assert w.LinkOk(c);
      assert |path| > 1 && path[1] == c.parent;
      PathIsChain(w, path[1..], c.parent, a);
    }
  }

  // ------------------------------------------------------------ conservation

  /** What one piece of a kind counts for: 1 for those of a choice of kinds and 0 for others, or what it weighs. */
  type Kinds = (ItemType, Attributes) -> int

  /** What so many pieces count for. */
  ghost function Of(kinds: Kinds, ty: ItemType, a: Attributes, n: int): int
    decreases n
  {
    if n <= 0 then 0 else kinds(ty, a) + Of(kinds, ty, a, n - 1)
  }

  lemma {:induction false} OfSplit(kinds: Kinds, ty: ItemType, a: Attributes, m: nat, n: nat)
    ensures Of(kinds, ty, a, m + n) == Of(kinds, ty, a, m) + Of(kinds, ty, a, n)
    decreases m
  {
    if m > 0 {
      OfSplit(kinds, ty, a, m - 1, n);
    }
  }

  lemma {:induction false} OfSame(kinds: Kinds, ty: ItemType, a: Attributes, b: Attributes, n: int)
    requires kinds(ty, a) == kinds(ty, b)
    ensures Of(kinds, ty, a, n) == Of(kinds, ty, b, n)
    decreases n
  {
    if n > 0 {
      OfSame(kinds, ty, a, b, n - 1);
    }
  }

  lemma {:induction false} OfProduct(kinds: Kinds, ty: ItemType, a: Attributes, n: nat)
    ensures Of(kinds, ty, a, n) == kinds(ty, a) * n
    decreases n
  {
    if n > 0 {
      OfProduct(kinds, ty, a, n - 1);
      assert kinds(ty, a) * n == kinds(ty, a) * (n - 1) + kinds(ty, a);
    }
  }

  ghost function Pieces(item: Item, kinds: Kinds): (n: int)
    reads item`ty, item`attributes, item`count
  {
    Of(kinds, item.ty, item.attributes, Number(item))
  }

  ghost function Tally(w: World, kinds: Kinds): (m: map<Item, int>)
    reads w`items, w.items`ty, w.items`attributes, w.items`count
  {
    map i | i in w.items :: Pieces(i, kinds)
  }

  ghost function Total(m: map<Item, int>): (n: int)
    decreases |m|
  {
    if m == map[] then 0 else
      var x :| x in m;
      m[x] + Total(m - {x})
  }

  lemma {:induction false} TotalDrop(m: map<Item, int>, x: Item)
    requires x in m
    ensures Total(m) == m[x] + Total(m - {x})
    decreases |m|
  {
    var y :| y in m && Total(m) == m[y] + Total(m - {y});
    if y != x {
      TotalDrop(m - {y}, x);
      TotalDrop(m - {x}, y);
      assert m - {y} - {x} == m - {x} - {y};
    }
  }

  // ------------------------------------------------------------- the move

  /** The attributes of a clone: a copy, or those of a newly created item when there is nothing to copy. */
  function ClonedAttributes(ty: ItemType, a: Attributes): Attributes {
    if a.Present? then a
    else if DefaultDuration(ty) != 0 then Present(map[Duration := Int(Signed(4, DefaultDuration(ty)))])
    else Absent
  }

  /** A tidy item comes into play. */
  ghost method EnterTidy(item: Item, w: World)
    requires w.Valid() && Tidy(w) && item !in w.items && TidyItem(item)
    requires item.parent == null && item.itemlist == [] && item.totalWeight == 0
    modifies w`items, w`loads
    ensures w.Valid() && Tidy(w) && w.items == old(w.items) + {item}
  {
    Enter(item, w);
    forall d | d in w.items ensures TidyItem(d) {
      assert d != item ==> old(TidyItem(d));
    }
  }

  /** A new stack with the kind of `item`, not yet in any container. */
  method Clone(item: Item, count: nat, ghost w: World) returns (clone: Item)
    requires w.Valid() && item in w.items && 1 <= count <= STACK && Tidy(w)
    modifies w`items, w`loads, w`depth
    ensures fresh(clone) && w.items == old(w.items) + {clone}
    ensures w.Valid() && Tidy(w) && clone.parent == null && !clone.container
    ensures clone.ty == item.ty && clone.count == count
    ensures clone.attributes == ClonedAttributes(item.ty, item.attributes)
  {
    clone := new Item(item.ty, count, ClonedAttributes(item.ty, item.attributes));
    assert TidyItem(item);
    EnterTidy(clone, w);
  }

  /** A removed item without contents leaves the world. */
  ghost method Retire(item: Item, w: World)
    requires w.Valid() && Tidy(w) && item in w.items && item.parent == null && item.itemlist == []
    modifies w`items, w`loads
    ensures w.Valid() && Tidy(w) && w.items == old(w.items) - {item}
  {
    w.items := w.items - {item};
    w.loads := map i | i in w.items :: old(w.loads)[i];
    forall d | d in w.items ensures w.LinkOk(d) && w.LoadOk(d, 0) && TidyItem(d) {
      assert old(w.LinkOk(d) && w.LoadOk(d, 0) && TidyItem(d));
      if d.parent != null {
        assert old(w.LinkOk(d.parent));
      }
      forall k | 0 <= k < |d.itemlist| ensures d.itemlist[k] != item {
      }
      assert LoadsOf(d.itemlist, w.loads) == LoadsOf(d.itemlist, old(w.loads));
    }
  }

  /** No rewriting of attributes during a move leaves the chosen kinds or enters them. */
  ghost predicate Settled(ty: ItemType, a: Attributes, kinds: Kinds) {
    kinds(ty, Renewed(ty, ty, a)) == kinds(ty, a) == kinds(ty, ClonedAttributes(ty, a))
  }

  /** A stack in a list is no ancestor of anything. */
  lemma Childless(w: World, c: Item, a: Item)
    requires w.Links() && c in w.items && a != c && a.itemlist == []
    ensures !w.OnChain(c, a)
  {
    if w.OnChain(c, a) {
      var k := w.ChainChild(c, a);
    }
  }

  lemma OneChanged(before: map<Item, int>, after: map<Item, int>, x: Item)
    requires x in before && x in after && before - {x} == after - {x}
    ensures Total(after) == Total(before) - before[x] + after[x]
  {
    TotalDrop(before, x);
    TotalDrop(after, x);
  }

  /** Takes `m` pieces off a stack in `from`; a stack taken whole leaves the list. */
  method TakeOff(from: Item, item: Item, m: nat, ghost w: World)
    requires w.Valid() && Tidy(w) && from in w.items && item in w.items && item in from.itemlist
    requires item.ty.stackable && 0 < m <= item.count
    modifies w`loads, item`ty, item`attributes, item`count, item`parent, from`itemlist, w.items`totalWeight
    ensures w.Valid() && Tidy(w) && item.ty == old(item.ty) && item.attributes == old(item.attributes)
    ensures if m < old(item.count)
            then from.itemlist == old(from.itemlist) && item.parent == from && item.count == old(item.count) - m
            else item.parent == null && item.itemlist == [] && item.count == old(item.count)
                 && from.itemlist == Dropped(old(from.itemlist), item)
  {
    assert w.LinkOk(from) && w.LinkOk(item) && TidyItem(item);
    StillThere(from.itemlist, item, item);
    RemoveThing(from, item, m, w);
    forall i | i in w.items ensures TidyItem(i) {
      assert old(TidyItem(i));
    }
  }

  /** Puts `n` more pieces on a stack. */
  method PutOn(dest: Item, toItem: Item, n: nat, ghost w: World)
    requires w.Valid() && Tidy(w) && dest in w.items && toItem in dest.itemlist && toItem in w.items
    requires toItem.ty.stackable && toItem.count + n <= STACK
    modifies w`loads, toItem`ty, toItem`attributes, toItem`count, w.items`totalWeight
    ensures w.Valid() && Tidy(w) && toItem.count == old(toItem.count) + n && toItem.ty == old(toItem.ty)
    ensures toItem.attributes == Renewed(toItem.ty, toItem.ty, old(toItem.attributes))
  {
    assert TidyItem(toItem);
    UpdateThing(dest, toItem, toItem.ty, toItem.count + n, w);
    forall i | i in w.items ensures TidyItem(i) {
      assert old(TidyItem(i));
    }
  }

  /** Adds a free item in front of a list with room. */
  method PutIn(dest: Item, index: int, item: Item, ghost w: World)
    requires w.Valid() && Tidy(w) && dest in w.items && item in w.items && dest.container
    requires index < dest.maxSize && |dest.itemlist| < dest.maxSize
    requires item.parent == null && !w.OnChain(dest, item)
    modifies w`depth, w`loads, item`parent, dest`itemlist, w.items`totalWeight
    ensures w.Valid() && Tidy(w)
    ensures dest.itemlist == [item] + old(dest.itemlist) && item.parent == dest
  {
    AddThing(dest, index, item, w);
    forall i | i in w.items ensures TidyItem(i) {
      assert old(TidyItem(i));
    }
  }

  // The same four steps, with what each does to the total of the chosen kinds.

  lemma CountTaken(before: map<Item, int>, after: map<Item, int>, item: Item, m: nat, count: nat, kinds: Kinds)
    requires item in before && item in after && before - {item} == after - {item} && 0 < m <= count && item.ty.stackable
    requires item.count == if m < count then count - m else count
    requires before[item] == Of(kinds, item.ty, item.attributes, count) && after[item] == Pieces(item, kinds)
    ensures Total(after) == Total(before) - if m < count then Of(kinds, item.ty, item.attributes, m) else 0
  {
    OfSplit(kinds, item.ty, item.attributes, m, count - m);
    OneChanged(before, after, item);
  }

  method CountedTakeOff(from: Item, item: Item, m: nat, ghost w: World, ghost kinds: Kinds)
    requires w.Valid() && Tidy(w) && from in w.items && item in w.items && item in from.itemlist
    requires item.ty.stackable && 0 < m <= item.count
    modifies w`loads, item`ty, item`attributes, item`count, item`parent, from`itemlist, w.items`totalWeight
    ensures w.Valid() && Tidy(w) && item.ty == old(item.ty) && item.attributes == old(item.attributes)
    ensures if m < old(item.count)
            then from.itemlist == old(from.itemlist) && item.parent == from && item.count == old(item.count) - m
            else item.parent == null && item.itemlist == [] && item.count == old(item.count)
                 && from.itemlist == Dropped(old(from.itemlist), item)
    ensures Total(Tally(w, kinds)) == old(Total(Tally(w, kinds)))
              - if m < old(item.count) then Of(kinds, item.ty, item.attributes, m) else 0
  {
    ghost var before, count := Tally(w, kinds), item.count;
    TakeOff(from, item, m, w);
    CountTaken(before, Tally(w, kinds), item, m, count, kinds);
  }

  method CountedPutOn(dest: Item, toItem: Item, n: nat, ghost w: World, ghost kinds: Kinds)
    requires w.Valid() && Tidy(w) && dest in w.items && toItem in dest.itemlist && toItem in w.items
    requires toItem.ty.stackable && toItem.count + n <= STACK
    modifies w`loads, toItem`ty, toItem`attributes, toItem`count, w.items`totalWeight
    ensures w.Valid() && Tidy(w) && toItem.count == old(toItem.count) + n && toItem.ty == old(toItem.ty)
    ensures toItem.attributes == Renewed(toItem.ty, toItem.ty, old(toItem.attributes))
    ensures Total(Tally(w, kinds)) == old(Total(Tally(w, kinds)) - Pieces(toItem, kinds)) + Pieces(toItem, kinds)
  {
    ghost var before := Tally(w, kinds);
    PutOn(dest, toItem, n, w);
    OneChanged(before, Tally(w, kinds), toItem);
  }

  method CountedClone(item: Item, count: nat, ghost w: World, ghost kinds: Kinds) returns (clone: Item)
    requires w.Valid() && item in w.items && 1 <= count <= STACK && Tidy(w)
    modifies w`items, w`loads, w`depth
    ensures fresh(clone) && w.items == old(w.items) + {clone}
    ensures w.Valid() && Tidy(w) && clone.parent == null && clone.itemlist == []
    ensures clone.ty == item.ty && clone.count == count
    ensures clone.attributes == ClonedAttributes(item.ty, item.attributes)
    ensures Total(Tally(w, kinds)) == old(Total(Tally(w, kinds))) + Pieces(clone, kinds)
  {
    ghost var before := Tally(w, kinds);
    clone := Clone(item, count, w);
    assert w.LinkOk(clone) && Tally(w, kinds) - {clone} == before;
    TotalDrop(Tally(w, kinds), clone);
  }

  ghost method CountedRetire(item: Item, w: World, kinds: Kinds)
    requires w.Valid() && Tidy(w) && item in w.items && item.parent == null && item.itemlist == []
    modifies w`items, w`loads
    ensures w.Valid() && Tidy(w) && w.items == old(w.items) - {item}
    ensures Total(Tally(w, kinds)) == old(Total(Tally(w, kinds))) - Pieces(item, kinds)
  {
    var before := Tally(w, kinds);
    Retire(item, w);
    TotalDrop(before, item);
    assert before - {item} == Tally(w, kinds);
  }

  method CountedPutIn(dest: Item, index: int, item: Item, ghost w: World, ghost kinds: Kinds)
    requires w.Valid() && Tidy(w) && dest in w.items && item in w.items && dest.container
    requires index < dest.maxSize && |dest.itemlist| < dest.maxSize
    requires item.parent == null && !w.OnChain(dest, item)
    modifies w`depth, w`loads, item`parent, dest`itemlist, w.items`totalWeight
    ensures w.Valid() && Tidy(w)
    ensures dest.itemlist == [item] + old(dest.itemlist) && item.parent == dest
    ensures Total(Tally(w, kinds)) == old(Total(Tally(w, kinds)))
  {
    ghost var before := Tally(w, kinds);
    PutIn(dest, index, item, w);
    assert Tally(w, kinds) == before;
  }

  // ------------------------------------------------------ moving part of a stack

  function Fitting(item: Item, toItem: Item?, m: nat): (n: nat)
    reads item, toItem
    ensures n <= m
  {
    if toItem != null && Equals(item, toItem) && toItem.count <= STACK then
      if STACK - toItem.count < m then STACK - toItem.count else m
    else 0
  }

  ghost function Target(toItem: Item?): set<Item> {
    if toItem == null then {} else {toItem}
  }

  ghost function Onto(toItem: Item?): nat
    reads toItem
  {
    if toItem == null then 0 else toItem.count
  }

  /**
   What a move finds: the item, how many pieces fit on the item at the destination,
   whether they merge with it, and that item; the two lists and the items in play.
   */
  datatype Stock = Stock(
    ty: ItemType, attributes: Attributes, count: nat, merges: bool, fits: nat,
    ontoTy: ItemType, ontoAttributes: Attributes, onto: nat,
    fromList: seq<Item>, destList: seq<Item>, items: set<Item>)

  ghost function Before(from: Item, way: Way, item: Item, m: nat, w: World): Stock
    reads w`items, from, item, way.dest, way.toItem
  {
    var other := if way.toItem == null then item else way.toItem;
    Stock(item.ty, item.attributes, item.count, Equals(item, way.toItem), Fitting(item, way.toItem, m),
          other.ty, other.attributes, Onto(way.toItem), from.itemlist, way.dest.itemlist, w.items)
  }

  /**
   What delivering `m` pieces adds to the count of the chosen kinds: all pieces of a
   stack merged with get the attributes that `setID` leaves it, and those of the new
   stack are a clone's.
   */
  ghost function Gain(was: Stock, m: int, kinds: Kinds): int {
    Merged(was, kinds) + Of(kinds, was.ty, ClonedAttributes(was.ty, was.attributes), m - was.fits)
  }

  /** What merging adds. */
  ghost function Merged(was: Stock, kinds: Kinds): int {
    if was.merges
    then Of(kinds, was.ty, Renewed(was.ty, was.ty, was.attributes), was.onto + was.fits)
         - Of(kinds, was.ty, was.attributes, was.onto)
    else 0
  }

  /** What a move of `moved` pieces adds. */
  ghost function Drift(was: Stock, moved: nat, kinds: Kinds): int {
    if moved == 0 || !was.ty.stackable then 0
    else Gain(was, moved, kinds) - Of(kinds, was.ty, was.attributes, moved)
  }

  /** The item's kind and the item at the destination are still as they were found. */
  ghost predicate Matches(was: Stock, item: Item, toItem: Item?, m: nat)
    reads item, toItem
  {
    && item.ty == was.ty && item.attributes == was.attributes
    && was.merges == Equals(item, toItem) && was.fits == Fitting(item, toItem, m)
    && (toItem != null ==>
          toItem.ty == was.ontoTy && toItem.attributes == was.ontoAttributes && toItem.count == was.onto)
  }

  /** The item at the destination has the pieces that fit, and new attributes if it was merged with. */
  ghost predicate ToppedUp(toItem: Item?, was: Stock)
    reads toItem
  {
    toItem != null ==>
      && toItem.ty == was.ontoTy && toItem.count == was.onto + was.fits
      && toItem.attributes == if was.merges then Renewed(was.ty, was.ty, was.attributes) else was.ontoAttributes
  }

  /** The rest of the pieces, as a new stack. */
  ghost predicate NewStack(stack: Item, dest: Item, moved: nat, was: Stock)
    reads stack
  {
    && stack !in was.items && stack.parent == dest && stack.count == moved - was.fits
    && stack.ty == was.ty && stack.attributes == ClonedAttributes(was.ty, was.attributes)
  }

  /** Tops up the stack at the destination, if it is of the same kind: even a full one is updated. */
  method MergeOnto(dest: Item, toItem: Item?, item: Item, m: nat, ghost was: Stock, ghost w: World, ghost kinds: Kinds)
    returns (n: nat)
    requires w.Valid() && Tidy(w) && dest in w.items && item.ty.stackable && Matches(was, item, toItem, m)
    requires toItem != null ==> toItem in dest.itemlist && toItem in w.items && toItem != item
    modifies w`loads, w.items`totalWeight, Target(toItem)`ty, Target(toItem)`attributes, Target(toItem)`count
    ensures w.Valid() && Tidy(w) && n == was.fits && ToppedUp(toItem, was)
    ensures Total(Tally(w, kinds)) == old(Total(Tally(w, kinds))) + Merged(was, kinds)
  {
    n := 0;
    if toItem != null && Equals(item, toItem) {
      assert TidyItem(toItem);
      n := if STACK - toItem.count < m then STACK - toItem.count else m;
      assert Pieces(toItem, kinds) == Of(kinds, was.ty, was.attributes, was.onto);
      CountedPutOn(dest, toItem, n, w, kinds);
      assert Pieces(toItem, kinds) == Of(kinds, was.ty, Renewed(was.ty, was.ty, was.attributes), was.onto + was.fits);
    }
  }

  /** The pieces that did not fit on a stack become a new one in front of the list. */
  method AddRest(dest: Item, index: int, item: Item, rest: nat, ghost m: nat, ghost was: Stock, ghost w: World,
                 ghost kinds: Kinds)
    returns (moveItem: Item)
    requires w.Valid() && Tidy(w) && dest in w.items && item in w.items && dest.container && item.ty.stackable
    requires 1 <= rest <= STACK && index < dest.maxSize && |dest.itemlist| < dest.maxSize
    requires item.ty == was.ty && item.attributes == was.attributes && rest == m - was.fits && was.items == w.items
    modifies w`items, w`loads, w`depth, dest`itemlist, w.items`totalWeight
    ensures w.Valid() && Tidy(w) && w.items == old(w.items) + {moveItem} && fresh(moveItem)
    ensures NewStack(moveItem, dest, m, was)
    ensures dest.itemlist == [moveItem] + old(dest.itemlist)
    ensures Total(Tally(w, kinds)) == old(Total(Tally(w, kinds)))
              + Of(kinds, was.ty, ClonedAttributes(was.ty, was.attributes), rest)
  {
    moveItem := CountedClone(item, rest, w, kinds);
    Childless(w, dest, moveItem);
    CountedPutIn(dest, index, moveItem, w, kinds);
  }

  lemma GainIs(was: Stock, m: nat, kinds: Kinds, before: int, merged: int, after: int)
    requires was.fits <= m && merged == before + Merged(was, kinds)
    requires after == merged
             + if m > was.fits then Of(kinds, was.ty, ClonedAttributes(was.ty, was.attributes), m - was.fits) else 0
    ensures after == before + Gain(was, m, kinds)
  {}

  /** Delivers `m` pieces of the kind of `item`: onto `toItem` as far as they fit, the rest as a new stack. */
  method Deliver(dest: Item, index: int, item: Item, m: nat, toItem: Item?, ghost was: Stock, ghost w: World,
                 ghost kinds: Kinds)
    returns (moveItem: Item?)
    requires w.Valid() && Tidy(w) && dest in w.items && item in w.items && dest.container && item.ty.stackable
    requires 0 < m <= STACK && index < dest.maxSize && Matches(was, item, toItem, m) && was.items == w.items
    requires toItem != null ==> toItem in dest.itemlist && toItem in w.items && toItem != item
    requires |dest.itemlist| < dest.maxSize || was.fits == m
    modifies w`items, w`loads, w`depth, dest`itemlist, w.items`totalWeight
    modifies Target(toItem)`ty, Target(toItem)`attributes, Target(toItem)`count
    ensures w.Valid() && Tidy(w) && was.fits <= m && (moveItem == null <==> was.fits == m) && ToppedUp(toItem, was)
    ensures w.items == was.items + Target(moveItem)
    ensures moveItem != null ==> fresh(moveItem) && NewStack(moveItem, dest, m, was)
    ensures dest.itemlist == (if moveItem == null then [] else [moveItem]) + old(dest.itemlist)
    ensures Total(Tally(w, kinds)) == old(Total(Tally(w, kinds))) + Gain(was, m, kinds)
  {
    moveItem := null;
    ghost var total := Total(Tally(w, kinds));
    var n := MergeOnto(dest, toItem, item, m, was, w, kinds);
    assert item.ty == was.ty && item.attributes == was.attributes;
    ghost var merged := Total(Tally(w, kinds));
    if m - n > 0 {
      moveItem := AddRest(dest, index, item, m - n, m, was, w, kinds);
    }
    GainIs(was, m, kinds, total, merged, Total(Tally(w, kinds)));
  }

  lemma {:induction false} StillThere(list: seq<Item>, item: Item, x: Item)
    ensures x in list && x != item ==> x in Dropped(list, item)
    ensures |Dropped(list, item)| <= |list|
  {
    if list != [] {
      StillThere(list[1..], item, x);
    }
  }

  /** The item leaves its list if all of it moves; `front` comes before the destination's list. */
  ghost predicate Relisted(from: Item, dest: Item, item: Item, taken: bool, front: seq<Item>, was: Stock)
    reads from`itemlist, dest`itemlist
  {
    var rest := if taken then Dropped(was.fromList, item) else was.fromList;
    && dest.itemlist == front + (if from == dest then rest else was.destList)
    && (from != dest ==> from.itemlist == rest)
  }

  ghost predicate Kept(item: Item, was: Stock, count: int)
    reads item`ty, item`attributes, item`count
  {
    item.ty == was.ty && item.attributes == was.attributes && item.count == count
  }

  /**
   Where the pieces are after a move: a stack is shorter or gone, what fits is on
   the stack at the destination, and the others form a new stack in front; an
   item that is no stack is in front itself.
   */
  ghost predicate Arrived(from: Item, way: Way, item: Item, moved: nat, was: Stock, w: World)
    reads w`items, from, item, way.dest, way.toItem, way.dest.itemlist
  {
    if !was.ty.stackable then
      && Kept(item, was, was.count) && item.parent == way.dest && w.items == was.items
      && Relisted(from, way.dest, item, true, [item], was)
    else
      && was.fits <= moved <= was.count && ToppedUp(way.toItem, was)
      && (moved < was.count ==> item.parent == from && Kept(item, was, was.count - moved))
      && var left := was.items - if moved == was.count then {item} else {};
         if was.fits == moved then w.items == left && Relisted(from, way.dest, item, moved == was.count, [], was)
         else
           && way.dest.itemlist != [] && NewStack(way.dest.itemlist[0], way.dest, moved, was)
           && w.items == left + {way.dest.itemlist[0]}
           && Relisted(from, way.dest, item, moved == was.count, [way.dest.itemlist[0]], was)
  }

  /** What can be moved at the way's end: everything `CarryOut` needs to know. */
  ghost predicate Ready(from: Item, way: Way, item: Item, m: nat, w: World)
    requires w.Links()
    reads w, w.items, from, way.dest, way.dest.itemlist, way.toItem, item
  {
    && item in from.itemlist && way.dest in w.items && way.dest.container && way.dest.unlocked && !w.OnChain(way.dest, item)
    && Denotes(way.dest, way.index, way.toItem) && way.toItem != item && 0 < m
    && (item.ty.stackable ==> m <= item.count)
    && (|way.dest.itemlist| < way.dest.maxSize || (item.ty.stackable && Fitting(item, way.toItem, m) == m))
  }

  /** Where the pieces of a stack are before an emptied stack is released. */
  ghost predicate Delivered(from: Item, way: Way, item: Item, m: nat, was: Stock, moveItem: Item?)
    reads from, item, way.dest, way.toItem, moveItem
  {
    && was.fits <= m && (moveItem == null <==> was.fits == m) && ToppedUp(way.toItem, was)
    && (moveItem != null ==> NewStack(moveItem, way.dest, m, was))
    && Relisted(from, way.dest, item, m == was.count, if moveItem == null then [] else [moveItem], was)
  }

  method TransferStack(from: Item, way: Way, item: Item, m: nat, ghost w: World, ghost kinds: Kinds)
    returns (moveItem: Item?)
    requires w.Valid() && Tidy(w) && from in w.items && item in w.items && item.ty.stackable
    requires Ready(from, way, item, m, w)
    modifies w`items, w`loads, w`depth, w.items`totalWeight, from`itemlist, way.dest`itemlist
    modifies item`ty, item`attributes, item`count, item`parent
    modifies Target(way.toItem)`ty, Target(way.toItem)`attributes, Target(way.toItem)`count
    ensures w.Valid() && Tidy(w) && w.items == old(w.items) + Target(moveItem)
    ensures Delivered(from, way, item, m, old(Before(from, way, item, m, w)), moveItem)
    ensures item.ty == old(item.ty) && item.attributes == old(item.attributes)
    ensures if m < old(item.count) then item.parent == from && item.count == old(item.count) - m
            else item.parent == null && item.itemlist == [] && item.count == m
    ensures Total(Tally(w, kinds)) == old(Total(Tally(w, kinds))) + Drift(old(Before(from, way, item, m, w)), m, kinds)
              + if m == old(item.count) then Pieces(item, kinds) else 0
  {
    ghost var was := Before(from, way, item, m, w);
    assert TidyItem(item) && TidyItem(way.dest) && w.LinkOk(way.dest);
    CountedTakeOff(from, item, m, w, kinds);
    StillThere(was.fromList, item, if way.toItem == null then item else way.toItem);
    moveItem := Deliver(way.dest, way.index, item, m, way.toItem, was, w, kinds);
  }

  lemma DeliveredArrived(from: Item, way: Way, item: Item, m: nat, was: Stock, moveItem: Item?, w: World)
    requires Delivered(from, way, item, m, was, moveItem) && was.ty.stackable && m <= was.count
    requires m < was.count ==> item.parent == from && Kept(item, was, was.count - m)
    requires w.items == was.items + Target(moveItem) - (if m == was.count then {item} else {}) && item in was.items
    ensures Arrived(from, way, item, m, was, w)
  {}

  /** Moves `m` pieces of a stack; a stack moved whole is released. */
  method MoveStack(from: Item, way: Way, item: Item, m: nat, ghost w: World, ghost kinds: Kinds)
    requires w.Valid() && Tidy(w) && from in w.items && item in w.items && item.ty.stackable
    requires Ready(from, way, item, m, w)
    modifies w`items, w`loads, w`depth, w.items`totalWeight, from`itemlist, way.dest`itemlist
    modifies item`ty, item`attributes, item`count, item`parent
    modifies Target(way.toItem)`ty, Target(way.toItem)`attributes, Target(way.toItem)`count
    ensures w.Valid() && Tidy(w) && Arrived(from, way, item, m, old(Before(from, way, item, m, w)), w)
    ensures Total(Tally(w, kinds)) == old(Total(Tally(w, kinds))) + Drift(old(Before(from, way, item, m, w)), m, kinds)
  {
    ghost var was := Before(from, way, item, m, w);
    var moveItem := TransferStack(from, way, item, m, w, kinds);
    if item.parent == null {
      CountedRetire(item, w, kinds);
    }
    DeliveredArrived(from, way, item, m, was, moveItem, w);
  }

  /** Moves an item that is not a stack, with everything in it. */
  method MoveWhole(from: Item, way: Way, item: Item, m: nat, ghost w: World, ghost kinds: Kinds)
    requires w.Valid() && Tidy(w) && from in w.items && item in w.items && !item.ty.stackable
    requires Ready(from, way, item, m, w)
    modifies w`depth, w`loads, w.items`totalWeight, from`itemlist, way.dest`itemlist
    modifies item`ty, item`attributes, item`count, item`parent
    ensures w.Valid() && Tidy(w) && Arrived(from, way, item, 1, old(Before(from, way, item, m, w)), w)
    ensures Total(Tally(w, kinds)) == old(Total(Tally(w, kinds)))
  {
    StillThere(from.itemlist, item, item);
    TakeWhole(from, item, m, way.dest, w, kinds);
    CountedPutIn(way.dest, way.index, item, w, kinds);
  }

  method TakeWhole(from: Item, item: Item, m: nat, ghost dest: Item, ghost w: World, ghost kinds: Kinds)
    requires w.Valid() && Tidy(w) && from in w.items && dest in w.items && item in w.items
    requires item in from.itemlist && !item.ty.stackable && !w.OnChain(dest, item)
    modifies w`loads, item`ty, item`attributes, item`count, item`parent, from`itemlist, w.items`totalWeight
    ensures w.Valid() && Tidy(w) && item.parent == null && !w.OnChain(dest, item)
    ensures from.itemlist == Dropped(old(from.itemlist), item)
    ensures item.ty == old(item.ty) && item.attributes == old(item.attributes) && item.count == old(item.count)
    ensures Tally(w, kinds) == old(Tally(w, kinds))
  {
    assert w.LinkOk(from) && w.LinkOk(item);
    ghost var path := FindPath(w, dest);
    StillThere(from.itemlist, item, item);
    RemoveThing(from, item, m, w);
    forall i | i in w.items ensures TidyItem(i) {
      assert old(TidyItem(i));
    }
    assert IsPath(path, dest);
    if w.OnChain(dest, item) {
      PathIsChain(w, path, dest, item);
    }
  }

  /** Redirections followed until a container keeps the item for itself, or too many layers were crossed. */
  ghost function Follow(c: Item, index: int, item: Item, autoStack: bool, floorN: nat, w: World): Way
    requires w.Links() && c in w.items && item in w.items
    reads w, w.items
    decreases MAX_LAYERS - floorN
  {
    assert w.LinkOk(c);
    var way := Route(c, index, item, autoStack);
    if way.dest == c || floorN + 1 >= MAX_LAYERS || way.dest !in w.items then way
    else Follow(way.dest, way.index, item, true, floorN + 1, w)
  }

  /** One redirection, and what it leaves to be followed. */
  method Redirect(c: Item, index: int, item: Item, autoStack: bool, floorN: nat, ghost w: World)
    returns (dest: Item, index': int, toItem: Item?)
    requires w.Links() && Tidy(w) && c in w.items && c.container && index >= WHEREVER && item in w.items && floorN < MAX_LAYERS
    ensures dest in w.items && dest.container && index' >= WHEREVER
    ensures dest == c && c.unlocked ==> Denotes(c, index', toItem) && (toItem != null ==> !toItem.container)
    ensures dest != c ==> index' == WHEREVER && toItem == null
    ensures Follow(c, index, item, autoStack, floorN, w) ==
            if dest == c || floorN + 1 >= MAX_LAYERS then Way(dest, index', toItem)
            else Follow(dest, index', item, true, floorN + 1, w)
  {
    dest, index', toItem := QueryDestination(c, index, item, autoStack, w);
  }

  method FindDestination(toCylinder: Item, index: int, item: Item, autoStack: bool, ghost w: World)
    returns (dest: Item, index': int, toItem: Item?)
    requires w.Links() && Tidy(w) && toCylinder in w.items && toCylinder.container && index >= WHEREVER && item in w.items
    ensures dest in w.items && dest.container && index' >= WHEREVER
    ensures dest.unlocked ==> Denotes(dest, index', toItem) && (toItem != null ==> !toItem.container)
    ensures Way(dest, index', toItem) == Follow(toCylinder, index, item, autoStack, 0, w)
  {
    dest, index', toItem := toCylinder, index, null;
    var floorN: nat, stack := 0, autoStack;
    while true
      invariant dest in w.items && dest.container && index' >= WHEREVER
      invariant floorN < MAX_LAYERS
      invariant Follow(dest, index', item, stack, floorN, w) == Follow(toCylinder, index, item, autoStack, 0, w)
      decreases MAX_LAYERS - floorN
    {
      var sub;
      sub, index', toItem := Redirect(dest, index', item, stack, floorN, w);
      if sub == dest {
        return;
      }
      dest := sub;
      stack := true;
      floorN := floorN + 1;
      if floorN >= MAX_LAYERS {
        return;
      }
    }
  }

  /** How much of the item there is room for. */
  ghost function Movable(dest: Item, index: int, item: Item, count: nat, limits: Limits, w: World): nat
    requires w.Links() && dest in w.items && item in w.items
    reads w, w.items, dest, dest.itemlist, item
  {
    var most := MaxCount(dest, index, item, limits, w);
    if item.ty.stackable && count < most then count else most
  }

  /** All three queries agree to a move: the destination takes the item, has room, and the source lets it go. */
  ghost predicate Allowed(from: Item, dest: Item, index: int, item: Item, count: nat, limits: Limits, w: World)
    requires w.Links() && dest in w.items && item in w.items
    reads w, w.items, dest, dest.itemlist, item, from
  {
    Admits(dest, index, item, count, limits, w) && Removable(from, item, Movable(dest, index, item, count, limits, w))
  }

  /** The answers of the three queries that decide a move: whether, and how many pieces. */
  method DecideMove(from: Item, dest: Item, index: int, item: Item, toItem: Item?, count: nat, limits: Limits,
                    ghost w: World)
    returns (r: ReturnValue, retMaxCount: ReturnValue, maxCount: nat, m: nat)
    requires w.Valid() && Tidy(w) && dest in w.items && dest.container && item in w.items && index >= WHEREVER
    requires dest.unlocked ==> Denotes(dest, index, toItem)
    ensures r == NoError <==> Allowed(from, dest, index, item, count, limits, w)
    ensures r == NoError ==>
              && item in from.itemlist && dest.unlocked && !w.OnChain(dest, item) && 0 < m
              && m == Movable(dest, index, item, count, limits, w) && maxCount == MaxCount(dest, index, item, limits, w)
              && (item.ty.stackable ==> m <= item.count && (retMaxCount == NoError <==> maxCount >= count))
              && (|dest.itemlist| < dest.maxSize || (item.ty.stackable && Fitting(item, toItem, m) == m))
  {
    retMaxCount, maxCount, m := NoError, 0, 0;
    r := QueryAdd(dest, index, item, count, limits, w);
    if r == NoError {
      r, retMaxCount, maxCount, m := DecideCount(from, dest, index, item, count, limits, w);
      assert TidyItem(dest);
    }
  }

  /** The part of the decision that is about the pieces: how many find room, and whether they can be taken. */
  method DecideCount(from: Item, dest: Item, index: int, item: Item, count: nat, limits: Limits, ghost w: World)
    returns (r: ReturnValue, retMaxCount: ReturnValue, maxCount: nat, m: nat)
    requires w.Links() && dest in w.items && dest.container && item in w.items && index >= WHEREVER
    ensures r == NoError <==> Removable(from, item, Movable(dest, index, item, count, limits, w))
    ensures m == Movable(dest, index, item, count, limits, w) && maxCount == MaxCount(dest, index, item, limits, w)
    ensures item.ty.stackable ==> (retMaxCount == NoError <==> maxCount >= count)
  {
    retMaxCount, maxCount := QueryMaxCount(dest, index, item, count, limits, w);
    m := if item.ty.stackable && count < maxCount then count else maxCount;
    if retMaxCount != NoError && maxCount == 0 {
      return retMaxCount, retMaxCount, maxCount, m;
    }
    r := QueryRemove(from, item, m);
  }

  // ------------------------------------------ which kinds a move conserves

  /** Counting by id alone is never disturbed by attributes. */
  lemma ByIdSettled(ty: ItemType, a: Attributes, id: nat)
    ensures Settled(ty, a, (t: ItemType, b: Attributes) => if t.id == id then 1 else 0)
  {}

  /** What `setID` to the same type leaves alone. */
  predicate Undisturbed(ty: ItemType, a: Attributes) {
    var duration := DefaultDuration(ty);
    && (duration == 0 && !ty.stopTime && ty.decayTo < 0 ==> !Has(a, DecayState) && !Has(a, Duration))
    && (Has(a, CorpseOwner) ==> a.values[CorpseOwner] == Int(REWARD_CORPSE))
    && (duration > 0 && (!ty.stopTime || !Has(a, Duration)) ==>
          && Has(a, Duration) && a.values[Duration] == Int(Signed(4, duration))
          && Has(a, DecayState) && a.values[DecayState] == Int(0))
  }

  /** Merging onto a stack keeps its attributes exactly when they are undisturbed. */
  lemma RenewedUnchanged(ty: ItemType, a: Attributes)
    ensures Renewed(ty, ty, a) == a <==> Undisturbed(ty, a)
  {
    var duration := DefaultDuration(ty);
    if a.Present? {
      assert a.values - {DecayState, Duration} == a.values
        <==> !Has(a, DecayState) && !Has(a, Duration);
      assert a.values - {CorpseOwner} == a.values <==> !Has(a, CorpseOwner);
    }
  }

  /** Every choice of kinds is settled on an undisturbed item. */
  lemma AllKindsSettled(ty: ItemType, a: Attributes, kinds: Kinds)
    requires Undisturbed(ty, a)
    ensures Settled(ty, a, kinds)
  {
    RenewedUnchanged(ty, a);
  }

  /** The one kind with this id and these attributes. */
  function Only(id: nat, a: Attributes): Kinds {
    (ty: ItemType, b: Attributes) => if ty.id == id && b == a then 1 else 0
  }

  lemma OnlyCounts(id: nat, a: Attributes, ty: ItemType, b: Attributes, n: int)
    ensures Of(Only(id, a), ty, b, n) == if n > 0 && ty.id == id && b == a then n else 0
  {
    if n > 0 {
      OfProduct(Only(id, a), ty, b, n);
    }
  }

  /**
   When a move conserves the kind of its item: nothing moves, or it is no stack, or
   a stack merged with keeps its attributes, and so does the new stack, if there is one.
   */
  predicate Conserves(was: Stock, moved: nat) {
    || moved == 0 || !was.ty.stackable
    || ((!was.merges || Undisturbed(was.ty, was.attributes))
        && (was.fits == moved || ClonedAttributes(was.ty, was.attributes) == was.attributes))
  }

  ghost predicate Sound(was: Stock, moved: nat) {
    was.ty.stackable ==> was.fits <= moved && (if was.merges then was.onto > 0 else was.fits == 0)
  }

  /**
   The count of the chosen kinds after a move: exactly the drift. It is conserved if
   the kinds are settled; for the one kind of the item it is conserved exactly if
   `Conserves` says so.
   */
  ghost predicate Accounted(was: Stock, moved: nat, kinds: Kinds, before: int, after: int) {
    && after == before + Drift(was, moved, kinds)
    && (Settled(was.ty, was.attributes, kinds) ==> after == before)
    && (kinds == Only(was.ty.id, was.attributes) ==> (after == before <==> Conserves(was, moved)))
  }

  lemma ConservedIff(was: Stock, moved: nat)
    requires Sound(was, moved)
    ensures Drift(was, moved, Only(was.ty.id, was.attributes)) == 0 <==> Conserves(was, moved)
  {
    var id, a := was.ty.id, was.attributes;
    OnlyCounts(id, a, was.ty, a, was.onto);
    OnlyCounts(id, a, was.ty, a, moved);
    OnlyCounts(id, a, was.ty, Renewed(was.ty, was.ty, a), was.onto + was.fits);
    OnlyCounts(id, a, was.ty, ClonedAttributes(was.ty, a), moved - was.fits);
    RenewedUnchanged(was.ty, was.attributes);
  }

  lemma SettledConserves(was: Stock, moved: nat, kinds: Kinds)
    requires Sound(was, moved) && Settled(was.ty, was.attributes, kinds)
    ensures Drift(was, moved, kinds) == 0
  {
    if was.ty.stackable {
      var a := was.attributes;
      OfSame(kinds, was.ty, Renewed(was.ty, was.ty, a), a, was.onto + was.fits);
      OfSame(kinds, was.ty, ClonedAttributes(was.ty, a), a, moved - was.fits);
      OfSplit(kinds, was.ty, a, was.onto, was.fits);
      OfSplit(kinds, was.ty, a, was.fits, moved - was.fits);
    }
  }

  lemma FullMinute(ty: ItemType)
    requires ty.decayTime == 60 && !ty.stopTime
    ensures Renewed(ty, ty, Present(map[Duration := Int(30000)]))
         == Present(map[Duration := Int(60000), DecayState := Int(0)])
  {
    var a := Present(map[Duration := Int(30000)]);
    assert a.values - {CorpseOwner} == a.values;
  }

  lemma TenOntoTwenty(was: Stock, kind: Attributes)
    requires was.ty.stackable && was.merges && was.fits == 10 && was.onto == 20
    ensures Drift(was, 10, Only(was.ty.id, kind))
         == (if Renewed(was.ty, was.ty, was.attributes) == kind then 30 else 0) - (if was.attributes == kind then 30 else 0)
  {
    OnlyCounts(was.ty.id, kind, was.ty, Renewed(was.ty, was.ty, was.attributes), 30);
    OnlyCounts(was.ty.id, kind, was.ty, was.attributes, 20);
    OnlyCounts(was.ty.id, kind, was.ty, was.attributes, 10);
    OnlyCounts(was.ty.id, kind, was.ty, ClonedAttributes(was.ty, was.attributes), 0);
  }

  /**
   Ten pieces with half a minute of their minute left, moved onto twenty of the same
   kind: all thirty are of another kind afterwards, with the full minute left.
   */
  lemma DisturbedStack(was: Stock)
    requires was.ty.stackable && was.ty.decayTime == 60 && was.attributes == Present(map[Duration := Int(30000)])
    requires was.merges && was.fits == 10 && was.onto == 20
    ensures Drift(was, 10, Only(was.ty.id, was.attributes)) == (if was.ty.stopTime then 0 else -30)
    ensures !was.ty.stopTime ==> Drift(was, 10,
              Only(was.ty.id, Present(map[Duration := Int(60000), DecayState := Int(0)]))) == 30
  {
    var full := Present(map[Duration := Int(60000), DecayState := Int(0)]);
    assert Has(was.attributes, Duration) && !Has(was.attributes, DecayState) && Has(full, DecayState);
    RenewedUnchanged(was.ty, was.attributes);
    TenOntoTwenty(was, was.attributes);
    TenOntoTwenty(was, full);
    if !was.ty.stopTime {
      FullMinute(was.ty);
    }
  }

  lemma BeforeSound(from: Item, way: Way, item: Item, m: nat, moved: nat, w: World)
    requires w.Links() && Tidy(w) && way.dest in w.items && Ready(from, way, item, m, w)
    requires item.ty.stackable ==> moved == m
    ensures Sound(Before(from, way, item, moved, w), moved)
  {
    assert w.LinkOk(way.dest);
    if way.toItem != null {
      assert TidyItem(way.toItem);
    }
  }

  lemma DriftAccounted(was: Stock, moved: nat, kinds: Kinds, before: int, after: int)
    requires Sound(was, moved) && after == before + Drift(was, moved, kinds)
    ensures Accounted(was, moved, kinds, before, after)
  {
    ConservedIff(was, moved);
    if Settled(was.ty, was.attributes, kinds) {
      SettledConserves(was, moved, kinds);
    }
  }

  /** Carries out a move all queries agreed to. */
  method CarryOut(from: Item, way: Way, item: Item, m: nat, ghost w: World, ghost kinds: Kinds) returns (moved: nat)
    requires w.Valid() && Tidy(w) && from in w.items && item in w.items
    requires Ready(from, way, item, m, w)
    modifies w`items, w`loads, w`depth, w.items`totalWeight, from`itemlist, way.dest`itemlist
    modifies item`ty, item`attributes, item`count, item`parent
    modifies Target(way.toItem)`ty, Target(way.toItem)`attributes, Target(way.toItem)`count
    ensures w.Valid() && Tidy(w) && moved == if old(item.ty.stackable) then m else 1
    ensures Arrived(from, way, item, moved, old(Before(from, way, item, moved, w)), w)
    ensures Accounted(old(Before(from, way, item, moved, w)), moved, kinds, old(Total(Tally(w, kinds))), Total(Tally(w, kinds)))
  {
    moved := if item.ty.stackable then m else 1;
    ghost var was, total := Before(from, way, item, moved, w), Total(Tally(w, kinds));
    BeforeSound(from, way, item, m, moved, w);
    if item.ty.stackable {
      MoveStack(from, way, item, m, w, kinds);
    } else {
      MoveWhole(from, way, item, m, w, kinds);
    }
    DriftAccounted(was, moved, kinds, total, Total(Tally(w, kinds)));
  }

  method CarryOutIf(go: bool, from: Item, way: Way, item: Item, m: nat, ghost w: World, ghost kinds: Kinds)
    returns (moved: nat)
    requires w.Valid() && Tidy(w) && from in w.items && item in w.items
    requires go ==> Ready(from, way, item, m, w)
    modifies w`items, w`loads, w`depth, w.items`totalWeight, from`itemlist, way.dest`itemlist
    modifies item`ty, item`attributes, item`count, item`parent
    modifies Target(way.toItem)`ty, Target(way.toItem)`attributes, Target(way.toItem)`count
    ensures w.Valid() && Tidy(w) && moved == if !go then 0 else if old(item.ty.stackable) then m else 1
    ensures moved == 0 ==> unchanged(w) && forall i :: i in w.items ==> unchanged(i)
    ensures moved == 0 ||
              (var was := old(Before(from, way, item, moved, w));
               && Arrived(from, way, item, moved, was, w)
               && Accounted(was, moved, kinds, old(Total(Tally(w, kinds))), Total(Tally(w, kinds))))
  {
    moved := 0;
    if go {
      moved := CarryOut(from, way, item, m, w, kinds);
    }
  }

  /** A new container on its own, with one stack in it. */
  method Pile(bag: ItemType, ty: ItemType, count: nat, attributes: Attributes, ghost w: World)
    returns (c: Item, stack: Item)
    requires w.Valid() && Tidy(w) && !bag.stackable && ty.stackable && !ty.fluid && 1 <= count <= STACK
    modifies w`items, w`loads, w`depth, w.items`totalWeight
    ensures w.Valid() && Tidy(w) && fresh(c) && fresh(stack) && w.items == old(w.items) + {c, stack}
    ensures c.container && c.unlocked && c.maxSize == 20 && c.itemlist == [stack]
    ensures stack.ty == ty && stack.count == count && stack.attributes == attributes && stack.itemlist == []
  {
    c := new Item.Container(bag, 20, true, 1, Absent);
    EnterTidy(c, w);
    stack := new Item(ty, count, attributes);
    EnterTidy(stack, w);
    Childless(w, c, stack);
    PutIn(c, 0, stack, w);
  }

  /** The same as a run: the ten pieces go onto the twenty, and all thirty have their full minute again. */
  method DisturbedRun(bag: ItemType, ty: ItemType) returns (count: nat, attributes: Attributes)
    requires !bag.stackable && ty.stackable && !ty.fluid && ty.decayTime == 60 && !ty.stopTime
    ensures count == 30 && attributes == Present(map[Duration := Int(60000), DecayState := Int(0)])
  {
    var half := Present(map[Duration := Int(30000)]);
    ghost var w := new World();
    var from, item := Pile(bag, ty, 10, half, w);
    var dest, toItem := Pile(bag, ty, 20, half, w);
    Childless(w, dest, item);
    FullMinute(ty);
    var moved := CarryOut(from, Way(dest, 0, toItem), item, 10, w, Only(ty.id, half));
    count, attributes := toItem.count, toItem.attributes;
  }

  /** Finds the destination and asks all queries; `go` when there is something to move. */
  method PlanMove(from: Item, toCylinder: Item, index: int, item: Item, count: nat, autoStack: bool, limits: Limits,
                  ghost w: World)
    returns (r: ReturnValue, go: bool, m: nat, way: Way)
    requires w.Valid() && Tidy(w) && from in w.items && toCylinder in w.items && item in w.items
    requires toCylinder.container && index >= WHEREVER
    ensures way == old(Follow(toCylinder, index, item, autoStack, 0, w)) && way.dest in old(w.items)
    ensures go <==> item != way.toItem && old(Allowed(from, way.dest, way.index, item, count, limits, w))
    ensures go ==> Ready(from, way, item, m, w) && m == old(Movable(way.dest, way.index, item, count, limits, w))
    ensures r == NoError <==> item == way.toItem || (go && (item.ty.stackable ==> m == count))
  {
    var dest, index', toItem := FindDestination(toCylinder, index, item, autoStack, w);
    way, go, m := Way(dest, index', toItem), false, 0;
    if item == toItem {
      return NoError, go, m, way;
    }
    var retMaxCount, maxCount;
    r, retMaxCount, maxCount, m := DecideMove(from, dest, index', item, toItem, count, limits, w);
    if r != NoError {
      return;
    }
    go := true;
    if item.ty.stackable && maxCount < count {
      r := retMaxCount;
    }
  }

  /**
   Moves up to `count` pieces of `item` from `from` to where `toCylinder` and
   `index` lead. Without tradeItem; `moved` is the number of pieces moved of a
   stack, 1 for another item, 0 when nothing moved. The kind of the item, told
   by id and attributes, is conserved exactly if `Conserves` says so.
   */
  method InternalMoveItem(from: Item, toCylinder: Item, index: int, item: Item, count: nat, autoStack: bool,
                          limits: Limits, ghost w: World, ghost kinds: Kinds)
    returns (r: ReturnValue, moved: nat, way: Way)
    requires w.Valid() && Tidy(w) && from in w.items && toCylinder in w.items && item in w.items
    requires toCylinder.container && index >= WHEREVER
    modifies w`items, w`loads, w`depth, w.items`totalWeight, from`itemlist
    modifies item`ty, item`attributes, item`count, item`parent
    modifies Follow(toCylinder, index, item, autoStack, 0, w).dest`itemlist
    modifies Target(Follow(toCylinder, index, item, autoStack, 0, w).toItem)`ty
    modifies Target(Follow(toCylinder, index, item, autoStack, 0, w).toItem)`attributes
    modifies Target(Follow(toCylinder, index, item, autoStack, 0, w).toItem)`count
    ensures w.Valid() && Tidy(w)
    ensures way == old(Follow(toCylinder, index, item, autoStack, 0, w)) && way.dest in old(w.items)
    ensures moved == if item == way.toItem || !old(Allowed(from, way.dest, way.index, item, count, limits, w)) then 0
                     else if old(item.ty.stackable) then old(Movable(way.dest, way.index, item, count, limits, w)) else 1
    ensures r == NoError <==> item == way.toItem || (moved > 0 && (old(item.ty.stackable) ==> moved == count))
    ensures moved == 0 ==> unchanged(w) && forall i :: i in w.items ==> unchanged(i)
    ensures moved == 0 ||
              (var was := old(Before(from, way, item, moved, w));
               && Arrived(from, way, item, moved, was, w)
               && Accounted(was, moved, kinds, old(Total(Tally(w, kinds))), Total(Tally(w, kinds))))
  {
    var go, m;
    r, go, m, way := PlanMove(from, toCylinder, index, item, count, autoStack, limits, w);
    moved := CarryOutIf(go, from, way, item, m, w, kinds);
  }
}
