/**
 The item limit of a depot chest: the top parent of an item, how many items a chest
 holds, and who is asked before an item is added.
 */
module DepotChest {
  import opened Containers
  import opened Forest
  import Iteration

  /** The chests among the containers, with the number of items each may hold. */
  type Limits = map<Item, nat>

  // ------------------------------------------------------------- top parents

  /** The last cylinder below the root, on the way up from a container. */
  ghost function TopParent(w: World, c: Item): (top: Item)
    requires w.Links() && c in w.items
    reads w`items, w`depth, w.items`parent, w.items`itemlist
    ensures w.OnChain(c, top) && top in w.items && (c.container ==> top.container)
    decreases w.Depth(c)
  {
    assert w.LinkOk(c);
    if c.parent == null || c.parent.parent == null then c else
      assert w.LinkOk(c.parent);
      TopParent(w, c.parent)
  }

  /** The same from any item: one that is no container starts at its parent, if there is one. */
  ghost function TopCylinder(w: World, item: Item): (top: Item?)
    requires w.Links() && item in w.items
    reads w`items, w`depth, w.items`parent, w.items`itemlist
  {
    assert w.LinkOk(item);
    if item.container then TopParent(w, item) else if item.parent == null then null else TopParent(w, item.parent)
  }

  method GetTopParent(item: Item, ghost w: World) returns (top: Item?)
    requires w.Links() && item in w.items
    ensures top == TopCylinder(w, item)
  {
    var prevaux: Item? := if item.container then item else null;
    if item.parent == null {
      return prevaux;
    }
    assert w.LinkOk(item);
    var aux: Item := item.parent;
    while aux.parent != null
      invariant aux in w.items
      invariant TopCylinder(w, item) ==
                if aux.parent != null then TopParent(w, aux) else if prevaux != null then prevaux else aux
      decreases w.Depth(aux)
    {
      assert w.LinkOk(aux);
      prevaux := aux;
      aux := aux.parent;
    }
    top := if prevaux != null then prevaux else aux;
  }

  /** A chest is the top parent of what lies in it exactly if it hangs directly in the root. */
  lemma {:induction false} TopParentIff(w: World, c: Item, x: Item)
    requires w.Links() && c in w.items && w.OnChain(c, x) && c != x
    ensures TopParent(w, c) == x <==> x.parent != null && x.parent.parent == null
    decreases w.Depth(c)
  {
    assert w.LinkOk(c);
    w.ChainDepth(c, x);
    if c.parent == x {
      if x.parent != null {
        w.ChainDepth(x.parent, TopParent(w, x.parent));
      }
    } else {
      assert w.LinkOk(c.parent);
      TopParentIff(w, c.parent, x);
    }
  }

  // ------------------------------------------------------------- what is held

  /** What lies in a container at any depth. */
  ghost function Inside(w: World, x: Item): (items: set<Item>)
    requires w.Links() && x in w.items
    reads w`items, w`depth, w.items`parent, w.items`itemlist
  {
    set i | i in w.items && i != x && w.OnChain(i, x)
  }

  ghost function Held(w: World, x: Item): (n: nat)
    requires w.Links() && x in w.items
    reads w`items, w`depth, w.items`parent, w.items`itemlist
  {
    |Inside(w, x)|
  }

  ghost function Nodes(f: seq<Shape>): (items: set<Item>) {
    if f == [] then {} else {f[0].item} + Nodes(f[0].contents) + Nodes(f[1..])
  }

  lemma {:induction false} NodesPlaces(f: seq<Shape>, i: Item)
    ensures i in Nodes(f) <==> Places(f, i) > 0
  {
    if f != [] {
      NodesPlaces(f[0].contents, i);
      NodesPlaces(f[1..], i);
    }
  }

  /** A forest in which no item has two places has as many nodes as items. */
  lemma {:induction false} NodesSize(f: seq<Shape>)
    requires forall i :: i in Nodes(f) ==> Places(f, i) <= 1
    ensures |Nodes(f)| == Size(f)
  {
    if f != [] {
      var a, b := Nodes(f[0].contents), Nodes(f[1..]);
      forall i | i in Nodes(f) ensures (i in a ==> Places(f[0].contents, i) == 1) && (i in b ==> Places(f[1..], i) == 1)
        && !(i in a && i in b) && (i == f[0].item ==> i !in a && i !in b)
      {
        NodesPlaces(f[0].contents, i);
        NodesPlaces(f[1..], i);
      }
      NodesSize(f[0].contents);
      NodesSize(f[1..]);
      assert {f[0].item} !! a && ({f[0].item} + a) !! b;
    }
  }

  /** An item has a place in a tree exactly if the root is on its chain, and then only one. */
  lemma {:induction false} PlacesOnChain(w: World, t: Shape, c: Item)
    requires w.Links() && ShapeOf(t, w) && c in w.items
    ensures Places([t], c) == if w.OnChain(c, t.item) then 1 else 0
    decreases t, 0
  {
    assert w.LinkOk(t.item) && w.LinkOk(c);
    var on := ChainEntry(w, c, t.item);
    PlacesBelow(w, t.contents, c, on);
  }

  lemma {:induction false} PlacesBelow(w: World, f: seq<Shape>, c: Item, on: int)
    requires w.Links() && c in w.items
    requires forall k :: 0 <= k < |f| ==> ShapeOf(f[k], w) && (w.OnChain(c, f[k].item) <==> k == on)
    ensures Places(f, c) == if 0 <= on < |f| then 1 else 0
    decreases f, 1
  {
    if f != [] {
      PlacesOnChain(w, f[0], c);
      PlacesBelow(w, f[1..], c, on - 1);
    }
  }

  /** The iterator counts exactly what lies in the container. */
  lemma HeldIsSize(w: World, s: Shape)
    requires w.Links() && ShapeOf(s, w)
    ensures Size(s.contents) == Held(w, s.item)
  {
    forall i | i in w.items
      ensures i in Nodes(s.contents) <==> i in Inside(w, s.item)
      ensures Places(s.contents, i) <= 1
    {
      PlacesOnChain(w, s, i);
      NodesPlaces(s.contents, i);
    }
    forall i | i in Nodes(s.contents) ensures i in w.items {
      NodesKnown(w, s.contents, i);
    }
    NodesSize(s.contents);
    assert Nodes(s.contents) == Inside(w, s.item);
  }

  lemma {:induction false} NodesKnown(w: World, f: seq<Shape>, i: Item)
    requires i in Nodes(f) && forall k :: 0 <= k < |f| ==> ShapeOf(f[k], w)
    ensures i in w.items
  {
    if i in Nodes(f[0].contents) {
      NodesKnown(w, f[0].contents, i);
    } else if i in Nodes(f[1..]) {
      NodesKnown(w, f[1..], i);
    }
  }

  // -------------------------------------------------------------- admission

  /** What a chest reckons with: one more for a split stack, everything for an item of another top parent. */
  ghost function AddCount(w: World, x: Item, item: Item, count: nat): (n: nat)
    requires w.Links() && item in w.items
    reads w`items, w`depth, w.items`parent, w.items`itemlist, item
  {
    if TopCylinder(w, item) != x then 1 + Held(w, item)
    else if item.ty.stackable && item.count != count then 1 else 0
  }

  ghost predicate HasRoom(w: World, x: Item, item: Item, count: nat, limits: Limits)
    requires w.Links() && item in w.items && x in w.items
    reads w`items, w`depth, w.items`parent, w.items`itemlist, item
  {
    x in limits ==> Held(w, x) + AddCount(w, x, item, count) <= limits[x]
  }

  method HoldingCount(container: Item, ghost w: World) returns (n: nat)
    requires w.Links() && container in w.items
    ensures n == Held(w, container)
  {
    HeldIsSize(w, ShapeAt(w, container));
    n := Iteration.GetItemHoldingCount(container, ShapeAt(w, container), w);
  }

  /** The limit check of a chest, without the flag that skips it; other containers have none. */
  method WithinLimit(chest: Item, item: Item, count: nat, limits: Limits, ghost w: World) returns (ok: bool)
    requires w.Links() && chest in w.items && item in w.items
    ensures ok <==> HasRoom(w, chest, item, count, limits)
  {
    if chest !in limits {
      return true;
    }
    var addCount := 0;
    if item.ty.stackable && item.count != count {
      addCount := 1;
    }
    var top := GetTopParent(item, w);
    if top != chest {
      var inside := HoldingCount(item, w);
      addCount := inside + 1;
    }
    var held := HoldingCount(chest, w);
    ok := held + addCount <= limits[chest];
  }

  /** The containers that decide about an addition to `c`: itself and its top parent. */
  ghost predicate Asked(w: World, c: Item, x: Item)
    requires w.Links() && c in w.items
    reads w`items, w`depth, w.items`parent, w.items`itemlist
  {
    x == c || x == TopParent(w, c)
  }

  ghost predicate Agree(w: World, c: Item, item: Item, count: nat, limits: Limits)
    requires w.Links() && c in w.items && item in w.items
    reads w`items, w`depth, w.items`parent, w.items`itemlist, item
  {
    HasRoom(w, c, item, count, limits) && HasRoom(w, TopParent(w, c), item, count, limits)
  }

  /** The last question of an addition goes to the top parent of the container, if that is another one. */
  method AskTopParent(c: Item, item: Item, count: nat, limits: Limits, ghost w: World) returns (ok: bool)
    requires w.Links() && c in w.items && c.container && item in w.items && HasRoom(w, c, item, count, limits)
    ensures ok <==> Agree(w, c, item, count, limits)
  {
    var topParent := GetTopParent(c, w);
    if topParent == c {
      return true;
    }
    ok := WithinLimit(topParent, item, count, limits, w);
  }
}
