/**
 Rebuilding a player's items on login: the rows are turned into items, which are
 replayed in descending order of number, each put in front of the item list of its
 parent.
 */
module LoginData {
  import opened Common
  import opened Containers
  import opened Forest
  import opened ItemRows
  import opened Items
  import MapSerialize

  function BagsOf(types: Types): Content -> bool {
    (item: Content) => TypeOf(types, item.id).container
  }

  /** Items whose values are of their kind and whose type is known. */
  ghost function KnownTo(types: Types): Content -> bool {
    (item: Content) => WellTyped(item) && item.id in types
  }

  function RecordsOf(types: Types): Encoder {
    (item: Content) => RecordOf(types, item)
  }

  lemma ActualWriting(types: Types)
    ensures Writing(types, BagsOf(types), KnownTo(types), RecordsOf(types))
  {}

  /** What a row loads as: an item created from its id and count, onto which its attributes are read as far as they go. */
  function ReadRow(types: Types, record: Record): Content {
    var r := MapSerialize.ReadingOf(types, record.itemType, record.subType);
    Content(r.ty.id, match MapSerialize.ReadAttrs(r.ty, r.start, record.attributes)
                     case Error(vals) => vals
                     case Done(vals, _, _) => vals)
  }

  function ReadsOf(types: Types): Record -> Content {
    (record: Record) => ReadRow(types, record)
  }

  ghost predicate Reads(types: Types, read: Record -> Content) {
    forall record: Record {:trigger ReadRow(types, record)} :: read(record) == ReadRow(types, record)
  }

  /** What comes back of an item: persisted under its created id. */
  ghost function Back(types: Types, item: Content): Content {
    var r := MapSerialize.ReadingOf(types, item.id, Unsigned(2, SubType(TypeOf(types, item.id), item.vals)));
    Content(r.ty.id, MapSerialize.Persisted(r, item.vals))
  }

  ghost function BackOf(types: Types): Content -> Content {
    (item: Content) => Back(types, item)
  }

  /** Loading the row of an item gives the item persisted. */
  lemma RowBack(types: Types, item: Content)
    requires WellTyped(item)
    ensures ReadRow(types, RecordOf(types, item)) == Back(types, item)
  {
    var record := RecordOf(types, item);
    var r := MapSerialize.ReadingOf(types, record.itemType, record.subType);
    MapSerialize.ReadFields(r, item);
    assert record.attributes + [] == record.attributes;
    assert MapSerialize.ReadAttrs(r.ty, r.start, record.attributes + [])
        == MapSerialize.ReadAttrs(r.ty, MapSerialize.Persisted(r, item.vals), []);
  }

  /** Reading what was written of an item gives what comes back of it. */
  ghost predicate Codec(types: Types, bag: Content -> bool, ok: Content -> bool, enc: Encoder, read: Record -> Content,
                        back: Content -> Content)
  {
    forall item: Content {:trigger enc(item)} :: ok(item) ==>
      && read(enc(item)) == back(item) && enc(item).itemType in types
      && TypeOf(types, enc(item).itemType).container == bag(item)
  }

  lemma ActualCodec(types: Types)
    ensures Codec(types, BagsOf(types), KnownTo(types), RecordsOf(types), ReadsOf(types), BackOf(types))
  {
    forall item: Content | KnownTo(types)(item)
      ensures ReadsOf(types)(RecordsOf(types)(item)) == BackOf(types)(item)
    {
      RowBack(types, item);
    }
  }

  /** The count field is there, whatever is read. */
  ghost predicate Counted(vals: Vals) {
    Count in vals && vals[Count].Int? && vals[Count].n >= 0
  }

  lemma {:induction false} ReadCounted(ty: ItemType, vals: Vals, s: seq<Byte>)
    requires Counted(vals)
    ensures Counted(MapSerialize.ReadAttrs(ty, vals, s).vals)
    decreases |s|
  {
    if s != [] && s[0] != 0 && s[0] != MapSerialize.CONTAINER_ITEMS {
      var f := MapSerialize.FormatOf(s[0]);
      if f.Some? {
        var read := MapSerialize.ReadVal(f.value, s[1..]);
        if read.Some? {
          ApplyCounted(ty, vals, s[0], read.value.0);
          ReadCounted(ty, MapSerialize.Apply(ty, vals, s[0], read.value.0), read.value.1);
        }
      } else if MapSerialize.Skipped(s[0]).Some? && |s| - 1 >= MapSerialize.Skipped(s[0]).value {
        ReadCounted(ty, vals, s[1 + MapSerialize.Skipped(s[0]).value..]);
      }
    }
  }

  lemma ApplyCounted(ty: ItemType, vals: Vals, tag: Byte, v: Val)
    requires Counted(vals) && MapSerialize.FormatOf(tag).Some?
    requires v.Str? <==> MapSerialize.FormatOf(tag) == Some(MapSerialize.Text16)
    ensures Counted(MapSerialize.Apply(ty, vals, tag, v))
  {}

  type ItemMap = map<nat, (Item, nat)>

  /** The rows that survive loading: unknown types are skipped, a later row of the same sid wins. */
  function KeptRows(result: seq<Row>, types: Types): (kept: map<nat, Row>) {
    if result == [] then map[] else
      var n := |result| - 1;
      var kept := KeptRows(result[..n], types);
      if result[n].record.itemType in types then kept[result[n].sid := result[n]] else kept
  }

  /** An object in the game, as a value. */
  function ContentOf(item: Item): Content
    reads item`ty, item`count, item`attributes
  {
    Content(item.ty.id, ValsOf(item.attributes, item.count))
  }

  ghost function ItemSet(itemMap: ItemMap): (items: set<Item>) {
    set s | s in itemMap :: itemMap[s].0
  }

  /** `itemMap` holds one item per surviving row, as created from it. */
  ghost predicate Holds(itemMap: ItemMap, kept: map<nat, Row>, types: Types, read: Record -> Content)
    reads ItemSet(itemMap)`ty, ItemSet(itemMap)`count, ItemSet(itemMap)`attributes
  {
    && itemMap.Keys == kept.Keys
    && (forall s :: s in itemMap ==> HoldsAt(itemMap, kept, types, read, s))
    && Injective(itemMap)
  }

  ghost predicate HoldsAt(itemMap: ItemMap, kept: map<nat, Row>, types: Types, read: Record -> Content, s: nat)
    requires s in itemMap && s in kept
    reads ItemSet(itemMap)`ty, ItemSet(itemMap)`count, ItemSet(itemMap)`attributes
  {
    && ContentOf(itemMap[s].0) == read(kept[s].record) && itemMap[s].1 == kept[s].pid
    && kept[s].record.itemType in types && itemMap[s].0.container == TypeOf(types, kept[s].record.itemType).container
  }

  ghost predicate Injective(itemMap: ItemMap) {
    forall s, t :: s in itemMap && t in itemMap && s != t ==> itemMap[s].0 != itemMap[t].0
  }

  /** The items numbered below `lo` are in play, on their own. */
  ghost predicate Loose(itemMap: ItemMap, lo: nat, w: World)
    reads w`items, ItemSet(itemMap)`parent
  {
    ItemSet(itemMap) <= w.items && forall s :: s in itemMap && s < lo ==> itemMap[s].0.parent == null
  }

  /** Creates an item from a row and reads its attributes; on an error those read so far stay. */
  method CreateItem(record: Record, types: Types, ghost read: Record -> Content, ghost w: World) returns (item: Item)
    requires w.Valid() && record.itemType in types && Reads(types, read)
    modifies w`items, w`loads
    ensures w.Valid() && w.items == old(w.items) + {item} && fresh(item)
    ensures ContentOf(item) == read(record) && item.container == TypeOf(types, record.itemType).container
    ensures item.parent == null && item.itemlist == []
  {
    var r := MapSerialize.ReadingOf(types, record.itemType, record.subType);
    var propStream := new MapSerialize.PropStream(record.attributes);
    var ok, vals, announced := MapSerialize.IOMapSerialize.UnserializeAttr(propStream, r.ty, r.start);
    ReadCounted(r.ty, r.start, record.attributes);
    ValsBack(vals);
    if r.ty.container {
      item := new Item.Container(r.ty, r.ty.maxItems, true, vals[Count].n, AttributesOf(vals));
    } else {
      item := new Item(r.ty, vals[Count].n, AttributesOf(vals));
    }
    assert read(record) == ReadRow(types, record);
    Enter(item, w);
  }

  /** What loading has made of the rows kept so far: their items, each empty and on its own. */
  ghost predicate Loading(itemMap: ItemMap, kept: map<nat, Row>, types: Types, read: Record -> Content)
    reads ItemSet(itemMap)
  {
    && Holds(itemMap, kept, types, read)
    && forall item :: item in ItemSet(itemMap) ==> item.itemlist == [] && item.parent == null
  }

  /** One more row, and the item created from it. */
  lemma LoadingMore(itemMap: ItemMap, kept: map<nat, Row>, row: Row, item: Item, types: Types, read: Record -> Content)
    requires Loading(itemMap, kept, types, read) && item !in ItemSet(itemMap) && item.itemlist == [] && item.parent == null
    requires row.record.itemType in types && ContentOf(item) == read(row.record)
    requires item.container == TypeOf(types, row.record.itemType).container
    ensures var more := itemMap[row.sid := (item, row.pid)];
            ItemSet(more) <= ItemSet(itemMap) + {item} && Loading(more, kept[row.sid := row], types, read)
  {
    var more, kept' := itemMap[row.sid := (item, row.pid)], kept[row.sid := row];
    forall s | s in more ensures HoldsAt(more, kept', types, read, s) {
      if s != row.sid {
        assert HoldsAt(itemMap, kept, types, read, s);
      }
    }
    forall s | s in itemMap ensures itemMap[s].0 != item {
      assert itemMap[s].0 in ItemSet(itemMap);
    }
  }

  lemma KeptMore(result: seq<Row>, k: nat, types: Types)
    requires k < |result|
    ensures var kept, row := KeptRows(result[..k], types), result[k];
            KeptRows(result[..k + 1], types) == if row.record.itemType in types then kept[row.sid := row] else kept
  {
    assert result[..k + 1][..k] == result[..k];
  }

  method LoadRow(itemMap: ItemMap, ghost kept: map<nat, Row>, row: Row, types: Types, ghost read: Record -> Content,
                 ghost w: World)
    returns (more: ItemMap)
    requires w.Valid() && Reads(types, read) && row.record.itemType in types
    requires Loading(itemMap, kept, types, read) && ItemSet(itemMap) <= w.items
    modifies w`items, w`loads
    ensures w.Valid() && Loading(more, kept[row.sid := row], types, read) && ItemSet(more) <= w.items
    ensures fresh(w.items - old(w.items)) && ItemSet(more) <= ItemSet(itemMap) + (w.items - old(w.items))
  {
    var item := CreateItem(row.record, types, read, w);
    LoadingMore(itemMap, kept, row, item, types, read);
    more := itemMap[row.sid := (item, row.pid)];
  }

  method LoadItems(result: seq<Row>, types: Types, ghost read: Record -> Content, ghost w: World) returns (itemMap: ItemMap)
    requires w.Valid() && Reads(types, read)
    modifies w`items, w`loads
    ensures w.Valid() && Loading(itemMap, KeptRows(result, types), types, read) && ItemSet(itemMap) <= w.items
    ensures fresh(w.items - old(w.items)) && fresh(ItemSet(itemMap))
  {
    itemMap := map[];
    ghost var kept: map<nat, Row> := map[];
    for k := 0 to |result|
      invariant kept == KeptRows(result[..k], types)
      invariant w.Valid() && Loading(itemMap, kept, types, read) && ItemSet(itemMap) <= w.items
      invariant fresh(w.items - old(w.items)) && fresh(ItemSet(itemMap))
    {
      var row := result[k];
      KeptMore(result, k, types);
      if row.record.itemType in types {
        itemMap := LoadRow(itemMap, kept, row, types, read, w);
        kept := kept[row.sid := row];
      }
    }
    assert result[..|result|] == result;
  }

  /** The keys from `lo` up to `hi` whose parent is `p`, in ascending order. */
  ghost function Children(itemMap: ItemMap, p: nat, lo: nat, hi: nat): (c: seq<nat>)
    ensures forall k :: 0 <= k < |c| ==> lo <= c[k] && c[k] in itemMap && itemMap[c[k]].1 == p
    decreases hi - lo
  {
    if lo >= hi then [] else
      (if lo in itemMap && itemMap[lo].1 == p then [lo] else []) + Children(itemMap, p, lo + 1, hi)
  }

  ghost function ItemsOf(itemMap: ItemMap, keys: seq<nat>): (items: seq<Item>)
    requires forall k :: 0 <= k < |keys| ==> keys[k] in itemMap
  {
    seq(|keys|, k requires 0 <= k < |keys| => itemMap[keys[k]].0)
  }

  lemma {:induction false} ChildrenGap(itemMap: ItemMap, p: nat, lo: nat, lo': nat, hi: nat)
    requires lo <= lo'
    requires forall s :: lo <= s < lo' ==> s !in itemMap
    ensures Children(itemMap, p, lo, hi) == Children(itemMap, p, lo', hi)
    decreases lo' - lo
  {
    if lo < lo' {
      ChildrenGap(itemMap, p, lo + 1, lo', hi);
      if lo < hi {
        assert lo !in itemMap;
      }
    }
  }

  lemma ChildrenStep(itemMap: ItemMap, p: nat, sid: nat, hi: nat)
    requires sid in itemMap && sid < hi
    ensures ItemsOf(itemMap, Children(itemMap, p, sid, hi))
         == (if itemMap[sid].1 == p then [itemMap[sid].0] else []) + ItemsOf(itemMap, Children(itemMap, p, sid + 1, hi))
  {}

  lemma {:induction false} MaxKey(keys: set<nat>) returns (m: nat)
    requires keys != {}
    ensures m in keys && forall k :: k in keys ==> k <= m
  {
    m :| m in keys;
    if keys != {m} {
      var rest := keys - {m};
      assert keys == rest + {m};
      var m' := MaxKey(rest);
      m := if m < m' then m' else m;
    }
  }

  /** Where the loaders accept root items: inventory slots 1 to 10, or depots 0 to 99. */
  datatype Slots = Slots(first: nat, last: nat, single: bool) {
    predicate Has(pid: nat) {
      first <= pid <= last
    }

    /** What a slot shows after `items` arrived from last to first: all of them, or the first to come. */
    ghost function View(items: seq<Item>): (view: seq<Item>) {
      if single && items != [] then [items[|items| - 1]] else items
    }
  }

  /** What the rows numbered `lo` and above have put into the item of key `p`. */
  ghost predicate Filled(itemMap: ItemMap, slots: Slots, p: nat, lo: nat, hi: nat)
    requires p in itemMap
    reads ItemSet(itemMap)`itemlist
  {
    itemMap[p].0.itemlist ==
    (if itemMap[p].0.container && !slots.Has(p) then ItemsOf(itemMap, Children(itemMap, p, lo, hi)) else [])
  }

  /** What the rows numbered `lo` and above have hung at slot `p`. */
  ghost predicate Hung(itemMap: ItemMap, hung: map<nat, seq<Item>>, slots: Slots, p: nat, lo: nat, hi: nat) {
    p in hung && hung[p] == slots.View(ItemsOf(itemMap, Children(itemMap, p, lo, hi)))
  }

  ghost predicate Attached(itemMap: ItemMap, hung: map<nat, seq<Item>>, slots: Slots, lo: nat, hi: nat)
    reads ItemSet(itemMap)`itemlist
  {
    && (forall p :: p in itemMap ==> Filled(itemMap, slots, p, lo, hi))
    && (forall p :: slots.Has(p) ==> Hung(itemMap, hung, slots, p, lo, hi))
  }

  /** Rows that lie in a container name a smaller number, as the saver writes them. */
  ghost predicate Descending(itemMap: ItemMap, slots: Slots) {
    Injective(itemMap) && forall s :: s in itemMap && itemMap[s].1 in itemMap && !slots.Has(itemMap[s].1) ==> itemMap[s].1 < s
  }

  /** A free slot takes the item; a depot or inbox prepends it; an occupied inventory slot refuses it. */
  function Hang(hung: map<nat, seq<Item>>, slots: Slots, pid: nat, item: Item): map<nat, seq<Item>>
    requires pid in hung
  {
    if slots.single && hung[pid] != [] then hung else hung[pid := [item] + hung[pid]]
  }

  lemma HangStep(itemMap: ItemMap, hung: map<nat, seq<Item>>, slots: Slots, p: nat, sid: nat, hi: nat)
    requires sid in itemMap && sid < hi && itemMap[sid].1 in hung
    requires Hung(itemMap, hung, slots, p, sid + 1, hi)
    ensures Hung(itemMap, Hang(hung, slots, itemMap[sid].1, itemMap[sid].0), slots, p, sid, hi)
  {
    ChildrenStep(itemMap, p, sid, hi);
    var items := ItemsOf(itemMap, Children(itemMap, p, sid + 1, hi));
    assert [] + items == items;
    if p == itemMap[sid].1 && slots.single && items != [] {
      assert ([itemMap[sid].0] + items)[|items|] == items[|items| - 1];
    }
  }

  /** An item whose parent is not a slot goes to the front of its parent container, if that was loaded and is one. */
  method PutIn(itemMap: ItemMap, slots: Slots, sid: nat, ghost hi: nat, ghost w: World)
    requires w.Valid() && sid in itemMap && sid < hi && Descending(itemMap, slots) && Loose(itemMap, sid + 1, w)
    requires forall p :: p in itemMap ==> Filled(itemMap, slots, p, sid + 1, hi)
    modifies w`depth, w`loads, w.items`totalWeight, ItemSet(itemMap)`parent, ItemSet(itemMap)`itemlist
    ensures w.Valid() && Loose(itemMap, sid, w)
    ensures forall p :: p in itemMap ==> Filled(itemMap, slots, p, sid, hi)
  {
    var (item, pid) := itemMap[sid];
    if !slots.Has(pid) && pid in itemMap {
      var container := itemMap[pid].0;
      if container.container {
        assert container in ItemSet(itemMap) && item in ItemSet(itemMap);
        InternalAddThing(container, item, w);
      }
    }
    forall p | p in itemMap ensures Filled(itemMap, slots, p, sid, hi) {
      assert old(Filled(itemMap, slots, p, sid + 1, hi));
      ChildrenStep(itemMap, p, sid, hi);
    }
  }

  /** Attaches one item to its slot or to its parent container. */
  method Attach(itemMap: ItemMap, hung: map<nat, seq<Item>>, slots: Slots, sid: nat, ghost hi: nat, ghost w: World)
    returns (hung': map<nat, seq<Item>>)
    requires w.Valid() && sid in itemMap && sid < hi && Descending(itemMap, slots) && Loose(itemMap, sid + 1, w)
    requires Attached(itemMap, hung, slots, sid + 1, hi)
    modifies w`depth, w`loads, w.items`totalWeight, ItemSet(itemMap)`parent, ItemSet(itemMap)`itemlist
    ensures w.Valid() && Loose(itemMap, sid, w) && Attached(itemMap, hung', slots, sid, hi)
  {
    var (item, pid) := itemMap[sid];
    hung' := hung;
    if slots.Has(pid) {
      assert Hung(itemMap, hung, slots, pid, sid + 1, hi);
      hung' := Hang(hung, slots, pid, item);
    }
    PutIn(itemMap, slots, sid, hi, w);
    forall p | slots.Has(p) ensures Hung(itemMap, hung', slots, p, sid, hi) {
      assert Hung(itemMap, hung, slots, p, sid + 1, hi);
      if slots.Has(pid) {
        HangStep(itemMap, hung, slots, p, sid, hi);
      } else {
        ChildrenStep(itemMap, p, sid, hi);
      }
    }
  }

  ghost function Below(itemMap: ItemMap, lo: nat): set<nat> {
    set s | s in itemMap && s < lo
  }

  lemma RemoveMax(itemMap: ItemMap, lo: nat, m: nat)
    requires m in Below(itemMap, lo) && forall k :: k in Below(itemMap, lo) ==> k <= m
    ensures Below(itemMap, lo) - {m} == Below(itemMap, m)
    ensures forall s :: m < s < lo ==> s !in itemMap
  {
    assert forall s :: m < s < lo && s in itemMap ==> s in Below(itemMap, lo);
  }

  /** Attaches the last row below `lo`. */
  method AttachNext(itemMap: ItemMap, hung: map<nat, seq<Item>>, slots: Slots, sid: nat, ghost lo: nat, ghost hi: nat,
                    ghost w: World)
    returns (hung': map<nat, seq<Item>>)
    requires w.Valid() && Descending(itemMap, slots) && Loose(itemMap, lo, w)
    requires lo <= hi && Attached(itemMap, hung, slots, lo, hi)
    requires sid in Below(itemMap, lo) && forall k :: k in Below(itemMap, lo) ==> k <= sid
    modifies w`depth, w`loads, w.items`totalWeight, ItemSet(itemMap)`parent, ItemSet(itemMap)`itemlist
    ensures w.Valid() && Loose(itemMap, sid, w)
    ensures Attached(itemMap, hung', slots, sid, hi) && Below(itemMap, lo) - {sid} == Below(itemMap, sid)
  {
    RemoveMax(itemMap, lo, sid);
    Skip(itemMap, hung, slots, sid + 1, lo, hi);
    hung' := Attach(itemMap, hung, slots, sid, hi, w);
  }

  method AttachItems(itemMap: ItemMap, slots: Slots, ghost w: World) returns (hung: map<nat, seq<Item>>, ghost hi: nat)
    requires w.Valid() && Descending(itemMap, slots) && ItemSet(itemMap) <= w.items
    requires forall s :: s in itemMap ==> itemMap[s].0.itemlist == [] && itemMap[s].0.parent == null
    modifies w`depth, w`loads, w.items`totalWeight, ItemSet(itemMap)`parent, ItemSet(itemMap)`itemlist
    ensures w.Valid()
    ensures forall s :: s in itemMap ==> s < hi
    ensures Attached(itemMap, hung, slots, 0, hi)
  {
    hung := map p: nat | p <= slots.last && slots.Has(p) :: [];
    var keys := itemMap.Keys;
    ghost var lo: nat := 0;
    if keys != {} {
      lo := MaxKey(keys);
      lo := lo + 1;
    }
    hi := lo;
    while keys != {}
      invariant w.Valid() && Loose(itemMap, lo, w)
      invariant lo <= hi
      invariant keys == Below(itemMap, lo)
      invariant Attached(itemMap, hung, slots, lo, hi)
    {
      ghost var m := MaxKey(keys);
      var sid :| sid in keys && forall k :: k in keys ==> k <= sid;
      hung := AttachNext(itemMap, hung, slots, sid, lo, hi, w);
      keys := keys - {sid};
      lo := sid;
    }
    assert forall s :: 0 <= s < lo && s in itemMap ==> s in Below(itemMap, lo);
    Skip(itemMap, hung, slots, 0, lo, hi);
  }

  /** Numbers without a row change nothing. */
  lemma Skip(itemMap: ItemMap, hung: map<nat, seq<Item>>, slots: Slots, lo: nat, lo': nat, hi: nat)
    requires lo <= lo'
    requires forall s :: lo <= s < lo' ==> s !in itemMap
    requires Attached(itemMap, hung, slots, lo', hi)
    ensures Attached(itemMap, hung, slots, lo, hi)
  {
    forall p: nat ensures Children(itemMap, p, lo, hi) == Children(itemMap, p, lo', hi) {
      ChildrenGap(itemMap, p, lo, lo', hi);
    }
  }

  // ------------------------------------------------------------ round trip

  /** The live item `it`, with everything linked below it, is the tree `t`. */
  ghost predicate Represents(it: Item, t: Tree<Content>, items: set<Item>)
    reads items
    decreases t
  {
    && it in items && ContentOf(it) == t.item
    && |it.itemlist| == |t.contents|
    && forall k :: 0 <= k < |t.contents| ==> Represents(it.itemlist[k], t.contents[k], items)
  }

  ghost predicate RepresentsAll(its: seq<Item>, f: seq<Tree<Content>>, items: set<Item>)
    reads items
  {
    |its| == |f| && forall k :: 0 <= k < |f| ==> Represents(its[k], f[k], items)
  }

  function Reverse<T>(s: seq<T>): (r: seq<T>)
    ensures |r| == |s| && forall k :: 0 <= k < |s| ==> r[k] == s[|s| - 1 - k]
  {
    if s == [] then [] else Reverse(s[1..]) + [s[0]]
  }

  /** Loading numbered rows of known types keeps each of them. */
  lemma {:induction false} KeptAll(rows: seq<Row>, types: Types)
    requires forall i :: 0 <= i < |rows| ==> rows[i].record.itemType in types
    requires forall i, j :: 0 <= i < j < |rows| ==> rows[i].sid != rows[j].sid
    ensures forall i :: 0 <= i < |rows| ==> rows[i].sid in KeptRows(rows, types) && KeptRows(rows, types)[rows[i].sid] == rows[i]
    ensures forall s :: s in KeptRows(rows, types) ==> exists i :: 0 <= i < |rows| && rows[i].sid == s
  {
    if rows != [] {
      var init := rows[..|rows| - 1];
      KeptAll(init, types);
      forall s: nat | s in KeptRows(rows, types) ensures exists i :: 0 <= i < |rows| && rows[i].sid == s {
        if s != rows[|rows| - 1].sid {
          var i :| 0 <= i < |init| && init[i].sid == s;
          assert rows[i].sid == s;
        }
      }
    }
  }

  /** `itemMap` holds row i under key 101 + i, with its parent. */
  ghost predicate HoldsRows(itemMap: ItemMap, rows: seq<Row>) {
    && (forall s :: s in itemMap.Keys <==> FIRST_ID <= s < FIRST_ID + |rows|)
    && forall s :: s in itemMap ==> itemMap[s].1 == rows[s - FIRST_ID].pid
  }

  ghost function NodesOf(nodes: seq<Tree<Content>>, keys: seq<nat>): seq<Tree<Content>> {
    seq(|keys|, k requires 0 <= k < |keys| =>
      if FIRST_ID <= keys[k] < FIRST_ID + |nodes| then nodes[keys[k] - FIRST_ID] else Tree(Content(0, map[]), []))
  }

  lemma NodesOfConcat(nodes: seq<Tree<Content>>, a: seq<nat>, b: seq<nat>)
    ensures NodesOf(nodes, a + b) == NodesOf(nodes, a) + NodesOf(nodes, b)
  {}

  lemma UnderPrefix(rows: seq<Row>, nodes: seq<Tree<Content>>, p: nat, n: nat)
    requires n < |rows| == |nodes|
    ensures Under(rows[..n + 1], nodes[..n + 1], p)
         == Under(rows[..n], nodes[..n], p) + if rows[n].pid == p then [nodes[n]] else []
  {
    assert rows[..n + 1][..n] == rows[..n] && nodes[..n + 1][..n] == nodes[..n];
  }

  /** The keys from `lo` up whose parent is `p` are the nodes under `p` from there on. */
  lemma {:induction false} ChildrenAreUnder(itemMap: ItemMap, rows: seq<Row>, nodes: seq<Tree<Content>>,
                                            p: nat, lo: nat, hi: nat)
    requires |rows| == |nodes| && HoldsRows(itemMap, rows)
    requires FIRST_ID <= lo <= FIRST_ID + |rows| && forall s :: s in itemMap ==> s < hi
    ensures Under(rows, nodes, p) == Under(rows[..lo - FIRST_ID], nodes[..lo - FIRST_ID], p)
                                     + NodesOf(nodes, Children(itemMap, p, lo, hi))
    decreases FIRST_ID + |rows| - lo
  {
    var n := lo - FIRST_ID;
    if n == |rows| {
      assert rows[..n] == rows && nodes[..n] == nodes;
      ChildrenGap(itemMap, p, lo, lo + hi, hi);
    } else {
      ChildrenAreUnder(itemMap, rows, nodes, p, lo + 1, hi);
      UnderPrefix(rows, nodes, p, n);
      assert lo in itemMap;
      ChildrenNodes(itemMap, rows, nodes, p, lo, hi);
      Associate(Under(rows[..n], nodes[..n], p), if rows[n].pid == p then [nodes[n]] else [],
                NodesOf(nodes, Children(itemMap, p, lo + 1, hi)));
    }
  }

  lemma ChildrenNodes(itemMap: ItemMap, rows: seq<Row>, nodes: seq<Tree<Content>>, p: nat, lo: nat, hi: nat)
    requires |rows| == |nodes| && HoldsRows(itemMap, rows)
    requires FIRST_ID <= lo < FIRST_ID + |rows| && lo < hi
    ensures NodesOf(nodes, Children(itemMap, p, lo, hi))
         == (if rows[lo - FIRST_ID].pid == p then [nodes[lo - FIRST_ID]] else []) + NodesOf(nodes, Children(itemMap, p, lo + 1, hi))
  {
    assert lo in itemMap;
    NodesOfConcat(nodes, if rows[lo - FIRST_ID].pid == p then [lo] else [], Children(itemMap, p, lo + 1, hi));
  }

  /** With all keys counted: the children of `p` are exactly the nodes under `p`. */
  lemma ChildrenMatch(itemMap: ItemMap, rows: seq<Row>, nodes: seq<Tree<Content>>, p: nat, hi: nat)
    requires |rows| == |nodes| && HoldsRows(itemMap, rows)
    requires forall s :: s in itemMap ==> s < hi
    ensures NodesOf(nodes, Children(itemMap, p, 0, hi)) == Under(rows, nodes, p)
  {
    ChildrenGap(itemMap, p, 0, FIRST_ID, hi);
    ChildrenAreUnder(itemMap, rows, nodes, p, FIRST_ID, hi);
  }

  /** The items numbered `lo` and above stand for their trees. */
  ghost predicate StandFrom(itemMap: ItemMap, nodes: seq<Tree<Content>>, items: set<Item>, lo: nat)
    requires forall s :: s in itemMap ==> FIRST_ID <= s < FIRST_ID + |nodes|
    reads items
  {
    forall s :: lo <= s && s in itemMap ==> Represents(itemMap[s].0, nodes[s - FIRST_ID], items)
  }

  lemma StandList(itemMap: ItemMap, nodes: seq<Tree<Content>>, items: set<Item>, lo: nat, c: seq<nat>)
    requires forall s :: s in itemMap ==> FIRST_ID <= s < FIRST_ID + |nodes|
    requires StandFrom(itemMap, nodes, items, lo)
    requires forall k :: 0 <= k < |c| ==> c[k] in itemMap && lo <= c[k]
    ensures RepresentsAll(ItemsOf(itemMap, c), NodesOf(nodes, c), items)
  {
    forall k | 0 <= k < |c| ensures Represents(ItemsOf(itemMap, c)[k], NodesOf(nodes, c)[k], items) {
      var s := c[k];
      assert Represents(itemMap[s].0, nodes[s - FIRST_ID], items);
    }
  }

  /** A loaded item stands for its tree if every item of a larger number does. */
  lemma RebuiltAt(itemMap: ItemMap, rows: seq<Row>, nodes: seq<Tree<Content>>, slots: Slots, hi: nat, p: nat)
    requires Ascending(rows) && |nodes| == |rows| && HoldsRows(itemMap, rows) && forall s :: s in itemMap ==> s < hi
    requires p in itemMap && !slots.Has(p) && Filled(itemMap, slots, p, 0, hi)
    requires Under(rows, nodes, p) == nodes[p - FIRST_ID].contents
    requires ContentOf(itemMap[p].0) == nodes[p - FIRST_ID].item
    requires itemMap[p].0.container || nodes[p - FIRST_ID].contents == []
    requires StandFrom(itemMap, nodes, ItemSet(itemMap), p + 1)
    ensures Represents(itemMap[p].0, nodes[p - FIRST_ID], ItemSet(itemMap))
  {
    var c := Children(itemMap, p, 0, hi);
    ChildrenMatch(itemMap, rows, nodes, p, hi);
    forall k | 0 <= k < |c| ensures c[k] in itemMap && p + 1 <= c[k] {
      assert itemMap[c[k]].1 == p;
    }
    StandList(itemMap, nodes, ItemSet(itemMap), p + 1, c);
    RepresentsNode(itemMap[p].0, nodes[p - FIRST_ID], ItemSet(itemMap));
  }

  lemma RepresentsNode(it: Item, t: Tree<Content>, items: set<Item>)
    requires it in items && ContentOf(it) == t.item && RepresentsAll(it.itemlist, t.contents, items)
    ensures Represents(it, t, items)
  {}

  /** Row i has number 101 + i and names a smaller one. */
  ghost predicate Ascending(rows: seq<Row>) {
    forall i :: 0 <= i < |rows| ==> rows[i].pid < rows[i].sid == FIRST_ID + i
  }

  /** `itemMap` was loaded from exactly these rows, and its items are the nodes. */
  ghost predicate LoadedFrom(itemMap: ItemMap, rows: seq<Row>, nodes: seq<Tree<Content>>)
    reads ItemSet(itemMap)`ty, ItemSet(itemMap)`count, ItemSet(itemMap)`attributes
  {
    && Ascending(rows) && |nodes| == |rows| && HoldsRows(itemMap, rows)
    && forall s :: s in itemMap ==>
         && ContentOf(itemMap[s].0) == nodes[s - FIRST_ID].item
         && (itemMap[s].0.container || nodes[s - FIRST_ID].contents == [])
  }

  lemma {:induction false} Rebuilt(itemMap: ItemMap, rows: seq<Row>, nodes: seq<Tree<Content>>,
                                   hung: map<nat, seq<Item>>, slots: Slots, hi: nat, i: nat)
    requires LoadedFrom(itemMap, rows, nodes) && slots.last < FIRST_ID && forall s :: s in itemMap ==> s < hi
    requires forall s :: FIRST_ID <= s < FIRST_ID + |rows| ==> Under(rows, nodes, s) == nodes[s - FIRST_ID].contents
    requires Attached(itemMap, hung, slots, 0, hi)
    requires i <= |rows|
    ensures StandFrom(itemMap, nodes, ItemSet(itemMap), FIRST_ID + i)
    decreases |rows| - i
  {
    if i < |rows| {
      Rebuilt(itemMap, rows, nodes, hung, slots, hi, i + 1);
      var s := FIRST_ID + i;
      assert s in itemMap && Filled(itemMap, slots, s, 0, hi);
      assert ContentOf(itemMap[s].0) == nodes[s - FIRST_ID].item;
      assert itemMap[s].0.container || nodes[s - FIRST_ID].contents == [];
      RebuiltAt(itemMap, rows, nodes, slots, hi, s);
      StandStep(itemMap, nodes, ItemSet(itemMap), s);
    }
  }

  lemma StandStep(itemMap: ItemMap, nodes: seq<Tree<Content>>, items: set<Item>, s: nat)
    requires forall s :: s in itemMap ==> FIRST_ID <= s < FIRST_ID + |nodes|
    requires s in itemMap && Represents(itemMap[s].0, nodes[s - FIRST_ID], items)
    requires StandFrom(itemMap, nodes, items, s + 1)
    ensures StandFrom(itemMap, nodes, items, s)
  {}

  /** What hangs at a slot after loading stands for what was saved from it. */
  lemma RebuiltSlot(itemMap: ItemMap, rows: seq<Row>, nodes: seq<Tree<Content>>, hung: map<nat, seq<Item>>,
                    slots: Slots, hi: nat, pid: nat)
    requires |rows| == |nodes| && HoldsRows(itemMap, rows) && forall s :: s in itemMap ==> s < hi
    requires StandFrom(itemMap, nodes, ItemSet(itemMap), 0)
    requires Hung(itemMap, hung, slots, pid, 0, hi)
    requires slots.single ==> |Under(rows, nodes, pid)| <= 1
    ensures RepresentsAll(hung[pid], Under(rows, nodes, pid), ItemSet(itemMap))
  {
    var c := Children(itemMap, pid, 0, hi);
    ChildrenMatch(itemMap, rows, nodes, pid, hi);
    assert hung[pid] == ItemsOf(itemMap, c);
    StandList(itemMap, nodes, ItemSet(itemMap), 0, c);
  }

  /** What lies below a number in the nodes that come back is what comes back of what lay below it. */
  lemma {:induction false} UnderBack(back: Content -> Content, rows: seq<Row>, nodes: seq<Tree<Content>>, pid: nat)
    requires |rows| == |nodes|
    ensures Under(rows, Mapped(back, nodes), pid) == Mapped(back, Under(rows, nodes, pid))
  {
    if rows != [] {
      var n := |rows| - 1;
      assert nodes == nodes[..n] + [nodes[n]];
      MappedConcat(back, nodes[..n], [nodes[n]]);
      assert Mapped(back, nodes)[..n] == Mapped(back, nodes[..n]);
      UnderBack(back, rows[..n], nodes[..n], pid);
      MappedConcat(back, Under(rows[..n], nodes[..n], pid), if rows[n].pid == pid then [nodes[n]] else []);
    }
  }

  lemma LoadedAll(itemMap: ItemMap, rows: seq<Row>, nodes: seq<Tree<Content>>, types: Types, bag: Content -> bool,
                  ok: Content -> bool, enc: Encoder, read: Record -> Content, back: Content -> Content)
    requires Codec(types, bag, ok, enc, read, back) && Numbered(rows, nodes, enc) && Typed(nodes, bag, ok)
    requires Holds(itemMap, KeptRows(Reverse(rows), types), types, read)
    ensures LoadedFrom(itemMap, rows, Mapped(back, nodes))
  {
    var kept := KeptRows(Reverse(rows), types);
    KeptReversed(rows, nodes, types, bag, ok, enc, read, back);
    assert itemMap.Keys == kept.Keys;
    forall s | s in itemMap
      ensures ContentOf(itemMap[s].0) == Mapped(back, nodes)[s - FIRST_ID].item
      ensures itemMap[s].0.container || Mapped(back, nodes)[s - FIRST_ID].contents == []
      ensures itemMap[s].1 == rows[s - FIRST_ID].pid
    {
      assert HoldsAt(itemMap, kept, types, read, s);
      MappedAt(back, nodes, s - FIRST_ID);
    }
  }

  /** `kept` has row i under key 101 + i and nothing else. */
  ghost predicate Exactly(kept: map<nat, Row>, rows: seq<Row>) {
    && (forall s :: s in kept.Keys <==> FIRST_ID <= s < FIRST_ID + |rows|)
    && forall s :: s in kept.Keys ==> kept[s] == rows[s - FIRST_ID]
  }

  lemma KeptReversed(rows: seq<Row>, nodes: seq<Tree<Content>>, types: Types, bag: Content -> bool,
                     ok: Content -> bool, enc: Encoder, read: Record -> Content, back: Content -> Content)
    requires Codec(types, bag, ok, enc, read, back) && Numbered(rows, nodes, enc) && Typed(nodes, bag, ok)
    ensures Exactly(KeptRows(Reverse(rows), types), rows)
  {
    var result := Reverse(rows);
    forall i | 0 <= i < |result|
      ensures result[i].sid == FIRST_ID + |rows| - 1 - i && result[i].record.itemType in types
    {
      assert result[i] == rows[|rows| - 1 - i];
    }
    KeptAll(result, types);
    ExactlyReversed(KeptRows(result, types), rows, result);
  }

  lemma ExactlyReversed(kept: map<nat, Row>, rows: seq<Row>, result: seq<Row>)
    requires |result| == |rows|
    requires forall i :: 0 <= i < |result| ==> result[i].sid == FIRST_ID + |rows| - 1 - i
    requires forall i :: 0 <= i < |result| ==> result[i] == rows[|rows| - 1 - i]
    requires forall i :: 0 <= i < |result| ==> result[i].sid in kept && kept[result[i].sid] == result[i]
    requires forall s :: s in kept ==> exists i :: 0 <= i < |result| && result[i].sid == s
    ensures Exactly(kept, rows)
  {
    forall s: nat | FIRST_ID <= s < FIRST_ID + |rows| ensures s in kept && kept[s] == rows[s - FIRST_ID] {
      assert result[FIRST_ID + |rows| - 1 - s].sid == s;
    }
  }

  lemma DescendingRows(itemMap: ItemMap, rows: seq<Row>, slots: Slots)
    requires Ascending(rows) && HoldsRows(itemMap, rows) && Injective(itemMap)
    ensures Descending(itemMap, slots)
  {}

  /** Attaching the items changes nothing they were created with. */
  method AttachRows(itemMap: ItemMap, slots: Slots, ghost rows: seq<Row>, ghost nodes: seq<Tree<Content>>, ghost w: World)
    returns (hung: map<nat, seq<Item>>, ghost hi: nat)
    requires w.Valid() && Injective(itemMap) && LoadedFrom(itemMap, rows, nodes) && ItemSet(itemMap) <= w.items
    requires forall s :: s in itemMap ==> itemMap[s].0.itemlist == [] && itemMap[s].0.parent == null
    modifies w`depth, w`loads, w.items`totalWeight, ItemSet(itemMap)`parent, ItemSet(itemMap)`itemlist
    ensures w.Valid() && LoadedFrom(itemMap, rows, nodes)
    ensures Attached(itemMap, hung, slots, 0, hi) && forall s :: s in itemMap ==> s < hi
  {
    DescendingRows(itemMap, rows, slots);
    hung, hi := AttachItems(itemMap, slots, w);
  }

  method LoadRows(ghost itemList: seq<(nat, Tree<Content>)>, rows: seq<Row>, ghost nodes: seq<Tree<Content>>,
                  types: Types, slots: Slots, ghost bag: Content -> bool, ghost ok: Content -> bool, ghost enc: Encoder,
                  ghost read: Record -> Content, ghost back: Content -> Content)
    returns (hung: map<nat, seq<Item>>, ghost items: set<Item>, ghost w: World)
    requires Codec(types, bag, ok, enc, read, back) && Reads(types, read)
    requires Flattens(itemList, rows, nodes, enc) && Typed(nodes, bag, ok) && slots.last < FIRST_ID
    requires slots.single ==> forall i, j :: 0 <= i < j < |itemList| ==> itemList[i].0 != itemList[j].0
    ensures fresh(items) && fresh(w) && items <= w.items && w.Valid()
    ensures forall pid :: slots.Has(pid) ==>
              pid in hung && RepresentsAll(hung[pid], Mapped(back, HungAt(itemList, pid)), items)
  {
    w := new World();
    var itemMap := LoadItems(Reverse(rows), types, read, w);
    LoadedAll(itemMap, rows, nodes, types, bag, ok, enc, read, back);
    ghost var hi;
    hung, hi := AttachRows(itemMap, slots, rows, Mapped(back, nodes), w);
    items := ItemSet(itemMap);
    BackFromRows(itemList, itemMap, rows, nodes, enc, back, hung, slots, hi);
  }

  lemma BackFlat(itemList: seq<(nat, Tree<Content>)>, rows: seq<Row>, nodes: seq<Tree<Content>>, enc: Encoder,
                 back: Content -> Content, came: seq<Tree<Content>>)
    requires Flattens(itemList, rows, nodes, enc) && came == Mapped(back, nodes)
    ensures forall s :: FIRST_ID <= s < FIRST_ID + |rows| ==> Under(rows, came, s) == came[s - FIRST_ID].contents
    ensures forall pid :: 0 <= pid < FIRST_ID ==> Under(rows, came, pid) == Mapped(back, HungAt(itemList, pid))
  {
    forall s | FIRST_ID <= s < FIRST_ID + |rows| ensures Under(rows, came, s) == came[s - FIRST_ID].contents {
      UnderBack(back, rows, nodes, s);
      MappedAt(back, nodes, s - FIRST_ID);
    }
    forall pid: nat | pid < FIRST_ID ensures Under(rows, came, pid) == Mapped(back, HungAt(itemList, pid)) {
      UnderBack(back, rows, nodes, pid);
    }
  }

  lemma BackFromRows(itemList: seq<(nat, Tree<Content>)>, itemMap: ItemMap, rows: seq<Row>, nodes: seq<Tree<Content>>,
                     enc: Encoder, back: Content -> Content, hung: map<nat, seq<Item>>, slots: Slots, hi: nat)
    requires Flattens(itemList, rows, nodes, enc) && LoadedFrom(itemMap, rows, Mapped(back, nodes)) && slots.last < FIRST_ID
    requires slots.single ==> forall i, j :: 0 <= i < j < |itemList| ==> itemList[i].0 != itemList[j].0
    requires Attached(itemMap, hung, slots, 0, hi) && forall s :: s in itemMap ==> s < hi
    ensures forall pid :: slots.Has(pid) ==>
              pid in hung && RepresentsAll(hung[pid], Mapped(back, HungAt(itemList, pid)), ItemSet(itemMap))
  {
    var came := Mapped(back, nodes);
    BackFlat(itemList, rows, nodes, enc, back, came);
    Rebuilt(itemMap, rows, came, hung, slots, hi, 0);
    forall pid | slots.Has(pid)
      ensures pid in hung && RepresentsAll(hung[pid], Mapped(back, HungAt(itemList, pid)), ItemSet(itemMap))
    {
      BackAtSlot(itemList, itemMap, rows, came, back, hung, slots, hi, pid);
    }
  }

  lemma BackAtSlot(itemList: seq<(nat, Tree<Content>)>, itemMap: ItemMap, rows: seq<Row>, came: seq<Tree<Content>>,
                   back: Content -> Content, hung: map<nat, seq<Item>>, slots: Slots, hi: nat, pid: nat)
    requires |rows| == |came| && HoldsRows(itemMap, rows) && forall s :: s in itemMap ==> s < hi
    requires StandFrom(itemMap, came, ItemSet(itemMap), 0) && Hung(itemMap, hung, slots, pid, 0, hi)
    requires slots.single ==> forall i, j :: 0 <= i < j < |itemList| ==> itemList[i].0 != itemList[j].0
    requires Under(rows, came, pid) == Mapped(back, HungAt(itemList, pid))
    ensures RepresentsAll(hung[pid], Mapped(back, HungAt(itemList, pid)), ItemSet(itemMap))
  {
    if slots.single {
      HungOnce(itemList, pid);
    }
    RebuiltSlot(itemMap, rows, came, hung, slots, hi, pid);
  }

  /**
   Saving and then loading gives back, at every slot, live items that stand for
   exactly what comes back of the trees saved from it, in the same order at every
   level, with all parents and cached weights right.
   */
  method SaveAndLoad(itemList: seq<(nat, Tree<Content>)>, types: Types, slots: Slots)
    returns (hung: map<nat, seq<Item>>, ghost items: set<Item>, ghost w: World)
    requires slots.last < FIRST_ID
    requires forall i :: 0 <= i < |itemList| ==> slots.Has(itemList[i].0)
    requires slots.single ==> forall i, j :: 0 <= i < j < |itemList| ==> itemList[i].0 != itemList[j].0
    requires Typed(Roots(itemList), BagsOf(types), KnownTo(types))
    ensures fresh(items) && fresh(w) && items <= w.items && w.Valid()
    ensures forall pid :: slots.Has(pid) ==>
              pid in hung && RepresentsAll(hung[pid], Mapped(BackOf(types), HungAt(itemList, pid)), items)
  {
    ghost var nodes: seq<Tree<Content>>;
    var rows: seq<Row>;
    ActualWriting(types);
    ActualCodec(types);
    rows, nodes := SaveItems(itemList, types, BagsOf(types), KnownTo(types), RecordsOf(types));
    hung, items, w := LoadRows(itemList, rows, nodes, types, slots, BagsOf(types), KnownTo(types), RecordsOf(types),
                               ReadsOf(types), BackOf(types));
  }

  // ------------------------------------------------- what comes back changed

  /** At every depth, items are stable and of no replaced type. */
  ghost predicate AllStable(types: Types, f: seq<Tree<Content>>) {
    f != [] ==>
      && MapSerialize.StableItem(types, f[0].item)
      && AllStable(types, f[0].contents) && AllStable(types, f[1..])
  }

  /** What comes back is what was saved exactly if, at every depth, items are stable and of no replaced type. */
  lemma {:induction false} UnchangedIff(types: Types, f: seq<Tree<Content>>)
    requires Typed(f, BagsOf(types), KnownTo(types))
    ensures Mapped(BackOf(types), f) == f <==> AllStable(types, f)
  {
    if f != [] {
      var item := f[0].item;
      MapSerialize.ItemUnchanged(types, item, Unsigned(2, SubType(TypeOf(types, item.id), item.vals)));
      UnchangedIff(types, f[0].contents);
      UnchangedIff(types, f[1..]);
      SameHead(f, Tree(Back(types, item), Mapped(BackOf(types), f[0].contents)), Mapped(BackOf(types), f[1..]));
    }
  }

  lemma SameHead(f: seq<Tree<Content>>, first: Tree<Content>, rest: seq<Tree<Content>>)
    requires f != []
    ensures [first] + rest == f <==> first.item == f[0].item && first.contents == f[0].contents && rest == f[1..]
  {
    assert f == [f[0]] + f[1..];
    assert ([first] + rest)[0] == first && ([first] + rest)[1..] == rest;
  }

  /** A row of a stack without attributes gives so many pieces as it says, but one if it says none. */
  lemma BareRow(types: Types, id: nat, n: nat)
    requires TypeOf(types, id).stackable && id !in SUCCESSORS && !TypeOf(types, id).fluid && !TypeOf(types, id).container
    ensures var stack := ReadRow(types, Record(id, n, []));
            stack.id == id && Count in stack.vals && stack.vals[Count] == Int(if n == 0 then 1 else n % 256)
  {
    NotReplaced(types, id);
  }

  lemma NoCharges(ty: ItemType, vals: Vals)
    requires !ty.fluid && !ty.stackable && ty.charges > 0 && IntAttr(vals, Charges) % 0x1_0000 == 0
    ensures SubTypeKey(ty) == Charges && SubType(ty, vals) == 0 == Unsigned(2, SubType(ty, vals))
    ensures Charges in Created(ty, ty, 0) && Created(ty, ty, 0)[Charges] == Int(ty.charges)
  {}

  /** An item of a charged type that has used up its charges comes back with all of them. */
  lemma Recharged(types: Types, item: Content)
    requires WellTyped(item) && item.id in types && item.id !in SUCCESSORS
    requires !types[item.id].fluid && !types[item.id].stackable && types[item.id].charges > 0
    requires IntAttr(item.vals, Charges) % 0x1_0000 == 0
    ensures Back(types, item).id == item.id && Charges in Back(types, item).vals
    ensures Back(types, item).vals[Charges] == Int(types[item.id].charges)
  {
    NotReplaced(types, item.id);
    NoCharges(TypeOf(types, item.id), item.vals);
    var r := MapSerialize.ReadingOf(types, item.id, 0);
    assert Back(types, item) == Content(r.ty.id, MapSerialize.Persisted(r, item.vals));
    MapSerialize.PersistedKey(r, item, Charges);
  }

  /** A ring, or another item of a type that is replaced, in the ring slot comes back as its successor. */
  method RingReplaced(types: Types, id: nat) returns (back: nat)
    requires id in SUCCESSORS && id in types && !types[id].container
    ensures back == SUCCESSORS[id] != id
  {
    var ring := Tree(Content(id, map[Count := Int(1)]), []);
    var itemList := [(9, ring)];
    NotReplaced(types, id);
    assert Roots(itemList) == [ring];
    var hung: map<nat, seq<Item>>, items, w := SaveAndLoad(itemList, types, Slots(1, 10, true));
    assert itemList[..0] == [] && HungAt(itemList, 9) == [ring];
    assert Mapped(BackOf(types), [ring]) == [Tree(Back(types, ring.item), [])];
    back := hung[9][0].ty.id;
  }

  lemma {:induction false} HungOnce(itemList: seq<(nat, Tree<Content>)>, pid: nat)
    requires forall i, j :: 0 <= i < j < |itemList| ==> itemList[i].0 != itemList[j].0
    ensures |HungAt(itemList, pid)| <= 1
    ensures HungAt(itemList, pid) != [] ==> exists i :: 0 <= i < |itemList| && itemList[i].0 == pid
  {
    if itemList != [] {
      HungOnce(itemList[..|itemList| - 1], pid);
    }
  }
}
