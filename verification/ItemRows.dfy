/**
 Saving a player's items as database rows: `SaveItems` numbers a forest of nested
 containers breadth first and writes one row per item.
 */
module ItemRows {
  import opened Common
  import opened Forest
  import opened Items
  import MapSerialize

  /** What a row stores about one item: its id, its subtype, and its attributes as a stream of bytes. */
  datatype Record = Record(itemType: nat, subType: nat, attributes: seq<Byte>)

  datatype Row = Row(pid: nat, sid: nat, record: Record)

  /** The record of an item. */
  function RecordOf(types: Types, item: Content): Record {
    var ty := TypeOf(types, item.id);
    Record(item.id, Unsigned(2, SubType(ty, item.vals)), MapSerialize.AttrBytes(ty, item.vals, MapSerialize.FIELDS))
  }

  /**
   What the numbering of rows needs to know of items: `bag` says which are containers, `ok`
   which can be written, and `enc` what is written.
   */
  ghost predicate Writing(types: Types, bag: Content -> bool, ok: Content -> bool, enc: Encoder) {
    forall item: Content {:trigger RecordOf(types, item)} ::
      && enc(item) == RecordOf(types, item) && bag(item) == TypeOf(types, item.id).container
      && (ok(item) ==> WellTyped(item) && item.id in types)
  }

  type Encoder = Content -> Record

  const FIRST_ID: nat := 101

  // ---------------------------------------------------------------- saving

  /** The saved trees whose rows name `pid` as parent, in row order. */
  function Under(rows: seq<Row>, nodes: seq<Tree<Content>>, pid: nat): (u: seq<Tree<Content>>)
    requires |rows| == |nodes|
  {
    if rows == [] then [] else
      var n := |rows| - 1;
      Under(rows[..n], nodes[..n], pid) + if rows[n].pid == pid then [nodes[n]] else []
  }

  /** The trees hung at slot (or depot, or inbox) `pid`, in order. */
  function HungAt(itemList: seq<(nat, Tree<Content>)>, pid: nat): (h: seq<Tree<Content>>) {
    if itemList == [] then [] else
      var n := |itemList| - 1;
      HungAt(itemList[..n], pid) + if itemList[n].0 == pid then [itemList[n].1] else []
  }

  function Roots(itemList: seq<(nat, Tree<Content>)>): (r: seq<Tree<Content>>) {
    seq(|itemList|, i requires 0 <= i < |itemList| => itemList[i].1)
  }

  /**
   `rows` flattens `itemList`: row i has sid 101 + i and stands for the subtree
   nodes[i], the rows below a container's sid are exactly its contents in order,
   the rows below a slot are exactly what hangs there, and every parent is a
   slot or the sid of an earlier row.
   */
  ghost predicate Flattens(itemList: seq<(nat, Tree<Content>)>, rows: seq<Row>, nodes: seq<Tree<Content>>, enc: Encoder) {
    && |rows| == |nodes| == Size(Roots(itemList))
    && (forall i :: 0 <= i < |rows| ==> rows[i].sid == FIRST_ID + i && rows[i].record == enc(nodes[i].item))
    && (forall i :: 0 <= i < |rows| ==> rows[i].pid < rows[i].sid)
    && (forall s :: FIRST_ID <= s < FIRST_ID + |rows| ==> Under(rows, nodes, s) == nodes[s - FIRST_ID].contents)
    && (forall pid :: 0 <= pid < FIRST_ID ==> Under(rows, nodes, pid) == HungAt(itemList, pid))
  }

  lemma UnderAppend(rows: seq<Row>, nodes: seq<Tree<Content>>, row: Row, node: Tree<Content>)
    requires |rows| == |nodes|
    ensures forall pid :: Under(rows + [row], nodes + [node], pid)
                       == Under(rows, nodes, pid) + if row.pid == pid then [node] else []
  {
    assert (rows + [row])[..|rows|] == rows && (nodes + [node])[..|rows|] == nodes;
  }

  /** No row refers to a sid that has not been handed out yet. */
  lemma {:induction false} UnderFresh(rows: seq<Row>, nodes: seq<Tree<Content>>, pid: nat)
    requires |rows| == |nodes|
    requires forall i :: 0 <= i < |rows| ==> rows[i].pid < rows[i].sid == FIRST_ID + i
    requires pid >= FIRST_ID + |rows|
    ensures Under(rows, nodes, pid) == []
  {
    if rows != [] {
      UnderFresh(rows[..|rows| - 1], nodes[..|rows| - 1], pid);
    }
  }

  /** Every item is as it should be, and only containers hold anything. */
  ghost predicate Typed(f: seq<Tree<Content>>, bag: Content -> bool, ok: Content -> bool) {
    forall i :: 0 <= i < |f| ==>
      && ok(f[i].item)
      && (!bag(f[i].item) ==> f[i].contents == [])
      && Typed(f[i].contents, bag, ok)
  }

  lemma TypedAppend(f: seq<Tree<Content>>, t: Tree<Content>, bag: Content -> bool, ok: Content -> bool)
    requires Typed(f, bag, ok) && Typed([t], bag, ok)
    ensures Typed(f + [t], bag, ok)
  {
    assert [t][0] == t;
  }

  /** A container waiting to have its contents written, with its sid. */
  datatype Block = Block(container: Tree<Content>, sid: nat)

  ghost predicate Waiting(queue: seq<Block>, sid: nat) {
    exists q :: 0 <= q < |queue| && queue[q].sid == sid
  }

  /** The nodes still to be written below the containers of the queue. */
  ghost function Pending(queue: seq<Block>): (n: nat) {
    if queue == [] then 0 else Size(queue[0].container.contents) + Pending(queue[1..])
  }

  lemma {:induction false} PendingAppend(queue: seq<Block>, cb: Block)
    ensures Pending(queue + [cb]) == Pending(queue) + Size(cb.container.contents)
  {
    if queue == [] {
      assert queue + [cb] == [cb];
    } else {
      PendingAppend(queue[1..], cb);
      assert (queue + [cb])[1..] == queue[1..] + [cb];
    }
  }

  ghost predicate Numbered(rows: seq<Row>, nodes: seq<Tree<Content>>, enc: Encoder) {
    && |rows| == |nodes|
    && forall i :: 0 <= i < |rows| ==>
         rows[i].pid < rows[i].sid == FIRST_ID + i && rows[i].record == enc(nodes[i].item)
  }

  /**
   What is written below `sid`: nothing while its container waits in the queue,
   its whole contents once it has left; no claim about the `current` container.
   */
  ghost predicate Settled(rows: seq<Row>, nodes: seq<Tree<Content>>, queue: seq<Block>, current: nat, sid: nat)
    requires |rows| == |nodes| && FIRST_ID <= sid < FIRST_ID + |rows|
  {
    sid == current ||
    Under(rows, nodes, sid) == if Waiting(queue, sid) then [] else nodes[sid - FIRST_ID].contents
  }

  ghost predicate QueueOk(nodes: seq<Tree<Content>>, queue: seq<Block>, current: nat) {
    && (forall q :: 0 <= q < |queue| ==>
          && FIRST_ID <= queue[q].sid < FIRST_ID + |nodes| && queue[q].sid != current
          && nodes[queue[q].sid - FIRST_ID] == queue[q].container)
    && (forall p, q :: 0 <= p < q < |queue| ==> queue[p].sid != queue[q].sid)
  }

  /** Invariant of `SaveItems`; `current` is the container being written, 0 when there is none. */
  ghost predicate Progress(rows: seq<Row>, nodes: seq<Tree<Content>>, queue: seq<Block>, current: nat, enc: Encoder) {
    && Numbered(rows, nodes, enc) && QueueOk(nodes, queue, current)
    && forall sid :: FIRST_ID <= sid < FIRST_ID + |rows| ==> Settled(rows, nodes, queue, current, sid)
  }

  function Enqueue(queue: seq<Block>, node: Tree<Content>, sid: nat, container: bool): seq<Block> {
    if container then queue + [Block(node, sid)] else queue
  }

  lemma WaitingEnqueue(queue: seq<Block>, node: Tree<Content>, sid: nat, container: bool)
    ensures forall s :: Waiting(Enqueue(queue, node, sid, container), s)
                    <==> Waiting(queue, s) || (container && s == sid)
  {
    var queue' := Enqueue(queue, node, sid, container);
    assert container ==> queue'[|queue|].sid == sid;
    assert forall q :: 0 <= q < |queue| ==> queue'[q] == queue[q];
  }

  lemma WriteRow(rows: seq<Row>, nodes: seq<Tree<Content>>, queue: seq<Block>, current: nat,
                 row: Row, node: Tree<Content>, container: bool, enc: Encoder)
    requires Progress(rows, nodes, queue, current, enc) && current < row.sid
    requires row.sid == FIRST_ID + |rows| && row.record == enc(node.item)
    requires row.pid == current || row.pid < FIRST_ID
    requires container || node.contents == []
    ensures Progress(rows + [row], nodes + [node], Enqueue(queue, node, row.sid, container), current, enc)
  {
    var rows', nodes', queue' := rows + [row], nodes + [node], Enqueue(queue, node, row.sid, container);
    WaitingEnqueue(queue, node, row.sid, container);
    forall sid | FIRST_ID <= sid < FIRST_ID + |rows'| ensures Settled(rows', nodes', queue', current, sid) {
      UnderAppend(rows, nodes, row, node);
      if sid == row.sid {
        UnderFresh(rows, nodes, sid);
      } else {
        assert Settled(rows, nodes, queue, current, sid);
      }
    }
  }

  lemma SizeSplit(f: seq<Tree<Content>>, k: nat)
    requires k < |f|
    ensures Size(f[..k + 1]) == Size(f[..k]) + 1 + Size(f[k].contents)
    ensures Size(f[k..]) == 1 + Size(f[k].contents) + Size(f[k + 1..])
  {
    assert f[..k + 1] == f[..k] + [f[k]];
    SizeConcat(f[..k], [f[k]]);
  }

  /** The rows written so far hang the first `k` items at their slots, and `left` nodes are still to come. */
  ghost predicate Saved(itemList: seq<(nat, Tree<Content>)>, k: nat, rows: seq<Row>, nodes: seq<Tree<Content>>,
                        queue: seq<Block>, left: int)
    requires k <= |itemList| && |rows| == |nodes|
  {
    && (forall pid :: 0 <= pid < FIRST_ID ==> Under(rows, nodes, pid) == HungAt(itemList[..k], pid))
    && |rows| + Pending(queue) + left == Size(Roots(itemList)[..k])
  }

  lemma WaitingTail(queue: seq<Block>, sid: nat)
    requires queue != []
    ensures Waiting(queue, sid) <==> sid == queue[0].sid || Waiting(queue[1..], sid)
  {
    assert queue == [queue[0]] + queue[1..];
  }

  lemma QueueTail(nodes: seq<Tree<Content>>, queue: seq<Block>)
    requires queue != [] && QueueOk(nodes, queue, 0)
    ensures QueueOk(nodes, queue[1..], queue[0].sid)
  {}

  lemma Dequeue(rows: seq<Row>, nodes: seq<Tree<Content>>, queue: seq<Block>, enc: Encoder)
    requires queue != [] && Progress(rows, nodes, queue, 0, enc)
    ensures Progress(rows, nodes, queue[1..], queue[0].sid, enc)
    ensures Under(rows, nodes, queue[0].sid) == []
    ensures FIRST_ID <= queue[0].sid < FIRST_ID + |rows| && nodes[queue[0].sid - FIRST_ID] == queue[0].container
  {
    WaitingTail(queue, queue[0].sid);
    assert Settled(rows, nodes, queue, 0, queue[0].sid);
    QueueTail(nodes, queue);
    forall sid | FIRST_ID <= sid < FIRST_ID + |rows| ensures Settled(rows, nodes, queue[1..], queue[0].sid, sid) {
      assert Settled(rows, nodes, queue, 0, sid);
      WaitingTail(queue, sid);
    }
  }

  lemma Drained(itemList: seq<(nat, Tree<Content>)>, rows: seq<Row>, nodes: seq<Tree<Content>>, enc: Encoder)
    requires Progress(rows, nodes, [], 0, enc) && Saved(itemList, |itemList|, rows, nodes, [], 0)
    ensures Flattens(itemList, rows, nodes, enc)
  {
    assert itemList[..|itemList|] == itemList && Roots(itemList)[..|itemList|] == Roots(itemList);
    forall s | FIRST_ID <= s < FIRST_ID + |rows| ensures Under(rows, nodes, s) == nodes[s - FIRST_ID].contents {
      assert Settled(rows, nodes, [], 0, s);
    }
  }

  lemma SaveRoot(itemList: seq<(nat, Tree<Content>)>, k: nat, rows: seq<Row>, nodes: seq<Tree<Content>>,
                 queue: seq<Block>, row: Row, node: Tree<Content>, container: bool)
    requires k < |itemList| && |rows| == |nodes| && Saved(itemList, k, rows, nodes, queue, 0)
    requires (row.pid, node) == itemList[k] && row.pid < FIRST_ID
    requires container || node.contents == []
    ensures Saved(itemList, k + 1, rows + [row], nodes + [node], Enqueue(queue, node, row.sid, container), 0)
  {
    SizeSplit(Roots(itemList), k);
    PendingAppend(queue, Block(node, row.sid));
    UnderAppend(rows, nodes, row, node);
    assert itemList[..k + 1][..k] == itemList[..k];
  }

  lemma SaveChild(itemList: seq<(nat, Tree<Content>)>, rows: seq<Row>, nodes: seq<Tree<Content>>, queue: seq<Block>,
                  row: Row, contents: seq<Tree<Content>>, k: nat, container: bool)
    requires |rows| == |nodes| && k < |contents| && row.pid >= FIRST_ID
    requires Saved(itemList, |itemList|, rows, nodes, queue, Size(contents[k..]))
    requires Under(rows, nodes, row.pid) == contents[..k]
    requires container || contents[k].contents == []
    ensures var queue' := Enqueue(queue, contents[k], row.sid, container);
            Saved(itemList, |itemList|, rows + [row], nodes + [contents[k]], queue', Size(contents[k + 1..]))
    ensures Under(rows + [row], nodes + [contents[k]], row.pid) == contents[..k + 1]
  {
    SizeSplit(contents, k);
    PendingAppend(queue, Block(contents[k], row.sid));
    UnderAppend(rows, nodes, row, contents[k]);
    assert contents[..k + 1] == contents[..k] + [contents[k]];
    var rows', nodes', queue' := rows + [row], nodes + [contents[k]], Enqueue(queue, contents[k], row.sid, container);
    assert Pending(queue') == Pending(queue) + Size(contents[k].contents);
    forall pid: nat | pid < FIRST_ID ensures Under(rows', nodes', pid) == Under(rows, nodes, pid) {
      assert Under(rows, nodes, pid) + [] == Under(rows, nodes, pid);
    }
  }

  /** Everything one turn of the loop over a container's items keeps. */
  lemma ChildWritten(itemList: seq<(nat, Tree<Content>)>, rows: seq<Row>, nodes: seq<Tree<Content>>, queue: seq<Block>,
                     row: Row, contents: seq<Tree<Content>>, k: nat, bag: Content -> bool, ok: Content -> bool, enc: Encoder)
    requires k < |contents| && Typed(contents, bag, ok) && Typed(nodes, bag, ok) && FIRST_ID <= row.pid
    requires Progress(rows, nodes, queue, row.pid, enc) && row.pid < row.sid == FIRST_ID + |rows|
    requires row.record == enc(contents[k].item)
    requires Saved(itemList, |itemList|, rows, nodes, queue, Size(contents[k..]))
    requires Under(rows, nodes, row.pid) == contents[..k]
    ensures var queue' := Enqueue(queue, contents[k], row.sid, bag(contents[k].item));
            && Progress(rows + [row], nodes + [contents[k]], queue', row.pid, enc)
            && Saved(itemList, |itemList|, rows + [row], nodes + [contents[k]], queue', Size(contents[k + 1..]))
    ensures Under(rows + [row], nodes + [contents[k]], row.pid) == contents[..k + 1]
    ensures Typed(nodes + [contents[k]], bag, ok)
  {
    var item := contents[k];
    assert Typed([item], bag, ok);
    WriteRow(rows, nodes, queue, row.pid, row, item, bag(item.item), enc);
    SaveChild(itemList, rows, nodes, queue, row, contents, k, bag(item.item));
    TypedAppend(nodes, item, bag, ok);
  }

  lemma Finish(rows: seq<Row>, nodes: seq<Tree<Content>>, queue: seq<Block>, current: nat, enc: Encoder)
    requires Progress(rows, nodes, queue, current, enc) && FIRST_ID <= current < FIRST_ID + |rows|
    requires Under(rows, nodes, current) == nodes[current - FIRST_ID].contents
    ensures Progress(rows, nodes, queue, 0, enc)
  {
    forall sid | FIRST_ID <= sid < FIRST_ID + |rows| ensures Settled(rows, nodes, queue, 0, sid) {
      assert Settled(rows, nodes, queue, current, sid);
    }
  }

  /** Writes an item down, and tells whether it is a container. */
  method WriteRecord(types: Types, item: Content, ghost bag: Content -> bool, ghost ok: Content -> bool,
                     ghost enc: Encoder)
    returns (record: Record, container: bool)
    requires Writing(types, bag, ok, enc) && ok(item)
    ensures record == enc(item) && container == bag(item)
  {
    var ty := TypeOf(types, item.id);
    assert enc(item) == RecordOf(types, item);
    var stream := new MapSerialize.PropWriteStream();
    MapSerialize.IOMapSerialize.SerializeAttr(stream, ty, item);
    ghost var bytes := MapSerialize.AttrBytes(ty, item.vals, MapSerialize.FIELDS);
    assert [] + bytes == bytes;
    record := Record(item.id, Unsigned(2, SubType(ty, item.vals)), stream.buffer);
    container := ty.container;
  }

  /** The body of the queue loop: writes one row per item of `container`, in order. */
  method SaveContents(container: Tree<Content>, parentId: nat, types: Types, ghost bag: Content -> bool,
                      ghost ok: Content -> bool, ghost enc: Encoder, rows: seq<Row>, queue: seq<Block>,
                      lastId: nat, ghost itemList: seq<(nat, Tree<Content>)>, ghost nodes: seq<Tree<Content>>)
    returns (rows': seq<Row>, queue': seq<Block>, runningId: nat, ghost nodes': seq<Tree<Content>>)
    requires lastId == FIRST_ID - 1 + |rows| && Writing(types, bag, ok, enc)
    requires Progress(rows, nodes, queue, parentId, enc) && Typed(nodes, bag, ok)
    requires FIRST_ID <= parentId < FIRST_ID + |rows| && nodes[parentId - FIRST_ID] == container
    requires Under(rows, nodes, parentId) == []
    requires Saved(itemList, |itemList|, rows, nodes, queue, Size(container.contents))
    ensures Progress(rows', nodes', queue', 0, enc) && Typed(nodes', bag, ok)
    ensures Saved(itemList, |itemList|, rows', nodes', queue', 0)
    ensures |rows'| == |rows| + |container.contents| && runningId == FIRST_ID - 1 + |rows'|
    ensures container.contents == [] ==> queue' == queue
  {
    rows', queue', runningId, nodes' := rows, queue, lastId, nodes;
    for k := 0 to |container.contents|
      invariant runningId == FIRST_ID - 1 + |rows'| && |rows'| == |rows| + k
      invariant k == 0 ==> queue' == queue
      invariant Typed(nodes', bag, ok) && Progress(rows', nodes', queue', parentId, enc)
      invariant nodes'[parentId - FIRST_ID] == container
      invariant Under(rows', nodes', parentId) == container.contents[..k]
      invariant Saved(itemList, |itemList|, rows', nodes', queue', Size(container.contents[k..]))
    {
      runningId := runningId + 1;
      var item := container.contents[k];
      assert Typed(container.contents, bag, ok);
      var record, isContainer := WriteRecord(types, item.item, bag, ok, enc);
      var row := Row(parentId, runningId, record);
      ChildWritten(itemList, rows', nodes', queue', row, container.contents, k, bag, ok, enc);
      queue' := Enqueue(queue', item, runningId, isContainer);
      rows', nodes' := rows' + [row], nodes' + [item];
    }
    assert container.contents[..|container.contents|] == container.contents;
    Finish(rows', nodes', queue', parentId, enc);
  }

  lemma RootWritten(itemList: seq<(nat, Tree<Content>)>, k: nat, rows: seq<Row>, nodes: seq<Tree<Content>>,
                    queue: seq<Block>, row: Row, node: Tree<Content>, container: bool, enc: Encoder)
    requires k < |itemList| && Progress(rows, nodes, queue, 0, enc) && Saved(itemList, k, rows, nodes, queue, 0)
    requires row == Row(itemList[k].0, FIRST_ID + |rows|, enc(node.item)) && node == itemList[k].1 && row.pid < FIRST_ID
    requires container || node.contents == []
    ensures var queue' := Enqueue(queue, node, row.sid, container);
            && Progress(rows + [row], nodes + [node], queue', 0, enc)
            && Saved(itemList, k + 1, rows + [row], nodes + [node], queue', 0)
  {
    WriteRow(rows, nodes, queue, 0, row, node, container, enc);
    SaveRoot(itemList, k, rows, nodes, queue, row, node, container);
  }

  lemma RootTyped(itemList: seq<(nat, Tree<Content>)>, k: nat, bag: Content -> bool, ok: Content -> bool)
    requires k < |itemList| && Typed(Roots(itemList), bag, ok)
    ensures itemList[k].1 == Roots(itemList)[k] && ok(itemList[k].1.item)
    ensures bag(itemList[k].1.item) || itemList[k].1.contents == []
    ensures Roots(itemList)[..k + 1] == Roots(itemList)[..k] + [itemList[k].1]
  {}

  /** The first loop of `SaveItems`: one row per item of the list, containers queued. */
  method SaveRoots(itemList: seq<(nat, Tree<Content>)>, types: Types, ghost bag: Content -> bool,
                      ghost ok: Content -> bool, ghost enc: Encoder)
    returns (rows: seq<Row>, queue: seq<Block>, runningId: nat, ghost nodes: seq<Tree<Content>>)
    requires forall i :: 0 <= i < |itemList| ==> itemList[i].0 < FIRST_ID
    requires Writing(types, bag, ok, enc) && Typed(Roots(itemList), bag, ok)
    ensures runningId == FIRST_ID - 1 + |rows| && Typed(nodes, bag, ok)
    ensures Progress(rows, nodes, queue, 0, enc) && Saved(itemList, |itemList|, rows, nodes, queue, 0)
  {
    rows, nodes := [], [];
    queue := [];
    runningId := FIRST_ID - 1;
    for k := 0 to |itemList|
      invariant runningId == FIRST_ID - 1 + |rows| && nodes == Roots(itemList)[..k]
      invariant Progress(rows, nodes, queue, 0, enc) && Saved(itemList, k, rows, nodes, queue, 0)
    {
      runningId := runningId + 1;
      var item := itemList[k].1;
      RootTyped(itemList, k, bag, ok);
      var record, isContainer := WriteRecord(types, item.item, bag, ok, enc);
      var row := Row(itemList[k].0, runningId, record);
      RootWritten(itemList, k, rows, nodes, queue, row, item, isContainer, enc);
      queue := Enqueue(queue, item, runningId, isContainer);
      rows, nodes := rows + [row], nodes + [item];
    }
  }

  method SaveItems(itemList: seq<(nat, Tree<Content>)>, types: Types, ghost bag: Content -> bool,
                      ghost ok: Content -> bool, ghost enc: Encoder)
    returns (rows: seq<Row>, ghost nodes: seq<Tree<Content>>)
    requires forall i :: 0 <= i < |itemList| ==> itemList[i].0 < FIRST_ID
    requires Writing(types, bag, ok, enc) && Typed(Roots(itemList), bag, ok)
    ensures |rows| == Size(Roots(itemList)) && forall i :: 0 <= i < |rows| ==> rows[i].pid < rows[i].sid == 101 + i
    ensures Flattens(itemList, rows, nodes, enc)
    ensures Typed(nodes, bag, ok)
  {
    var queue: seq<Block>, runningId;
    rows, queue, runningId, nodes := SaveRoots(itemList, types, bag, ok, enc);
    while queue != []
      invariant runningId == FIRST_ID - 1 + |rows| && Typed(nodes, bag, ok)
      invariant Progress(rows, nodes, queue, 0, enc)
      invariant Saved(itemList, |itemList|, rows, nodes, queue, 0)
      decreases Pending(queue), |queue|
    {
      var block := queue[0];
      Dequeue(rows, nodes, queue, enc);
      rows, queue, runningId, nodes :=
        SaveContents(block.container, block.sid, types, bag, ok, enc, rows, queue[1..], runningId, itemList, nodes);
    }
    Drained(itemList, rows, nodes, enc);
  }
}
