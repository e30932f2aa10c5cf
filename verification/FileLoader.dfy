/**
 The OTB file format: a tree of typed nodes with escaped property bytes, parsed
 by a loop over an explicit stack of open nodes.
 */
module FileLoader {
  import opened Common
  import opened Forest

  const ESCAPE: Byte := 0xFD
  const START: Byte := 0xFE
  const END: Byte := 0xFF

  const MINIMAL_SIZE := 7

  /** What a file node carries: its type byte and its unescaped property bytes. */
  datatype Content = Content(kind: Byte, props: seq<Byte>)

  /** A parsed node: property bytes are the file range [begin, end), still escaped. */
  datatype Parsed = Parsed(kind: Byte, begin: nat, end: nat, children: seq<Parsed>)

  // ---------------------------------------------------------- the format

  predicate Special(b: Byte) {
    b == ESCAPE || b == START || b == END
  }

  function Escaped(props: seq<Byte>): (e: seq<Byte>) {
    if props == [] then [] else
      (if Special(props[0]) then [ESCAPE, props[0]] else [props[0]]) + Escaped(props[1..])
  }

  function Encode(t: Tree<Content>): (e: seq<Byte>)
    ensures |e| >= 3
    decreases t
  {
    [START, t.item.kind] + (Escaped(t.item.props) + (EncodeAll(t.contents) + [END]))
  }

  function EncodeAll(ts: seq<Tree<Content>>): (e: seq<Byte>)
    decreases ts
  {
    if ts == [] then [] else Encode(ts[0]) + EncodeAll(ts[1..])
  }

  /** A node with a property that has to be escaped, and another node in it, byte by byte. */
  lemma SmallTree()
    ensures Encode(Tree(Content(7, [1, 0xFE]), [Tree(Content(9, []), [])]))
         == [0xFE, 7, 1, 0xFD, 0xFE, 0xFE, 9, 0xFF, 0xFF]
  {
    var props, inner := [1, 0xFE], Tree(Content(9, []), []);
    assert props[1..] == [0xFE] && props[1..][1..] == [];
    assert Escaped(props[1..]) == [0xFD, 0xFE] && Escaped(props) == [1] + Escaped(props[1..]);
    assert Encode(inner) == [0xFE, 9, 0xFF];
    assert [inner][1..] == [] && EncodeAll([inner]) == Encode(inner);
  }

  /** The parse result for `t` when its encoding starts at `p`. */
  ghost function Located(t: Tree<Content>, p: nat): Parsed
    decreases t
  {
    var end := p + 2 + |Escaped(t.item.props)|;
    Parsed(t.item.kind, p + 2, end, LocatedAll(t.contents, end))
  }

  ghost function LocatedAll(ts: seq<Tree<Content>>, p: nat): (l: seq<Parsed>)
    ensures |l| == |ts|
    decreases ts
  {
    if ts == [] then [] else [Located(ts[0], p)] + LocatedAll(ts[1..], p + |Encode(ts[0])|)
  }

  // ------------------------------------------- the parser as a function

  /** A node whose end has not been reached; `end` is meaningful once a child has started. */
  datatype Open = Open(kind: Byte, begin: nat, end: nat, children: seq<Parsed>) {
    function Touch(it: nat): Open {
      if children == [] then this.(end := it) else this
    }

    function Close(it: nat): Parsed {
      var o := Touch(it);
      Parsed(o.kind, o.begin, o.end, o.children)
    }
  }

  function Started(stack: seq<Open>, kind: Byte, it: nat): (s: seq<Open>)
    requires stack != []
  {
    var n := |stack| - 1;
    stack[..n] + [stack[n].Touch(it), Open(kind, it + 2, 0, [])]
  }

  function Ended(stack: seq<Open>, it: nat): (s: seq<Open>)
    requires |stack| > 1
  {
    var n := |stack| - 2;
    stack[..n] + [stack[n].(children := stack[n].children + [stack[n + 1].Close(it)])]
  }

  /** The parse loop from position `it`; `root` is the finished root once the stack is empty. */
  ghost function Scan(file: seq<Byte>, it: nat, stack: seq<Open>, root: Option<Parsed>): (r: Option<Parsed>)
    requires it <= |file|
    decreases |file| - it
  {
    if it == |file| then
      if stack == [] then root else None
    else if file[it] == START then
      if stack == [] || it + 1 == |file| then None
      else Scan(file, it + 2, Started(stack, file[it + 1], it), root)
    else if file[it] == END then
      if stack == [] then None
      else if |stack| == 1 then Scan(file, it + 1, [], Some(stack[0].Close(it)))
      else Scan(file, it + 1, Ended(stack, it), root)
    else if file[it] == ESCAPE then
      if it + 1 == |file| then None else Scan(file, it + 2, stack, root)
    else Scan(file, it + 1, stack, root)
  }

  // ------------------------------------------------ parsing an encoding

  ghost predicate At(file: seq<Byte>, p: nat, s: seq<Byte>) {
    p + |s| <= |file| && file[p..p + |s|] == s
  }

  lemma AtSplit(file: seq<Byte>, p: nat, a: seq<Byte>, b: seq<Byte>)
    requires At(file, p, a + b)
    ensures At(file, p, a) && At(file, p + |a|, b)
  {
    assert file[p..p + |a|] == (a + b)[..|a|];
    assert file[p + |a|..p + |a| + |b|] == (a + b)[|a|..];
  }

  lemma {:induction false} ScanProps(file: seq<Byte>, p: nat, props: seq<Byte>, stack: seq<Open>, root: Option<Parsed>)
    requires At(file, p, Escaped(props))
    ensures Scan(file, p, stack, root) == Scan(file, p + |Escaped(props)|, stack, root)
    decreases props
  {
    if props != [] {
      var first := if Special(props[0]) then [ESCAPE, props[0]] else [props[0]];
      AtSplit(file, p, first, Escaped(props[1..]));
      assert file[p] == first[0];
      ScanProps(file, p + |first|, props[1..], stack, root);
    }
  }

  /** The stack after complete children have been scanned below its top node. */
  ghost function Attached(stack: seq<Open>, p: nat, children: seq<Parsed>): seq<Open>
    requires stack != []
  {
    if children == [] then stack else
      var n := |stack| - 1;
      var top := stack[n].Touch(p);
      stack[..n] + [top.(children := top.children + children)]
  }

  lemma AttachedJoin(stack: seq<Open>, p: nat, q: nat, first: Parsed, more: seq<Parsed>)
    requires stack != []
    ensures Attached(Attached(stack, p, [first]), q, more) == Attached(stack, p, [first] + more)
  {
    var n := |stack| - 1;
    var top := stack[n].Touch(p);
    if more == [] {
      assert [first] + more == [first];
    } else {
      assert top.children + [first] + more == top.children + ([first] + more);
    }
  }

  lemma CloseTop(stack: seq<Open>, kind: Byte, p: nat, q: nat, children: seq<Parsed>, end: nat)
    requires stack != [] && (children == [] ==> end == q)
    ensures Ended(Attached(Started(stack, kind, p), q, children), end)
         == Attached(stack, p, [Parsed(kind, p + 2, q, children)])
  {
    var n := |stack| - 1;
    var closing := Attached(Started(stack, kind, p), q, children);
    assert [] + children == children;
    assert closing[n + 1].Close(end) == Parsed(kind, p + 2, q, children);
    assert closing[n] == stack[n].Touch(p) && closing[..n] == stack[..n];
  }

  lemma TreeBytes(file: seq<Byte>, p: nat, t: Tree<Content>)
    requires At(file, p, Encode(t))
    ensures At(file, p + 2, Escaped(t.item.props))
    ensures var q := p + 2 + |Escaped(t.item.props)|; var end := q + |EncodeAll(t.contents)|;
            && At(file, q, EncodeAll(t.contents))
            && end < |file| && file[p] == START && file[p + 1] == t.item.kind && file[end] == END
            && end + 1 == p + |Encode(t)|
  {
    var props, rest := Escaped(t.item.props), EncodeAll(t.contents);
    AtSplit(file, p, [START, t.item.kind], props + (rest + [END]));
    AtSplit(file, p + 2, props, rest + [END]);
    AtSplit(file, p + 2 + |props|, rest, [END]);
    assert file[p..p + 2] == [file[p], file[p + 1]];
  }

  /** The offsets of the first child and of the end byte of `t` encoded at `p`. */
  ghost function Inner(t: Tree<Content>, p: nat): nat {
    p + 2 + |Escaped(t.item.props)|
  }

  ghost function Last(t: Tree<Content>, p: nat): (end: nat) {
    Inner(t, p) + |EncodeAll(t.contents)|
  }

  /** Scanning the properties and children of a node fills in the open node on top. */
  lemma {:induction false} ScanBody(file: seq<Byte>, p: nat, t: Tree<Content>, stack: seq<Open>, root: Option<Parsed>)
    requires At(file, p, Encode(t)) && stack != []
    ensures Last(t, p) < |file|
    ensures Scan(file, p + 2, stack, root)
         == Scan(file, Last(t, p), Attached(stack, Inner(t, p), LocatedAll(t.contents, Inner(t, p))), root)
    decreases t, 0
  {
    TreeBytes(file, p, t);
    ScanProps(file, p + 2, t.item.props, stack, root);
    ScanAll(file, Inner(t, p), t.contents, stack, root);
  }

  lemma NoneInside(t: Tree<Content>, p: nat)
    ensures LocatedAll(t.contents, Inner(t, p)) == [] ==> Last(t, p) == Inner(t, p)
    ensures Located(t, p) == Parsed(t.item.kind, p + 2, Inner(t, p), LocatedAll(t.contents, Inner(t, p)))
  {}

  /** Scanning on behind the type byte closes the node and hands it to the one below. */
  lemma {:induction false} ScanRest(file: seq<Byte>, p: nat, t: Tree<Content>, stack: seq<Open>, root: Option<Parsed>)
    requires At(file, p, Encode(t)) && stack != []
    ensures Scan(file, p + 2, Started(stack, t.item.kind, p), root)
         == Scan(file, Last(t, p) + 1, Attached(stack, p, [Located(t, p)]), root)
    decreases t, 1
  {
    ScanBody(file, p, t, Started(stack, t.item.kind, p), root);
    TreeBytes(file, p, t);
    NoneInside(t, p);
    ScanClose(file, t.item.kind, p, Inner(t, p), LocatedAll(t.contents, Inner(t, p)), Last(t, p), stack, root);
  }

  /** Scanning the encoding of a child attaches exactly that child to the open node. */
  lemma {:induction false} ScanTree(file: seq<Byte>, p: nat, t: Tree<Content>, stack: seq<Open>, root: Option<Parsed>)
    requires At(file, p, Encode(t)) && stack != []
    ensures Scan(file, p, stack, root) == Scan(file, p + |Encode(t)|, Attached(stack, p, [Located(t, p)]), root)
    decreases t, 2
  {
    TreeBytes(file, p, t);
    ScanStart(file, p, stack, root);
    ScanRest(file, p, t, stack, root);
  }

  lemma ScanStart(file: seq<Byte>, p: nat, stack: seq<Open>, root: Option<Parsed>)
    requires p + 1 < |file| && file[p] == START && stack != []
    ensures Scan(file, p, stack, root) == Scan(file, p + 2, Started(stack, file[p + 1], p), root)
  {}

  /** The end byte closes the node that was opened at `p`. */
  lemma ScanClose(file: seq<Byte>, kind: Byte, p: nat, q: nat, children: seq<Parsed>, end: nat, stack: seq<Open>,
          root: Option<Parsed>)
    requires end < |file| && file[end] == END && stack != [] && (children == [] ==> end == q)
    ensures Scan(file, end, Attached(Started(stack, kind, p), q, children), root)
         == Scan(file, end + 1, Attached(stack, p, [Parsed(kind, p + 2, q, children)]), root)
  {
    CloseTop(stack, kind, p, q, children, end);
    ScanEnd(file, end, Attached(Started(stack, kind, p), q, children), root);
  }

  lemma ScanEnd(file: seq<Byte>, it: nat, stack: seq<Open>, root: Option<Parsed>)
    requires it < |file| && file[it] == END && |stack| > 1
    ensures Scan(file, it, stack, root) == Scan(file, it + 1, Ended(stack, it), root)
  {}

  lemma {:induction false} ScanAll(file: seq<Byte>, p: nat, ts: seq<Tree<Content>>, stack: seq<Open>,
          root: Option<Parsed>)
    requires At(file, p, EncodeAll(ts)) && stack != []
    ensures Scan(file, p, stack, root) == Scan(file, p + |EncodeAll(ts)|, Attached(stack, p, LocatedAll(ts, p)), root)
    decreases ts, 3
  {
    if ts != [] {
      var e := Encode(ts[0]);
      AtSplit(file, p, e, EncodeAll(ts[1..]));
      ScanTree(file, p, ts[0], stack, root);
      ScanAll(file, p + |e|, ts[1..], Attached(stack, p, [Located(ts[0], p)]), root);
      AttachedJoin(stack, p, p + |e|, Located(ts[0], p), LocatedAll(ts[1..], p + |e|));
    }
  }

  // ------------------------------------------------- what is accepted

  /** Every start and end byte outside an escape or a type byte is matched, from `depth` open nodes. */
  ghost predicate Balanced(file: seq<Byte>, it: nat, depth: nat)
    requires it <= |file|
    decreases |file| - it
  {
    if it == |file| then depth == 0
    else if file[it] == START then depth > 0 && it + 1 < |file| && Balanced(file, it + 2, depth + 1)
    else if file[it] == END then depth > 0 && Balanced(file, it + 1, depth - 1)
    else if file[it] == ESCAPE then it + 1 < |file| && Balanced(file, it + 2, depth)
    else Balanced(file, it + 1, depth)
  }

  lemma {:induction false} AcceptsBalanced(file: seq<Byte>, it: nat, stack: seq<Open>, root: Option<Parsed>)
    requires it <= |file| && (stack == [] ==> root.Some?)
    ensures Scan(file, it, stack, root).Some? <==> Balanced(file, it, |stack|)
    decreases |file| - it
  {
    if it < |file| {
      if file[it] == START {
        if stack != [] && it + 1 < |file| {
          AcceptsBalanced(file, it + 2, Started(stack, file[it + 1], it), root);
        }
      } else if file[it] == END {
        if |stack| == 1 {
          AcceptsBalanced(file, it + 1, [], Some(stack[0].Close(it)));
        } else if |stack| > 1 {
          AcceptsBalanced(file, it + 1, Ended(stack, it), root);
        }
      } else if file[it] == ESCAPE {
        if it + 1 < |file| {
          AcceptsBalanced(file, it + 2, stack, root);
        }
      } else {
        AcceptsBalanced(file, it + 1, stack, root);
      }
    }
  }

  // --------------------------------------------------- property ranges

  /** The node's property range, and those of all nodes below it, lie in [lo, hi) in nesting order. */
  ghost predicate Ranged(n: Parsed, lo: nat, hi: nat)
    decreases n
  {
    lo <= n.begin <= n.end <= hi && forall k :: 0 <= k < |n.children| ==> Ranged(n.children[k], n.end, hi)
  }

  lemma {:induction false} RangedWiden(n: Parsed, lo: nat, hi: nat, hi': nat)
    requires Ranged(n, lo, hi) && hi <= hi'
    ensures Ranged(n, lo, hi')
    decreases n
  {
    forall k | 0 <= k < |n.children| ensures Ranged(n.children[k], n.end, hi') {
      RangedWiden(n.children[k], n.end, hi, hi');
    }
  }

  ghost predicate OpenRanged(o: Open, top: bool, lo: nat, it: nat) {
    && lo <= o.begin <= it
    && ((top && o.children == []) || o.begin <= o.end <= it)
    && forall k :: 0 <= k < |o.children| ==> Ranged(o.children[k], o.end, it)
  }

  /** No open node starts before the end of the properties of the one below it on the stack. */
  ghost function Floor(stack: seq<Open>, i: nat): nat
    requires i < |stack|
  {
    if i == 0 then 0 else stack[i - 1].end
  }

  ghost predicate RangedAt(stack: seq<Open>, i: nat, it: nat)
    requires i < |stack|
  {
    OpenRanged(stack[i], i == |stack| - 1, Floor(stack, i), it)
  }

  ghost predicate StackRanged(stack: seq<Open>, it: nat) {
    forall i :: 0 <= i < |stack| ==> RangedAt(stack, i, it)
  }

  lemma OpenWiden(o: Open, top: bool, lo: nat, it: nat, it': nat)
    requires OpenRanged(o, top, lo, it) && it <= it'
    ensures OpenRanged(o, top, lo, it')
  {
    forall k | 0 <= k < |o.children| ensures Ranged(o.children[k], o.end, it') {
      RangedWiden(o.children[k], o.end, it, it');
    }
  }

  lemma StackWiden(stack: seq<Open>, it: nat, it': nat)
    requires StackRanged(stack, it) && it <= it'
    ensures StackRanged(stack, it')
  {
    forall i | 0 <= i < |stack| ensures RangedAt(stack, i, it') {
      assert RangedAt(stack, i, it);
      OpenWiden(stack[i], i == |stack| - 1, Floor(stack, i), it, it');
    }
  }

  lemma CloseRanged(o: Open, lo: nat, it: nat)
    requires OpenRanged(o, true, lo, it)
    ensures Ranged(o.Close(it), lo, it) && OpenRanged(o.Touch(it), false, lo, it)
  {}

  lemma StartedRanged(stack: seq<Open>, kind: Byte, it: nat)
    requires stack != [] && StackRanged(stack, it)
    ensures StackRanged(Started(stack, kind, it), it + 2)
  {
    var n, s := |stack| - 1, Started(stack, kind, it);
    assert RangedAt(stack, n, it);
    CloseRanged(stack[n], Floor(stack, n), it);
    var next := it + 2;
    forall i | 0 <= i < |s| ensures RangedAt(s, i, next) {
      if i <= n {
        assert RangedAt(stack, i, it) && Floor(s, i) == Floor(stack, i);
        OpenWiden(s[i], false, Floor(s, i), it, next);
      }
    }
  }

  lemma EndedRanged(stack: seq<Open>, it: nat)
    requires |stack| > 1 && StackRanged(stack, it)
    ensures StackRanged(Ended(stack, it), it + 1)
  {
    var n, s := |stack| - 2, Ended(stack, it);
    assert RangedAt(stack, n + 1, it) && RangedAt(stack, n, it);
    CloseRanged(stack[n + 1], stack[n].end, it);
    forall i | 0 <= i < |s| ensures RangedAt(s, i, it) {
      assert RangedAt(stack, i, it) && Floor(s, i) == Floor(stack, i);
    }
    StackWiden(s, it, it + 1);
  }

  lemma {:induction false} ScanRanged(file: seq<Byte>, it: nat, stack: seq<Open>, root: Option<Parsed>)
    requires it <= |file| && StackRanged(stack, it)
    requires root.Some? ==> Ranged(root.value, 0, |file|)
    ensures var r := Scan(file, it, stack, root); r.Some? ==> Ranged(r.value, 0, |file|)
    decreases |file| - it
  {
    if it < |file| {
      if file[it] == START {
        if stack != [] && it + 1 < |file| {
          StartedRanged(stack, file[it + 1], it);
          ScanRanged(file, it + 2, Started(stack, file[it + 1], it), root);
        }
      } else if file[it] == END {
        if |stack| == 1 {
          assert RangedAt(stack, 0, it);
          CloseRanged(stack[0], 0, it);
          RangedWiden(stack[0].Close(it), 0, it, |file|);
          ScanRanged(file, it + 1, [], Some(stack[0].Close(it)));
        } else if |stack| > 1 {
          EndedRanged(stack, it);
          ScanRanged(file, it + 1, Ended(stack, it), root);
        }
      } else {
        var next := if file[it] == ESCAPE then it + 2 else it + 1;
        if next <= |file| {
          StackWiden(stack, it, next);
          ScanRanged(file, next, stack, root);
        }
      }
    }
  }

  // --------------------------------------------------- the parser itself

  class Node {
    var kind: Byte
    var propsBegin: nat
    var propsEnd: nat
    var children: seq<Node>

    constructor (kind: Byte, propsBegin: nat)
      ensures this.kind == kind && this.propsBegin == propsBegin && children == []
    {
      this.kind, this.propsBegin, propsEnd, children := kind, propsBegin, 0, [];
    }
  }

  /** The finished node `n`, with everything below it, is `v`. */
  ghost predicate Rep(n: Node, v: Parsed, finished: set<Node>)
    reads finished
    decreases v
  {
    && n in finished && n.kind == v.kind && n.propsBegin == v.begin && n.propsEnd == v.end
    && |n.children| == |v.children|
    && forall k :: 0 <= k < |v.children| ==> Rep(n.children[k], v.children[k], finished)
  }

  ghost predicate RepAll(ns: seq<Node>, vs: seq<Parsed>, finished: set<Node>)
    reads finished
  {
    |ns| == |vs| && forall k :: 0 <= k < |vs| ==> Rep(ns[k], vs[k], finished)
  }

  lemma {:induction false} RepMore(n: Node, v: Parsed, finished: set<Node>, finished': set<Node>)
    requires Rep(n, v, finished) && finished <= finished'
    ensures Rep(n, v, finished')
    decreases v
  {
    forall k | 0 <= k < |v.children| ensures Rep(n.children[k], v.children[k], finished') {
      RepMore(n.children[k], v.children[k], finished, finished');
    }
  }

  /** The open node `n`: its finished children are those of `o`; the open one, if any, is its last. */
  ghost predicate RepOpen(n: Node, o: Open, child: Node?, finished: set<Node>)
    reads n, finished
  {
    && n.kind == o.kind && n.propsBegin == o.begin
    && (o.children != [] || child != null ==> n.propsEnd == o.end)
    && if child == null then RepAll(n.children, o.children, finished) else
         && n.children != [] && n.children[|n.children| - 1] == child
         && RepAll(n.children[..|n.children| - 1], o.children, finished)
  }

  ghost function Below(stack: seq<Node>, i: nat): Node? {
    if i + 1 < |stack| then stack[i + 1] else null
  }

  ghost predicate Apart(stack: seq<Node>, finished: set<Node>) {
    && (forall i, j :: 0 <= i < j < |stack| ==> stack[i] != stack[j])
    && forall i :: 0 <= i < |stack| ==> stack[i] !in finished
  }

  /** The parse stack is a chain of last children, and stands for `opens`. */
  ghost predicate Chain(stack: seq<Node>, opens: seq<Open>, finished: set<Node>)
    reads stack, finished
  {
    && |stack| == |opens| && Apart(stack, finished)
    && forall i :: 0 <= i < |stack| ==> RepOpen(stack[i], opens[i], Below(stack, i), finished)
  }

  method AddChild(current: Node, child: Node, it: nat, ghost o: Open, ghost finished: set<Node>)
    requires current !in finished && RepOpen(current, o, null, finished)
    modifies current
    ensures RepOpen(current, o.Touch(it), child, finished)
  {
    if current.children == [] {
      current.propsEnd := it;
    }
    ghost var before := current.children;
    current.children := current.children + [child];
    assert current.children[..|current.children| - 1] == before;
    assert RepAll(before, o.children, finished);
  }

  method StartNode(stack: seq<Node>, kind: Byte, it: nat, ghost opens: seq<Open>, ghost finished: set<Node>)
    returns (stack': seq<Node>)
    requires stack != [] && Chain(stack, opens, finished)
    modifies stack[|stack| - 1]
    ensures Chain(stack', Started(opens, kind, it), finished)
    ensures |stack'| == |stack| + 1 && stack'[..|stack|] == stack && fresh(stack'[|stack|])
  {
    var child := new Node(kind, it + 2);
    stack' := Push(stack, child, it, opens, finished);
  }

  /** Hangs a new node below the top of the stack and puts it on the stack. */
  method Push(stack: seq<Node>, child: Node, it: nat, ghost opens: seq<Open>, ghost finished: set<Node>)
    returns (stack': seq<Node>)
    requires stack != [] && Chain(stack, opens, finished)
    requires child !in stack && child !in finished && child.propsBegin == it + 2 && child.children == []
    modifies stack[|stack| - 1]
    ensures stack' == stack + [child] && Chain(stack', Started(opens, child.kind, it), finished)
  {
    var n := |stack| - 1;
    var current := stack[n];
    stack' := stack + [child];
    ghost var opens' := Started(opens, child.kind, it);
    StartedAt(stack, child, opens, it);
    assert RepOpen(current, opens[n], Below(stack, n), finished);
    AddChild(current, child, it, opens[n], finished);
    forall i | 0 <= i < n ensures RepOpen(stack[i], opens[i], Below(stack, i), finished) {
      assert old(RepOpen(stack[i], opens[i], Below(stack, i), finished));
    }
    assert RepOpen(child, opens'[n + 1], null, finished);
  }

  lemma StartedAt(stack: seq<Node>, child: Node, opens: seq<Open>, it: nat)
    requires stack != [] && |stack| == |opens|
    ensures var n := |stack| - 1;
            var opens' := Started(opens, child.kind, it);
            && |opens'| == n + 2 && opens'[n] == opens[n].Touch(it) && opens'[n + 1] == Open(child.kind, it + 2, 0, [])
            && (forall i :: 0 <= i < n ==> opens'[i] == opens[i] && Below(stack + [child], i) == Below(stack, i))
            && Below(stack + [child], n) == child && Below(stack + [child], n + 1) == null
  {}

  lemma RepAllMore(ns: seq<Node>, vs: seq<Parsed>, finished: set<Node>, finished': set<Node>)
    requires RepAll(ns, vs, finished) && finished <= finished'
    ensures RepAll(ns, vs, finished')
  {
    forall k | 0 <= k < |vs| ensures Rep(ns[k], vs[k], finished') {
      RepMore(ns[k], vs[k], finished, finished');
    }
  }

  method CloseNode(current: Node, it: nat, ghost o: Open, ghost finished: set<Node>)
    requires current !in finished && RepOpen(current, o, null, finished)
    modifies current
    ensures Rep(current, o.Close(it), finished + {current})
  {
    if current.children == [] {
      current.propsEnd := it;
    }
    assert RepAll(current.children, o.children, finished);
    RepAllMore(current.children, o.children, finished, finished + {current});
  }

  /** A finished child joins the children of its parent. */
  lemma Adopt(parent: Node, o: Open, child: Node, v: Parsed, finished: set<Node>)
    requires RepOpen(parent, o, child, finished) && Rep(child, v, finished + {child})
    ensures RepOpen(parent, o.(children := o.children + [v]), null, finished + {child})
  {
    var n := |parent.children| - 1;
    RepAllMore(parent.children[..n], o.children, finished, finished + {child});
    forall k | 0 <= k <= n ensures Rep(parent.children[k], (o.children + [v])[k], finished + {child}) {
      if k < n {
        assert parent.children[k] == parent.children[..n][k];
      }
    }
  }

  lemma RepOpenMore(n: Node, o: Open, child: Node?, finished: set<Node>, finished': set<Node>)
    requires RepOpen(n, o, child, finished) && finished <= finished'
    ensures RepOpen(n, o, child, finished')
  {
    RepAllMore(if child == null then n.children else n.children[..|n.children| - 1], o.children, finished, finished');
  }

  method EndNode(stack: seq<Node>, it: nat, ghost opens: seq<Open>, ghost finished: set<Node>)
    returns (stack': seq<Node>)
    requires |stack| > 1 && Chain(stack, opens, finished)
    modifies stack[|stack| - 1]
    ensures stack' == stack[..|stack| - 1]
    ensures Chain(stack', Ended(opens, it), finished + {stack[|stack| - 1]})
  {
    var n := |stack| - 1;
    var current := stack[n];
    assert RepOpen(current, opens[n], Below(stack, n), finished);
    CloseNode(current, it, opens[n], finished);
    stack' := stack[..n];
    ghost var finished' := finished + {current};
    forall i | 0 <= i < n ensures RepOpen(stack'[i], Ended(opens, it)[i], Below(stack', i), finished') {
      assert old(RepOpen(stack[i], opens[i], Below(stack, i), finished));
      if i < n - 1 {
        RepOpenMore(stack[i], opens[i], stack[i + 1], finished, finished');
      } else {
        Adopt(stack[i], opens[i], current, opens[n].Close(it), finished);
      }
    }
  }

  ghost function Parse(file: seq<Byte>): Option<Parsed>
    requires |file| > MINIMAL_SIZE
  {
    if file[4] != START then None else Scan(file, 6, [Open(file[5], 6, 0, [])], None)
  }

  /** The stack stands for the open nodes; once it is empty the root is finished. */
  ghost predicate Parsing(node: Node, stack: seq<Node>, opens: seq<Open>, closed: Option<Parsed>, finished: set<Node>)
    reads stack, finished
  {
    && Chain(stack, opens, finished)
    && if stack == [] then closed.Some? && Rep(node, closed.value, finished) else stack[0] == node && closed == None
  }

  /** A start byte opens a node below the one on top of the stack. */
  method StartAny(node: Node, stack: seq<Node>, kind: Byte, it: nat, ghost opens: seq<Open>, ghost finished: set<Node>)
    returns (stack': seq<Node>)
    requires stack != [] && Parsing(node, stack, opens, None, finished)
    modifies stack[|stack| - 1]
    ensures |stack'| == |stack| + 1 && stack'[..|stack|] == stack && fresh(stack'[|stack|])
    ensures Parsing(node, stack', Started(opens, kind, it), None, finished)
  {
    stack' := StartNode(stack, kind, it, opens, finished);
    assert stack'[0] == stack'[..|stack|][0];
  }

  /** An end byte closes the node on top of the stack, be it the root or not. */
  method EndAny(node: Node, stack: seq<Node>, it: nat, ghost opens: seq<Open>, ghost closed: Option<Parsed>,
          ghost finished: set<Node>)
    returns (stack': seq<Node>, ghost opens': seq<Open>, ghost closed': Option<Parsed>, ghost finished': set<Node>)
    requires stack != [] && Parsing(node, stack, opens, closed, finished)
    modifies stack[|stack| - 1]
    ensures stack' == stack[..|stack| - 1] && finished' == finished + {stack[|stack| - 1]}
    ensures Parsing(node, stack', opens', closed', finished')
    ensures |stack| == 1 ==> opens' == [] && closed' == Some(opens[0].Close(it))
    ensures |stack| > 1 ==> opens' == Ended(opens, it) && closed' == closed
  {
    finished' := finished + {stack[|stack| - 1]};
    if |stack| == 1 {
      assert RepOpen(node, opens[0], Below(stack, 0), finished);
      CloseNode(node, it, opens[0], finished);
      opens', closed', stack' := [], Some(opens[0].Close(it)), [];
    } else {
      stack' := EndNode(stack, it, opens, finished);
      opens', closed' := Ended(opens, it), closed;
    }
  }

  function Top(stack: seq<Node>): set<Node> {
    if stack == [] then {} else {stack[|stack| - 1]}
  }

  /** Deals with the byte at `it`; not ok stands for the format exception. */
  method Step(file: seq<Byte>, node: Node, stack: seq<Node>, it: nat, ghost opens: seq<Open>, ghost closed: Option<Parsed>,
              ghost finished: set<Node>)
    returns (ok: bool, stack': seq<Node>, it': nat, ghost opens': seq<Open>, ghost closed': Option<Parsed>,
             ghost finished': set<Node>)
    requires it < |file| && Parsing(node, stack, opens, closed, finished)
    modifies Top(stack)
    ensures ok ==> it < it' <= |file| && Parsing(node, stack', opens', closed', finished')
    ensures Scan(file, it, opens, closed) == if ok then Scan(file, it', opens', closed') else None
    ensures finished' <= finished + Top(stack)
    ensures forall i :: 0 <= i < |stack'| ==> if i < |stack| then stack'[i] == stack[i] else fresh(stack'[i])
  {
    ok, stack', it', opens', closed', finished' := true, stack, it + 1, opens, closed, finished;
    if file[it] == START {
      if stack == [] || it + 1 == |file| {
        ok := false;
        return;
      }
      stack' := StartAny(node, stack, file[it + 1], it, opens, finished);
      opens', it' := Started(opens, file[it + 1], it), it + 2;
    } else if file[it] == END {
      if stack == [] {
        ok := false;
        return;
      }
      stack', opens', closed', finished' := EndAny(node, stack, it, opens, closed, finished);
    } else if file[it] == ESCAPE {
      if it + 1 == |file| {
        ok := false;
        return;
      }
      it' := it + 2;
    }
  }

  /** Parses the tree after the four identifier bytes; null stands for the format exception. */
  method ParseTree(file: seq<Byte>) returns (root: Node?, ghost finished: set<Node>)
    requires |file| > MINIMAL_SIZE
    ensures root == null <==> Parse(file) == None
    ensures root != null ==> Rep(root, Parse(file).value, finished) && fresh(finished)
  {
    finished := {};
    if file[4] != START {
      return null, {};
    }
    var node := new Node(file[5], 6);
    var stack := [node];
    var it := 6;
    ghost var opens, closed := [Open(file[5], 6, 0, [])], None;
    while it < |file|
      invariant 6 <= it <= |file|
      invariant fresh(finished) && (forall i :: 0 <= i < |stack| ==> fresh(stack[i]))
      invariant Parsing(node, stack, opens, closed, finished)
      invariant Parse(file) == Scan(file, it, opens, closed)
    {
      var ok;
      ok, stack, it, opens, closed, finished := Step(file, node, stack, it, opens, closed, finished);
      if !ok {
        return null, {};
      }
    }
    root := if stack == [] then node else null;
  }

  // ------------------------------------------------ reading properties

  /** Drops each escape byte that does not itself follow one. */
  function Unescaped(bytes: seq<Byte>, lastEscaped: bool): (u: seq<Byte>) {
    if bytes == [] then [] else
      var escaped := bytes[0] == ESCAPE && !lastEscaped;
      (if escaped then [] else [bytes[0]]) + Unescaped(bytes[1..], escaped)
  }

  lemma {:induction false} UnescapedEscaped(props: seq<Byte>)
    ensures Unescaped(Escaped(props), false) == props
  {
    if props != [] {
      UnescapedEscaped(props[1..]);
      var first, rest := props[0], Escaped(props[1..]);
      UnescapedOne(first, rest);
      assert [first] + props[1..] == props;
    }
  }

  /** A byte that was escaped if it had to be comes back as itself. */
  lemma UnescapedOne(first: Byte, rest: seq<Byte>)
    ensures Unescaped((if Special(first) then [ESCAPE, first] else [first]) + rest, false) == [first] + Unescaped(rest, false)
  {
    if Special(first) {
      UnescapedHead(first, rest, true);
      UnescapedHead(ESCAPE, [first] + rest, false);
      assert [ESCAPE, first] + rest == [ESCAPE] + ([first] + rest);
      assert [] + Unescaped([first] + rest, true) == Unescaped([first] + rest, true);
    } else {
      UnescapedHead(first, rest, false);
    }
  }

  lemma UnescapedHead(b: Byte, rest: seq<Byte>, lastEscaped: bool)
    ensures var escaped := b == ESCAPE && !lastEscaped;
            Unescaped([b] + rest, lastEscaped) == (if escaped then [] else [b]) + Unescaped(rest, escaped)
  {
    assert ([b] + rest)[1..] == rest;
  }

  lemma UnescapedStep(buffer: seq<Byte>, file: seq<Byte>, i: nat, end: nat, lastEscaped: bool)
    requires i < end <= |file|
    ensures var escaped := file[i] == ESCAPE && !lastEscaped;
            (buffer + Unescaped(file[i..end], lastEscaped)
             == (if escaped then buffer else buffer + [file[i]]) + Unescaped(file[i + 1..end], escaped))
  {
    assert file[i..end] == [file[i]] + file[i + 1..end];
    UnescapedHead(file[i], file[i + 1..end], lastEscaped);
    var rest := Unescaped(file[i + 1..end], file[i] == ESCAPE && !lastEscaped);
    assert buffer + ([file[i]] + rest) == (buffer + [file[i]]) + rest;
    assert [] + rest == rest;
  }

  /** Fills the property buffer from the range of a node; nothing to read is reported as None. */
  method GetProps(file: seq<Byte>, begin: nat, end: nat) returns (props: Option<seq<Byte>>)
    requires begin <= end <= |file|
    ensures props == if begin == end then None else Some(Unescaped(file[begin..end], false))
  {
    if begin == end {
      return None;
    }
    var propBuffer: seq<Byte> := [];
    var lastEscaped := false;
    for i := begin to end
      invariant propBuffer + Unescaped(file[i..end], lastEscaped) == Unescaped(file[begin..end], false)
    {
      UnescapedStep(propBuffer, file, i, end, lastEscaped);
      lastEscaped := file[i] == ESCAPE && !lastEscaped;
      if !lastEscaped {
        propBuffer := propBuffer + [file[i]];
      }
    }
    assert propBuffer + [] == propBuffer;
    props := Some(propBuffer);
  }

  // ------------------------------------------------------- round trip

  /** The loader's constructor takes the file: it is long enough and carries the identifier or the wildcard. */
  predicate Opens(file: seq<Byte>, acceptedIdentifier: seq<Byte>) {
    |file| > MINIMAL_SIZE && (file[..4] == acceptedIdentifier || file[..4] == [0, 0, 0, 0])
  }

  /** The parsed node `v` of `file` has the type, properties and children of `t`. */
  ghost predicate Reads(file: seq<Byte>, v: Parsed, t: Tree<Content>)
    decreases t
  {
    && v.begin <= v.end <= |file| && v.kind == t.item.kind
    && Unescaped(file[v.begin..v.end], false) == t.item.props
    && (v.begin == v.end <==> t.item.props == [])
    && |v.children| == |t.contents|
    && forall k :: 0 <= k < |t.contents| ==> Reads(file, v.children[k], t.contents[k])
  }

  lemma {:induction false} LocatedReads(file: seq<Byte>, p: nat, t: Tree<Content>)
    requires At(file, p, Encode(t))
    ensures Reads(file, Located(t, p), t)
    decreases t, 0
  {
    PropsRead(file, p, t);
    LocatedReadsAll(file, Inner(t, p), t.contents);
  }

  /** The range of a located node is that of its escaped properties, and its children follow. */
  lemma PropsRead(file: seq<Byte>, p: nat, t: Tree<Content>)
    requires At(file, p, Encode(t))
    ensures var v := Located(t, p);
            && v.begin <= v.end == Inner(t, p) <= |file| && Unescaped(file[v.begin..v.end], false) == t.item.props
            && (v.begin == v.end <==> t.item.props == []) && v.children == LocatedAll(t.contents, v.end)
    ensures At(file, Inner(t, p), EncodeAll(t.contents))
  {
    TreeBytes(file, p, t);
    UnescapedEscaped(t.item.props);
  }

  lemma {:induction false} LocatedReadsAll(file: seq<Byte>, p: nat, ts: seq<Tree<Content>>)
    requires At(file, p, EncodeAll(ts))
    ensures forall k :: 0 <= k < |ts| ==> Reads(file, LocatedAll(ts, p)[k], ts[k])
    decreases ts, 1
  {
    if ts != [] {
      AtSplit(file, p, Encode(ts[0]), EncodeAll(ts[1..]));
      LocatedReads(file, p, ts[0]);
      LocatedReadsAll(file, p + |Encode(ts[0])|, ts[1..]);
      var rest := LocatedAll(ts[1..], p + |Encode(ts[0])|);
      assert LocatedAll(ts, p) == [Located(ts[0], p)] + rest;
      forall k | 0 <= k < |ts| ensures Reads(file, ([Located(ts[0], p)] + rest)[k], ts[k]) {
        if k > 0 {
          assert Reads(file, rest[k - 1], ts[1..][k - 1]);
        }
      }
    }
  }

  /**
   A file made of an identifier and an encoded tree opens iff the identifier is
   accepted and the root is not completely empty; it then parses to that tree.
   */
  lemma RoundTrip(identifier: seq<Byte>, acceptedIdentifier: seq<Byte>, t: Tree<Content>)
    requires |identifier| == 4
    ensures var file := identifier + Encode(t);
            && (Opens(file, acceptedIdentifier) <==>
                  (identifier == acceptedIdentifier || identifier == [0, 0, 0, 0])
                  && (t.item.props != [] || t.contents != []))
            && (Opens(file, acceptedIdentifier) ==>
                  Parse(file).Some? && Reads(file, Parse(file).value, t))
  {
    var file := identifier + Encode(t);
    assert file[4..4 + |Encode(t)|] == Encode(t) && file[..4] == identifier;
    EncodedSize(t);
    if |file| > MINIMAL_SIZE {
      ParseEncoded(file, t);
      LocatedReads(file, 4, t);
    }
  }

  lemma ParseEncoded(file: seq<Byte>, t: Tree<Content>)
    requires |file| > MINIMAL_SIZE && At(file, 4, Encode(t)) && |file| == 4 + |Encode(t)|
    ensures Parse(file) == Some(Located(t, 4))
  {
    var start := [Open(t.item.kind, 6, 0, [])];
    var children := LocatedAll(t.contents, Inner(t, 4));
    TreeBytes(file, 4, t);
    ScanBody(file, 4, t, start, None);
    assert [] + children == children;
    ScanLast(file, Last(t, 4), Attached(start, Inner(t, 4), children));
  }

  lemma ScanLast(file: seq<Byte>, it: nat, stack: seq<Open>)
    requires it + 1 == |file| && file[it] == END && |stack| == 1
    ensures Scan(file, it, stack, None) == Some(stack[0].Close(it))
  {}

  lemma EncodedSize(t: Tree<Content>)
    ensures |Encode(t)| == 3 <==> t.item.props == [] && t.contents == []
  {}

  /** Whatever the file, an accepted tree has nested property ranges inside it, and acceptance is balance. */
  lemma ParseSafe(file: seq<Byte>)
    requires |file| > MINIMAL_SIZE
    ensures Parse(file).Some? ==> Ranged(Parse(file).value, 0, |file|)
    ensures Parse(file).Some? <==> file[4] == START && Balanced(file, 6, 1)
  {
    if file[4] == START {
      var start := [Open(file[5], 6, 0, [])];
      assert RangedAt(start, 0, 6);
      ScanRanged(file, 6, start, None);
      AcceptsBalanced(file, 6, start, None);
    }
  }
}
