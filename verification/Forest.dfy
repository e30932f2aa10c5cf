/**
 Finite trees of nested items, as a value. A container's contents are kept in
 the order of its item list: the front of the list is index 0.
 */
module Forest {

  datatype Tree<+T> = Tree(item: T, contents: seq<Tree<T>>)

  /** The number of nodes of a forest. */
  function Size<T>(f: seq<Tree<T>>): (n: nat)
    ensures n >= |f|
  {
    if f == [] then 0 else 1 + Size(f[0].contents) + Size(f[1..])
  }

  /** How often the tree `t` occurs in a forest, at any depth. */
  ghost function Occurrences<T>(f: seq<Tree<T>>, t: Tree<T>): (n: nat) {
    if f == [] then 0 else
      (if f[0] == t then 1 else 0) + Occurrences(f[0].contents, t) + Occurrences(f[1..], t)
  }

  lemma {:induction false} SizeConcat<T>(f: seq<Tree<T>>, g: seq<Tree<T>>)
    ensures Size(f + g) == Size(f) + Size(g)
  {
    if f == [] {
      assert f + g == g;
    } else {
      SizeConcat(f[1..], g);
      assert (f + g)[1..] == f[1..] + g;
    }
  }

  lemma {:induction false} OccurrencesConcat<T>(f: seq<Tree<T>>, g: seq<Tree<T>>, t: Tree<T>)
    ensures Occurrences(f + g, t) == Occurrences(f, t) + Occurrences(g, t)
  {
    if f == [] {
      assert f + g == g;
    } else {
      OccurrencesConcat(f[1..], g, t);
      assert (f + g)[1..] == f[1..] + g;
    }
  }

  /** How many nodes of a forest hold `x`, at any depth. */
  ghost function Places<T>(f: seq<Tree<T>>, x: T): (n: nat)
    ensures n <= Size(f)
  {
    if f == [] then 0 else (if f[0].item == x then 1 else 0) + Places(f[0].contents, x) + Places(f[1..], x)
  }

  lemma {:induction false} PlacesConcat<T>(f: seq<Tree<T>>, g: seq<Tree<T>>, x: T)
    ensures Places(f + g, x) == Places(f, x) + Places(g, x)
  {
    if f == [] {
      assert f + g == g;
    } else {
      PlacesConcat(f[1..], g, x);
      assert (f + g)[1..] == f[1..] + g;
    }
  }

  /** A forest with every item replaced. */
  function Mapped<T, U>(g: T -> U, f: seq<Tree<T>>): (m: seq<Tree<U>>)
    ensures |m| == |f|
  {
    if f == [] then [] else [Tree(g(f[0].item), Mapped(g, f[0].contents))] + Mapped(g, f[1..])
  }

  lemma {:induction false} MappedAt<T, U>(g: T -> U, f: seq<Tree<T>>, k: nat)
    requires k < |f|
    ensures Mapped(g, f)[k] == Tree(g(f[k].item), Mapped(g, f[k].contents))
  {
    if k > 0 {
      MappedAt(g, f[1..], k - 1);
    }
  }

  lemma {:induction false} MappedConcat<T, U>(g: T -> U, a: seq<Tree<T>>, b: seq<Tree<T>>)
    ensures Mapped(g, a + b) == Mapped(g, a) + Mapped(g, b)
  {
    if a == [] {
      assert a + b == b;
    } else {
      MappedConcat(g, a[1..], b);
      assert (a + b)[1..] == a[1..] + b && (a + b)[0] == a[0];
      var first := [Tree(g(a[0].item), Mapped(g, a[0].contents))];
      assert first + (Mapped(g, a[1..]) + Mapped(g, b)) == first + Mapped(g, a[1..]) + Mapped(g, b);
    }
  }
}
