/** An item's attributes: a list of values beside a mask of the types it has. */
module ItemAttributes {
  /** A type of attribute, as its bit in the mask. */
  datatype Type = Type(bit: bv32)

  const NONE := Type(0)
  const INT_TYPES: bv32 := 0x7FFE13
  const STR_TYPES: bv32 := 0x1EC

  datatype Value = Int(integer: int) | Str(text: string)

  datatype Attribute = Attribute(kind: Type, value: Value)

  predicate IsIntAttrType(t: Type) {
    t.bit & INT_TYPES != 0
  }

  predicate IsStrAttrType(t: Type) {
    t.bit & STR_TYPES != 0
  }

  predicate SingleBit(t: bv32) {
    t != 0 && t & (t - 1) == 0
  }

  /** Every type but `NONE` is a single bit. */
  predicate Single(t: Type) {
    SingleBit(t.bit)
  }

  predicate In(t: Type, bits: bv32) {
    t.bit & bits != 0
  }

  lemma BitsMeet(t: bv32, u: bv32)
    requires SingleBit(t) && SingleBit(u)
    ensures t & u != 0 <==> t == u
  {}

  lemma BitSet(bits: bv32, t: Type, u: Type)
    requires Single(t) && Single(u)
    ensures In(u, bits | t.bit) <==> In(u, bits) || u == t
  {
    assert u.bit & (bits | t.bit) == (u.bit & bits) | (u.bit & t.bit);
    BitsMeet(u.bit, t.bit);
  }

  lemma BitCleared(bits: bv32, cleared: bv32, t: Type, u: Type)
    requires Single(t) && Single(u) && cleared == bits & !t.bit
    ensures In(u, cleared) <==> In(u, bits) && u != t
  {
    ClearedBit(bits, t.bit, u.bit);
  }

  lemma ClearedBit(bits: bv32, t: bv32, u: bv32)
    requires SingleBit(t) && SingleBit(u)
    ensures u & (bits & !t) != 0 <==> u & bits != 0 && u != t
  {
    BitsMeet(u, t);
  }

  lemma LowestBit(z: bv32) returns (u: bv32)
    requires z != 0
    ensures SingleBit(u) && u & z != 0
  {
    u := z & (0 - z);
  }

  lemma BitDiffers(a: bv32, b: bv32, u: bv32)
    requires SingleBit(u) && u & (a ^ b) != 0
    ensures (u & a != 0) != (u & b != 0)
  {
    assert u & (a ^ b) == (u & a) ^ (u & b);
    BitPart(u, a);
    BitPart(u, b);
  }

  lemma BitPart(u: bv32, a: bv32)
    requires SingleBit(u)
    ensures u & a == 0 || u & a == u
  {}

  lemma NotZero(a: bv32, b: bv32)
    requires a != b
    ensures a ^ b != 0
  {}

  /** A mask is known by its bits. */
  lemma SameBits(a: bv32, b: bv32)
    requires forall u :: Single(u) ==> (In(u, a) <==> In(u, b))
    ensures a == b
  {
    if a != b {
      NotZero(a, b);
      var u := LowestBit(a ^ b);
      assert Single(Type(u));
      BitDiffers(a, b, u);
    }
  }

  /** The list seen as a map. */
  ghost function ToMap(list: seq<Attribute>): map<Type, Value> {
    if list == [] then map[] else ToMap(list[1..])[list[0].kind := list[0].value]
  }

  ghost predicate Unique(list: seq<Attribute>) {
    forall j, k :: 0 <= j < k < |list| ==> list[j].kind != list[k].kind
  }

  /** In a list of distinct types the map has every entry of the list, and no other. */
  lemma {:induction false} MapAt(list: seq<Attribute>)
    requires Unique(list)
    ensures forall k :: 0 <= k < |list| ==> list[k].kind in ToMap(list) && ToMap(list)[list[k].kind] == list[k].value
    ensures forall t :: t in ToMap(list) ==> exists k :: 0 <= k < |list| && list[k].kind == t
  {
    if list != [] {
      MapAt(list[1..]);
      forall k | 0 <= k < |list|
        ensures list[k].kind in ToMap(list) && ToMap(list)[list[k].kind] == list[k].value
      {
        if k > 0 {
          var rest := list[1..];
          assert rest[k - 1] == list[k] && list[0].kind != list[k].kind;
          assert ToMap(rest)[rest[k - 1].kind] == rest[k - 1].value;
          assert ToMap(list) == ToMap(rest)[list[0].kind := list[0].value];
        }
      }
      forall t | t in ToMap(list) ensures exists k :: 0 <= k < |list| && list[k].kind == t {
        if t == list[0].kind {
          assert list[0].kind == t;
        } else {
          var k :| 0 <= k < |list[1..]| && list[1..][k].kind == t;
          assert list[k + 1].kind == t;
        }
      }
    }
  }

  /** Each type is one bit, is in the mask exactly when it is in the list, and has the right sort of value. */
  ghost predicate Agree(list: seq<Attribute>, bits: bv32) {
    && Unique(list)
    && (forall k :: 0 <= k < |list| ==> Sound(list[k]))
    && MaskOf(ToMap(list), bits)
  }

  ghost predicate MaskOf(m: map<Type, Value>, bits: bv32) {
    forall u :: Single(u) ==> (In(u, bits) <==> u in m)
  }

  predicate Sound(a: Attribute) {
    Single(a.kind) && (if IsIntAttrType(a.kind) then a.value.Int? else IsStrAttrType(a.kind) && a.value.Str?)
  }

  class ItemAttributes {
    var attributes: seq<Attribute>
    var attributeBits: bv32

    constructor ()
      ensures Valid() && Map() == map[]
    {
      attributes := [];
      attributeBits := 0;
    }

    ghost predicate Valid()
      reads this
    {
      Agree(attributes, attributeBits)
    }

    /** What the attributes amount to. */
    ghost function Map(): map<Type, Value>
      reads this
    {
      ToMap(attributes)
    }

    predicate HasAttribute(t: Type)
      reads this
    {
      In(t, attributeBits)
    }

    method Find(t: Type) returns (k: int)
      requires Valid() && Single(t)
      ensures k == -1 <==> t !in Map()
      ensures k != -1 ==> 0 <= k < |attributes| && attributes[k].kind == t && Map()[t] == attributes[k].value
    {
      MapAt(attributes);
      if HasAttribute(t) {
        for i := 0 to |attributes|
          invariant forall j :: 0 <= j < i ==> attributes[j].kind != t
        {
          if attributes[i].kind == t {
            return i;
          }
        }
      }
      k := -1;
    }

    /** The place of a type's value; a type not there yet gets one, of `initial`, at the front. */
    method GetAttr(t: Type, initial: Value) returns (k: nat)
      requires Valid() && Sound(Attribute(t, initial))
      modifies this
      ensures Valid() && k < |attributes| && attributes[k].kind == t
      ensures t in old(Map()) ==> unchanged(this) && attributes[k].value == Map()[t]
      ensures t !in old(Map()) ==> Map() == old(Map())[t := initial] && attributes[k].value == initial
    {
      var at := Find(t);
      if at != -1 {
        return at;
      }
      Added(attributes, attributeBits, t, initial);
      attributeBits := attributeBits | t.bit;
      attributes := [Attribute(t, initial)] + attributes;
      k := 0;
    }

    method Assign(k: nat, value: Value)
      requires Valid() && k < |attributes| && Sound(Attribute(attributes[k].kind, value))
      modifies this`attributes
      ensures Valid() && Map() == old(Map())[old(attributes[k].kind) := value]
    {
      Replaced(attributes, attributeBits, k, value);
      attributes := attributes[k := attributes[k].(value := value)];
    }

    method SetIntAttr(t: Type, value: int)
      requires Valid() && (t == NONE || Single(t))
      modifies this
      ensures Valid() && Map() == if IsIntAttrType(t) then old(Map())[t := Int(value)] else old(Map())
    {
      if !IsIntAttrType(t) {
        return;
      }
      var k := GetAttr(t, Int(0));
      Assign(k, Int(value));
    }

    /** Adds to a value, which is 0 to begin with. */
    method IncreaseIntAttr(t: Type, value: int)
      requires Valid() && (t == NONE || Single(t))
      modifies this
      ensures Valid()
      ensures Map() == if IsIntAttrType(t) then old(Map())[t := Int(IntAt(old(Map()), t) + value)] else old(Map())
    {
      if !IsIntAttrType(t) {
        return;
      }
      var k := GetAttr(t, Int(0));
      MapAt(attributes);
      Assign(k, Int(attributes[k].value.integer + value));
    }

    /** Sets a text; an empty one changes nothing. */
    method SetStrAttr(t: Type, value: string)
      requires Valid() && (t == NONE || Single(t))
      modifies this
      ensures Valid()
      ensures Map() == if IsStrAttrType(t) && value != "" then old(Map())[t := Str(value)] else old(Map())
    {
      if !IsStrAttrType(t) {
        return;
      }
      if value == "" {
        return;
      }
      SortsApart(t);
      var k := GetAttr(t, Str(""));
      Assign(k, Str(value));
    }

    method RemoveAttribute(t: Type)
      requires Valid() && Single(t)
      modifies this
      ensures Valid() && Map() == old(Map()) - {t}
    {
      var k := Find(t);
      if k == -1 {
        return;
      }
      Removed(attributes, attributeBits, k);
      attributes := attributes[..k] + attributes[k + 1..];
      attributeBits := attributeBits & !t.bit;
    }

    method GetIntAttr(t: Type) returns (value: int)
      requires Valid() && (t == NONE || Single(t))
      ensures value == if IsIntAttrType(t) then IntAt(Map(), t) else 0
    {
      if !IsIntAttrType(t) {
        return 0;
      }
      var k := Find(t);
      if k == -1 {
        return 0;
      }
      value := attributes[k].value.integer;
    }
  }

  /** The number stored for a type, 0 if there is none. */
  function IntAt(m: map<Type, Value>, t: Type): int {
    if t in m && m[t].Int? then m[t].integer else 0
  }

  /** A type is a number's or a text's, not both, and one of the two if it is one of the 23 there are. */
  lemma SortsApart(t: Type)
    requires Single(t)
    ensures !(IsIntAttrType(t) && IsStrAttrType(t))
    ensures t.bit < 0x80_0000 <==> IsIntAttrType(t) || IsStrAttrType(t)
  {}

  lemma MaskAdded(m: map<Type, Value>, bits: bv32, t: Type, value: Value)
    requires MaskOf(m, bits) && Single(t)
    ensures MaskOf(m[t := value], bits | t.bit)
  {
    forall u | Single(u) ensures In(u, bits | t.bit) <==> u in m[t := value] {
      BitSet(bits, t, u);
    }
  }

  lemma MaskRemoved(m: map<Type, Value>, bits: bv32, cleared: bv32, t: Type)
    requires MaskOf(m, bits) && Single(t) && cleared == bits & !t.bit
    ensures MaskOf(m - {t}, cleared)
  {
    forall u | Single(u) ensures In(u, cleared) <==> u in m - {t} {
      BitCleared(bits, cleared, t, u);
    }
  }

  lemma Added(list: seq<Attribute>, bits: bv32, t: Type, value: Value)
    requires Agree(list, bits) && t !in ToMap(list) && Sound(Attribute(t, value))
    ensures Agree([Attribute(t, value)] + list, bits | t.bit)
    ensures ToMap([Attribute(t, value)] + list) == ToMap(list)[t := value]
  {
    MapAt(list);
    assert ([Attribute(t, value)] + list)[1..] == list;
    MaskAdded(ToMap(list), bits, t, value);
  }

  lemma Replaced(list: seq<Attribute>, bits: bv32, k: nat, value: Value)
    requires Agree(list, bits) && k < |list| && Sound(Attribute(list[k].kind, value))
    ensures Agree(list[k := list[k].(value := value)], bits)
    ensures ToMap(list[k := list[k].(value := value)]) == ToMap(list)[list[k].kind := value]
  {
    MapReplaced(list, k, value);
    MapAt(list);
  }

  lemma {:induction false} MapReplaced(list: seq<Attribute>, k: nat, value: Value)
    requires Unique(list) && k < |list|
    ensures ToMap(list[k := list[k].(value := value)]) == ToMap(list)[list[k].kind := value]
  {
    var after := list[k := list[k].(value := value)];
    if k > 0 {
      MapReplaced(list[1..], k - 1, value);
      assert after[1..] == list[1..][k - 1 := list[k].(value := value)];
    } else {
      assert after[1..] == list[1..];
    }
  }

  lemma Removed(list: seq<Attribute>, bits: bv32, k: nat)
    requires Agree(list, bits) && k < |list|
    ensures Agree(list[..k] + list[k + 1..], bits & !list[k].kind.bit)
    ensures ToMap(list[..k] + list[k + 1..]) == ToMap(list) - {list[k].kind}
  {
    MapRemoved(list, k);
    CutKeeps(list, k);
    MaskRemoved(ToMap(list), bits, bits & !list[k].kind.bit, list[k].kind);
  }

  lemma CutKeeps(list: seq<Attribute>, k: nat)
    requires Unique(list) && k < |list| && forall j :: 0 <= j < |list| ==> Sound(list[j])
    ensures var after := list[..k] + list[k + 1..]; Unique(after) && forall j :: 0 <= j < |after| ==> Sound(after[j])
  {
    var after := list[..k] + list[k + 1..];
    assert forall j :: 0 <= j < |after| ==> after[j] == list[if j < k then j else j + 1];
  }

  lemma Swap(m: map<Type, Value>, t: Type, value: Value, gone: Type)
    requires t != gone
    ensures (m - {gone})[t := value] == m[t := value] - {gone}
  {}

  lemma FirstRemoved(list: seq<Attribute>)
    requires Unique(list) && list != []
    ensures ToMap(list[1..]) == ToMap(list) - {list[0].kind}
  {
    MapAt(list[1..]);
    assert forall k :: 0 <= k < |list[1..]| ==> list[1..][k].kind != list[0].kind;
    Undo(ToMap(list[1..]), list[0].kind, list[0].value);
  }

  lemma Undo(m: map<Type, Value>, t: Type, value: Value)
    requires t !in m
    ensures m[t := value] - {t} == m
  {}

  lemma {:induction false} MapRemoved(list: seq<Attribute>, k: nat)
    requires Unique(list) && k < |list|
    ensures ToMap(list[..k] + list[k + 1..]) == ToMap(list) - {list[k].kind}
  {
    var after := list[..k] + list[k + 1..];
    if k == 0 {
      assert after == list[1..];
      FirstRemoved(list);
    } else {
      var rest, t, value := list[1..], list[0].kind, list[0].value;
      MapRemoved(rest, k - 1);
      Rest(list, k);
      assert t != rest[k - 1].kind;
      Swap(ToMap(rest), t, value, rest[k - 1].kind);
      assert ToMap(after) == ToMap(after[1..])[t := value];
    }
  }

  lemma Rest(list: seq<Attribute>, k: nat)
    requires 0 < k < |list|
    ensures var after := list[..k] + list[k + 1..];
            var rest := list[1..];
            after[0] == list[0] && after[1..] == rest[..k - 1] + rest[k..] && rest[k - 1] == list[k]
  {}

  class Item {
    const id: nat
    var attributes: ItemAttributes?

    constructor (id: nat)
      ensures this.id == id && attributes == null
    {
      this.id := id;
      attributes := null;
    }

    ghost predicate Valid()
      reads this, attributes
    {
      attributes != null ==> attributes.Valid()
    }

    /** What comparison is about: the id, and the attributes if there are any at all. */
    ghost function Meaning(): (nat, set<map<Type, Value>>)
      reads this, attributes
    {
      (id, if attributes == null then {} else {attributes.Map()})
    }

    /** Whether two items could share a stack: same id, and no attributes on either side or the same map on both. */
    method Equals(other: Item?) returns (equal: bool)
      requires Valid() && (other != null ==> other.Valid())
      ensures equal <==> other != null && Meaning() == other.Meaning()
    {
      if other == null || id != other.id {
        return false;
      }
      var mine, theirs := attributes, other.attributes;
      if mine == null {
        return theirs == null;
      }
      if theirs == null {
        return false;
      }
      if mine.attributeBits != theirs.attributeBits {
        BitsOfMap(mine.attributes, mine.attributeBits, theirs.attributes, theirs.attributeBits);
        return false;
      }
      equal := SameValues(mine.attributes, theirs.attributes);
      MapsCompared(mine.attributes, theirs.attributes, mine.attributeBits, equal);
    }
  }

  predicate Clash(a: Attribute, b: Attribute) {
    a.kind == b.kind && a.value != b.value
  }

  /** No value in one list differs from the value of the same type in the other. */
  method SameValues(list: seq<Attribute>, otherList: seq<Attribute>) returns (same: bool)
    requires (forall k :: 0 <= k < |list| ==> Sound(list[k])) && forall k :: 0 <= k < |otherList| ==> Sound(otherList[k])
    ensures same <==> forall j, k :: 0 <= j < |list| && 0 <= k < |otherList| ==> !Clash(list[j], otherList[k])
  {
    for j := 0 to |list|
      invariant forall j', k :: 0 <= j' < j && 0 <= k < |otherList| ==> !Clash(list[j'], otherList[k])
    {
      var attribute := list[j];
      if IsStrAttrType(attribute.kind) {
        SortsApart(attribute.kind);
      }
      for k := 0 to |otherList|
        invariant forall k' :: 0 <= k' < k ==> !Clash(attribute, otherList[k'])
      {
        var otherAttribute := otherList[k];
        if attribute.kind == otherAttribute.kind {
          if IsStrAttrType(attribute.kind) {
            if attribute.value.text != otherAttribute.value.text {
              assert Clash(list[j], otherList[k]);
              return false;
            }
          } else if attribute.value.integer != otherAttribute.value.integer {
            assert Clash(list[j], otherList[k]);
            return false;
          }
        }
      }
    }
    same := true;
  }

  /** Different masks, different maps. */
  lemma BitsOfMap(list: seq<Attribute>, bits: bv32, otherList: seq<Attribute>, otherBits: bv32)
    requires Agree(list, bits) && Agree(otherList, otherBits)
    ensures ToMap(list) == ToMap(otherList) ==> bits == otherBits
  {
    if ToMap(list) == ToMap(otherList) {
      SameBits(bits, otherBits);
    }
  }

  /** With the same mask, the maps are the same exactly when no values clash. */
  lemma MapsCompared(list: seq<Attribute>, otherList: seq<Attribute>, bits: bv32, same: bool)
    requires Agree(list, bits) && Agree(otherList, bits)
    requires same <==> forall j, k :: 0 <= j < |list| && 0 <= k < |otherList| ==> !Clash(list[j], otherList[k])
    ensures same <==> ToMap(list) == ToMap(otherList)
  {
    MapAt(list);
    MapAt(otherList);
    SameKeys(list, otherList, bits);
    if same {
      forall t | t in ToMap(list) ensures ToMap(otherList)[t] == ToMap(list)[t] {
        ValuesAgree(list, otherList, t);
      }
    } else {
      var j, k :| 0 <= j < |list| && 0 <= k < |otherList| && Clash(list[j], otherList[k]);
      assert ToMap(list)[list[j].kind] != ToMap(otherList)[list[j].kind];
    }
  }

  lemma ValuesAgree(list: seq<Attribute>, otherList: seq<Attribute>, t: Type)
    requires Unique(list) && Unique(otherList) && t in ToMap(list) && t in ToMap(otherList)
    requires forall j, k :: 0 <= j < |list| && 0 <= k < |otherList| ==> !Clash(list[j], otherList[k])
    ensures ToMap(otherList)[t] == ToMap(list)[t]
  {
    MapAt(list);
    MapAt(otherList);
    var j :| 0 <= j < |list| && list[j].kind == t;
    var k :| 0 <= k < |otherList| && otherList[k].kind == t;
    assert !Clash(list[j], otherList[k]);
  }

  lemma SameKeys(list: seq<Attribute>, otherList: seq<Attribute>, bits: bv32)
    requires Agree(list, bits) && Agree(otherList, bits)
    ensures ToMap(list).Keys == ToMap(otherList).Keys
  {
    forall t ensures t in ToMap(list) <==> t in ToMap(otherList) {
      KeysSingle(list, t);
      KeysSingle(otherList, t);
    }
  }

  lemma KeysSingle(list: seq<Attribute>, t: Type)
    requires Unique(list) && forall k :: 0 <= k < |list| ==> Sound(list[k])
    ensures t in ToMap(list) ==> Single(t)
  {
    MapAt(list);
  }
}
