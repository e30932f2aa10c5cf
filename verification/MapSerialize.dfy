/**
 The byte encoding of items in house tiles: a write stream, a read stream, the
 attribute codec of a single item, and the recursive codec of nested containers.
 */
module MapSerialize {
  import opened Common
  import opened Forest
  import opened Items

  // ------------------------------------------------------------- numbers

  function Pow256(width: nat): (p: nat)
    ensures p > 0
  {
    if width == 0 then 1 else 256 * Pow256(width - 1)
  }

  function EncodeInt(width: nat, n: nat): (e: seq<Byte>)
    ensures |e| == width
  {
    if width == 0 then [] else [n % 256] + EncodeInt(width - 1, n / 256)
  }

  function DecodeInt(e: seq<Byte>): (n: nat) {
    if e == [] then 0 else e[0] + 256 * DecodeInt(e[1..])
  }

  lemma {:induction false} DecodeEncode(width: nat, n: nat)
    requires n < Pow256(width)
    ensures DecodeInt(EncodeInt(width, n)) == n
  {
    if width > 0 {
      DecodeEncode(width - 1, n / 256);
    }
  }

  lemma RangeIsPow(width: nat)
    requires width in {1, 2, 4}
    ensures Range(width) == Pow256(width)
  {
    assert Pow256(1) == 256 * Pow256(0);
    assert Pow256(2) == 256 * Pow256(1);
    assert Pow256(4) == 256 * Pow256(3) && Pow256(3) == 256 * Pow256(2);
  }

  // ----------------------------------------------------- items and fields

  datatype Format = Width(bytes: nat) | Text16

  const COUNT := 15
  const RUNE_CHARGES := 12
  const CHARGES := 22
  const CONTAINER_ITEMS := 23

  const FIELDS := 19

  /** The tags an item writes, in the order it writes them. */
  function TagAt(i: nat): Byte {
    match i
    case 0 => COUNT
    case 1 => CHARGES
    case 2 => 4
    case 3 => 6
    case 4 => 18
    case 5 => 19
    case 6 => 7
    case 7 => 16
    case 8 => 17
    case 9 => 24
    case 10 => 25
    case 11 => 26
    case 12 => 27
    case 13 => 28
    case 14 => 29
    case 15 => 30
    case 16 => 31
    case 17 => 32
    case _ => 33
  }

  const DECAYING_TRUE := 1
  const DECAYING_PENDING := 2

  function FormatOf(tag: Byte): Option<Format> {
    match tag
    case 15 => Some(Width(1))
    case 12 => Some(Width(1))
    case 22 => Some(Width(2))
    case 4 => Some(Width(2))
    case 6 => Some(Text16)
    case 18 => Some(Width(4))
    case 19 => Some(Text16)
    case 7 => Some(Text16)
    case 16 => Some(Width(4))
    case 17 => Some(Width(1))
    case 24 => Some(Text16)
    case 25 => Some(Text16)
    case 26 => Some(Text16)
    case 27 => Some(Width(4))
    case 28 => Some(Width(4))
    case 29 => Some(Width(4))
    case 30 => Some(Width(4))
    case 31 => Some(Width(4))
    case 32 => Some(Width(1))
    case 33 => Some(Width(1))
    case _ => None
  }

  /** Bytes skipped for tags that only derived classes understand. */
  function Skipped(tag: Byte): Option<nat> {
    match tag
    case 5 => Some(2)
    case 10 => Some(2)
    case 14 => Some(1)
    case 20 => Some(4)
    case 21 => Some(4)
    case 8 => Some(5)
    case _ => None
  }

  function KeyOf(tag: Byte): Key {
    match tag
    case 4 => ActionId
    case 6 => Text
    case 18 => Date
    case 19 => Writer
    case 7 => Description
    case 16 => Duration
    case 17 => DecayState
    case 24 => Name
    case 25 => Article
    case 26 => PluralName
    case 27 => Weight
    case 28 => Attack
    case 29 => Defense
    case 30 => ExtraDefense
    case 31 => Armor
    case 32 => HitChance
    case 33 => ShootRange
    case _ => Count
  }

  /** The value `serializeAttr` writes under a tag, if it writes that tag at all. */
  function Emit(ty: ItemType, vals: Vals, tag: Byte): Option<Val> {
    var k := KeyOf(tag);
    if tag == COUNT then
      if ty.stackable || ty.fluid then Some(Int(Unsigned(1, SubType(ty, vals)))) else None
    else if tag == CHARGES then
      var charges := Unsigned(2, IntAttr(vals, Charges));
      if charges != 0 then Some(Int(charges)) else None
    else if k == ActionId then
      var actionId := Unsigned(2, IntAttr(vals, k));
      if ty.moveable && actionId != 0 then Some(Int(actionId)) else None
    else if k == Date then
      if IntAttr(vals, k) != 0 then Some(Int(Unsigned(4, IntAttr(vals, k)))) else None
    else if k == DecayState then
      if IntAttr(vals, k) == DECAYING_TRUE || IntAttr(vals, k) == DECAYING_PENDING then Some(Int(IntAttr(vals, k))) else None
    else if IsStr(k) then
      var s := StrAttr(vals, k);
      if s == [] then None else Some(Str(if |s| > 0xFFFF then [] else s))
    else if k in vals then
      var width := if k == HitChance || k == ShootRange then 1 else 4;
      Some(Int(Unsigned(width, IntAttr(vals, k))))
    else None
  }

  /** What `readAttr` does with a value of the right format. */
  function Apply(ty: ItemType, vals: Vals, tag: Byte, v: Val): Vals {
    var k := KeyOf(tag);
    match v
    case Str(s) => if s == [] then vals else vals[k := v]
    case Int(n) =>
      if tag == COUNT || tag == RUNE_CHARGES || tag == CHARGES then SetInt(vals, SubTypeKey(ty), n)
      else if k == ActionId then SetInt(vals, k, if n < 100 then 100 else n)
      else if k == Duration then SetInt(vals, k, if Signed(4, n) < 0 then 0 else Signed(4, n))
      else if k == DecayState then if n == 0 then vals else SetInt(vals, k, DECAYING_PENDING)
      else if k == HitChance then SetInt(vals, k, Signed(1, n))
      else if k == ShootRange then SetInt(vals, k, n)
      else SetInt(vals, k, Signed(4, n))
  }

  // ------------------------------------------------------ bytes of a field

  ghost predicate Fits(f: Format, v: Val) {
    match f
    case Width(w) => w in {1, 2, 4} && v.Int? && 0 <= v.n < Range(w)
    case Text16 => v.Str? && |v.s| <= 0xFFFF
  }

  function EncodeVal(f: Format, v: Val): seq<Byte> {
    match (f, v)
    case (Width(w), Int(n)) => EncodeInt(w, if n < 0 then 0 else n)
    case (Text16, Str(s)) => EncodeInt(2, |s|) + s
    case _ => []
  }

  function ReadVal(f: Format, s: seq<Byte>): (r: Option<(Val, seq<Byte>)>)
    ensures r.Some? ==> |r.value.1| <= |s|
  {
    match f
    case Width(w) => if |s| < w then None else Some((Int(DecodeInt(s[..w])), s[w..]))
    case Text16 =>
      if |s| < 2 then None else
        var n := DecodeInt(s[..2]);
        if |s| - 2 < n then None else Some((Str(s[2..2 + n]), s[2 + n..]))
  }

  lemma ReadEncoded(f: Format, v: Val, rest: seq<Byte>)
    requires Fits(f, v)
    ensures ReadVal(f, EncodeVal(f, v) + rest) == Some((v, rest))
  {
    match f
    case Width(w) =>
      RangeIsPow(w);
      DecodeEncode(w, v.n);
      assert (EncodeInt(w, v.n) + rest)[..w] == EncodeInt(w, v.n);
    case Text16 =>
      var head := EncodeInt(2, |v.s|);
      var s := head + v.s + rest;
      RangeIsPow(2);
      DecodeEncode(2, |v.s|);
      assert s[..2] == head && s[2..2 + |v.s|] == v.s && s[2 + |v.s|..] == rest;
  }

  lemma EmitFits(ty: ItemType, item: Content, i: nat)
    requires WellTyped(item) && i < FIELDS
    ensures FormatOf(TagAt(i)).Some?
    ensures var e := Emit(ty, item.vals, TagAt(i)); e.Some? ==> Fits(FormatOf(TagAt(i)).value, e.value)
  {}

  function FieldBytes(ty: ItemType, vals: Vals, i: nat): (e: seq<Byte>) {
    var tag := TagAt(i);
    match (Emit(ty, vals, tag), FormatOf(tag))
    case (Some(v), Some(f)) => [tag] + EncodeVal(f, v)
    case _ => []
  }

  /** The bytes of the first `i` fields. */
  function AttrBytes(ty: ItemType, vals: Vals, i: nat): (e: seq<Byte>) {
    if i == 0 then [] else AttrBytes(ty, vals, i - 1) + FieldBytes(ty, vals, i - 1)
  }

  // -------------------------------------------------- reading attributes

  /** Outcome of `unserializeAttr`: the values so far at an error, or all values, a container's announced size, and the rest. */
  datatype AttrRead = Error(vals: Vals) | Done(vals: Vals, announced: Option<nat>, rest: seq<Byte>)

  function ReadAttrs(ty: ItemType, vals: Vals, s: seq<Byte>): (r: AttrRead)
    ensures r.Done? ==> |r.rest| <= |s|
    decreases |s|
  {
    if s == [] then Done(vals, None, [])
    else if s[0] == 0 then Done(vals, None, s[1..])
    else if s[0] == CONTAINER_ITEMS then
      if !ty.container || |s| < 5 then Error(vals) else Done(vals, Some(DecodeInt(s[1..5])), s[5..])
    else if FormatOf(s[0]).Some? then
      match ReadVal(FormatOf(s[0]).value, s[1..])
      case None => Error(vals)
      case Some(r) => ReadAttrs(ty, Apply(ty, vals, s[0], r.0), r.1)
    else if Skipped(s[0]).Some? then
      var n := Skipped(s[0]).value;
      if |s| - 1 < n then Error(vals) else ReadAttrs(ty, vals, s[1 + n..])
    else Error(vals)
  }

  /** What one attribute does: it sets values, or announces the contents of a container. */
  datatype AttrStep = Go(vals: Vals) | Announced(n: nat)

  /** Reads the attribute of a tag other than the end mark; None stands for an error. */
  function ReadTag(ty: ItemType, vals: Vals, tag: Byte, s: seq<Byte>): Option<(AttrStep, seq<Byte>)> {
    if tag == CONTAINER_ITEMS then
      if !ty.container || |s| < 4 then None else Some((Announced(DecodeInt(s[..4])), s[4..]))
    else if FormatOf(tag).Some? then
      match ReadVal(FormatOf(tag).value, s)
      case None => None
      case Some(read) => Some((Go(Apply(ty, vals, tag, read.0)), read.1))
    else if Skipped(tag).Some? && |s| >= Skipped(tag).value then Some((Go(vals), s[Skipped(tag).value..]))
    else None
  }

  /** Reading goes on from tag to tag. */
  lemma ReadTagFirst(ty: ItemType, vals: Vals, s: seq<Byte>)
    requires s != [] && s[0] != 0
    ensures ReadAttrs(ty, vals, s) == match ReadTag(ty, vals, s[0], s[1..])
                                      case None => Error(vals)
                                      case Some(read) =>
                                        if read.0.Go? then ReadAttrs(ty, read.0.vals, read.1)
                                        else Done(vals, Some(read.0.n), read.1)
  {
    if s[0] == CONTAINER_ITEMS && |s| >= 5 {
      assert s[1..][..4] == s[1..5] && s[1..][4..] == s[5..];
    } else if Skipped(s[0]).Some? && |s| - 1 >= Skipped(s[0]).value {
      assert s[1..][Skipped(s[0]).value..] == s[1 + Skipped(s[0]).value..];
    }
  }

  lemma SkippedBy(ty: ItemType, vals: Vals, tag: Byte, body: seq<Byte>, rest: seq<Byte>)
    requires |body| == if tag == 14 then 1 else if tag == 5 || tag == 10 then 2 else if tag == 8 then 5 else 4
    requires tag in {5, 8, 10, 14, 20, 21}
    ensures ReadTag(ty, vals, tag, body + rest) == Some((Go(vals), rest))
  {
    assert FormatOf(tag) == None && Skipped(tag) == Some(|body|);
    assert (body + rest)[|body|..] == rest;
  }

  /**
   Passed over are unique ids, depot numbers, house doors, sleepers and when they fell asleep,
   and the destinations of teleports.
   */
  lemma PassedOver(ty: ItemType, vals: Vals, tag: Byte, body: seq<Byte>, rest: seq<Byte>)
    requires |body| == if tag == 14 then 1 else if tag == 5 || tag == 10 then 2 else if tag == 8 then 5 else 4
    requires tag in {5, 8, 10, 14, 20, 21}
    ensures ReadAttrs(ty, vals, [tag] + body + rest) == ReadAttrs(ty, vals, rest)
  {
    var s := [tag] + body + rest;
    assert s[0] == tag && s[1..] == body + rest;
    ReadTagFirst(ty, vals, s);
    SkippedBy(ty, vals, tag, body, rest);
  }

  /** How an item is read back: the type it was written with, and the type and values it is created with. */
  datatype Reading = Reading(saved: ItemType, ty: ItemType, start: Vals)

  function ReadingOf(types: Types, id: nat, count: nat): Reading {
    var saved, ty := TypeOf(types, id), CreatedType(types, id);
    Reading(saved, ty, Created(saved, ty, count))
  }

  /** The values after reading back field `i` of `from`. */
  ghost function Reset(r: Reading, from: Vals, vals: Vals, i: nat): Vals {
    match Emit(r.saved, from, TagAt(i))
    case None => vals
    case Some(v) => Apply(r.ty, vals, TagAt(i), v)
  }

  /** A new item's values after reading back the first `i` fields of `from`. */
  ghost function After(r: Reading, from: Vals, i: nat): Vals {
    if i == 0 then r.start else Reset(r, from, After(r, from, i - 1), i - 1)
  }

  /** What an item holds after all its fields are read back onto a newly created one. */
  ghost function Persisted(r: Reading, vals: Vals): Vals {
    After(r, vals, FIELDS)
  }

  lemma ReadField(ty: ItemType, vals: Vals, tag: Byte, f: Format, v: Val, more: seq<Byte>)
    requires FormatOf(tag) == Some(f) && tag != 0 && tag != CONTAINER_ITEMS && Fits(f, v)
    ensures ReadAttrs(ty, vals, [tag] + EncodeVal(f, v) + more) == ReadAttrs(ty, Apply(ty, vals, tag, v), more)
  {
    var s := [tag] + EncodeVal(f, v) + more;
    assert s[0] == tag && s[1..] == EncodeVal(f, v) + more;
    ReadEncoded(f, v, more);
  }

  /** Reading the bytes `s` in front of anything turns the values `from` into `to`. */
  ghost predicate Turns(ty: ItemType, from: Vals, s: seq<Byte>, to: Vals) {
    forall tail :: ReadAttrs(ty, from, s + tail) == ReadAttrs(ty, to, tail)
  }

  lemma {:induction false} TurnsNothing(ty: ItemType, vals: Vals)
    ensures Turns(ty, vals, [], vals)
  {
    forall tail ensures ReadAttrs(ty, vals, [] + tail) == ReadAttrs(ty, vals, tail) {
      ReadBehind(ty, vals, [], tail);
    }
  }

  lemma {:induction false} ReadBehind(ty: ItemType, vals: Vals, nothing: seq<Byte>, tail: seq<Byte>)
    requires nothing == []
    ensures ReadAttrs(ty, vals, nothing + tail) == ReadAttrs(ty, vals, tail)
  {
    assert nothing + tail == tail;
  }

  lemma {:induction false} TurnsThen(ty: ItemType, v0: Vals, a: seq<Byte>, v1: Vals, b: seq<Byte>, v2: Vals)
    requires Turns(ty, v0, a, v1) && Turns(ty, v1, b, v2)
    ensures Turns(ty, v0, a + b, v2)
  {
    forall tail ensures ReadAttrs(ty, v0, a + b + tail) == ReadAttrs(ty, v2, tail) {
      Associate(a, b, tail);
    }
  }

  lemma ReadAt(r: Reading, item: Content, vals: Vals, i: nat)
    requires WellTyped(item) && i < FIELDS
    ensures Turns(r.ty, vals, FieldBytes(r.saved, item.vals, i), Reset(r, item.vals, vals, i))
  {
    var e, tag := Emit(r.saved, item.vals, TagAt(i)), TagAt(i);
    EmitFits(r.saved, item, i);
    if e.Some? {
      forall tail {
        ReadField(r.ty, vals, tag, FormatOf(tag).value, e.value, tail);
      }
    } else {
      TurnsNothing(r.ty, vals);
    }
  }

  ghost predicate FieldsRead(r: Reading, item: Content, i: nat) {
    Turns(r.ty, r.start, AttrBytes(r.saved, item.vals, i), After(r, item.vals, i))
  }

  lemma ReadNext(r: Reading, item: Content, j: nat)
    requires WellTyped(item) && j < FIELDS && FieldsRead(r, item, j)
    ensures FieldsRead(r, item, j + 1)
  {
    var before := After(r, item.vals, j);
    ReadAt(r, item, before, j);
    TurnsThen(r.ty, r.start, AttrBytes(r.saved, item.vals, j), before, FieldBytes(r.saved, item.vals, j),
              Reset(r, item.vals, before, j));
  }

  /** Reading back the fields of an item, one after the other, whatever it is read onto. */
  lemma ReadFields(r: Reading, item: Content)
    requires WellTyped(item)
    ensures FieldsRead(r, item, FIELDS)
  {
    TurnsNothing(r.ty, r.start);
    for j := 0 to FIELDS
      invariant FieldsRead(r, item, j)
    {
      ReadNext(r, item, j);
    }
  }

  // ------------------------------------- what survives saving and loading

  function Get(vals: Vals, k: Key): Option<Val> {
    if k in vals then Some(vals[k]) else None
  }

  /** The value of `k` after an item with values `vals` has been saved and loaded: what its field says, or what it was created with. */
  ghost function PersistedVal(r: Reading, vals: Vals, k: Key): Option<Val> {
    var charges, n := Unsigned(2, IntAttr(vals, Charges)), IntAttr(vals, k);
    if k in {Count, Charges, FluidType} then
      if k != SubTypeKey(r.ty) then Get(r.start, k)
      else if charges != 0 then Some(Int(if k == Count then charges % 256 else charges))
      else if r.saved.stackable || r.saved.fluid then Some(Int(Unsigned(1, SubType(r.saved, vals))))
      else Get(r.start, k)
    else if IsStr(k) && 0 < |StrAttr(vals, k)| <= 0xFFFF then Some(Str(StrAttr(vals, k)))
    else match k
      case ActionId =>
        var a := Unsigned(2, n);
        if r.saved.moveable && a != 0 then Some(Int(if a < 100 then 100 else a)) else Get(r.start, k)
      case Date => if n != 0 then Some(Int(n)) else Get(r.start, k)
      case DecayState =>
        if n == DECAYING_TRUE || n == DECAYING_PENDING then Some(Int(DECAYING_PENDING)) else Get(r.start, k)
      case Duration => if k in vals then Some(Int(if n < 0 then 0 else n)) else Get(r.start, k)
      case HitChance => if k in vals then Some(Int(Signed(1, n))) else Get(r.start, k)
      case ShootRange => if k in vals then Some(Int(Unsigned(1, n))) else Get(r.start, k)
      case _ => if IsRaw(k) && k in vals then Get(vals, k) else Get(r.start, k)
  }

  /** Attributes written as they are, in four bytes. */
  ghost predicate IsRaw(k: Key) {
    k == Weight || k == Attack || k == Defense || k == ExtraDefense || k == Armor
  }

  /** The field that carries an attribute; subtype keys are carried by fields 0 and 1. */
  function Pos(k: Key): nat {
    match k
    case ActionId => 2
    case Text => 3
    case Date => 4
    case Writer => 5
    case Description => 6
    case Duration => 7
    case DecayState => 8
    case Name => 9
    case Article => 10
    case PluralName => 11
    case Weight => 12
    case Attack => 13
    case Defense => 14
    case ExtraDefense => 15
    case Armor => 16
    case HitChance => 17
    case ShootRange => 18
    case _ => FIELDS
  }

  /** The key that a tag sets. */
  ghost function Target(ty: ItemType, tag: Byte): Key {
    if tag in {COUNT, RUNE_CHARGES, CHARGES} then SubTypeKey(ty) else KeyOf(tag)
  }

  lemma ApplyOther(ty: ItemType, vals: Vals, tag: Byte, v: Val, k: Key)
    requires k != Target(ty, tag) && (v.Str? ==> tag !in {COUNT, RUNE_CHARGES, CHARGES})
    ensures Get(Apply(ty, vals, tag, v), k) == Get(vals, k)
  {}

  lemma TagPos(i: nat)
    requires 2 <= i < FIELDS
    ensures Pos(KeyOf(TagAt(i))) == i && TagAt(i) !in {COUNT, RUNE_CHARGES, CHARGES}
  {}

  lemma PosTag(k: Key)
    requires Pos(k) < FIELDS
    ensures 2 <= Pos(k) && KeyOf(TagAt(Pos(k))) == k && TagAt(Pos(k)) !in {COUNT, RUNE_CHARGES, CHARGES}
  {}

  lemma EmitInt(ty: ItemType, vals: Vals, i: nat)
    requires i < 2
    ensures var e := Emit(ty, vals, TagAt(i)); e.Some? ==> e.value.Int?
  {}

  lemma ResetOther(r: Reading, from: Vals, vals: Vals, i: nat, k: Key)
    requires i < FIELDS && i != Pos(k) && (i < 2 ==> k != SubTypeKey(r.ty))
    ensures Get(Reset(r, from, vals, i), k) == Get(vals, k)
  {
    if i >= 2 {
      TagPos(i);
    } else {
      EmitInt(r.saved, from, i);
    }
    var e := Emit(r.saved, from, TagAt(i));
    if e.Some? {
      ApplyOther(r.ty, vals, TagAt(i), e.value, k);
    }
  }

  /** Reading back the field `tag` after what is in `vals` gives `k` its persisted value. */
  ghost predicate Restores(r: Reading, item: Content, vals: Vals, tag: Byte, k: Key) {
    var e := Emit(r.saved, item.vals, tag);
    Get(if e.Some? then Apply(r.ty, vals, tag, e.value) else vals, k) == PersistedVal(r, item.vals, k)
  }

  lemma ResetStr(r: Reading, item: Content, vals: Vals, tag: Byte, k: Key)
    requires WellTyped(item) && KeyOf(tag) == k && IsStr(k) && tag !in {COUNT, RUNE_CHARGES, CHARGES}
    requires Get(vals, k) == Get(r.start, k)
    ensures Restores(r, item, vals, tag, k)
  {}

  lemma SignedBack(x: int)
    requires x == Signed(4, x)
    ensures Signed(4, Unsigned(4, x)) == x
  {}

  /** A stored number comes back from four bytes as it was. */
  lemma NumberBack(item: Content, k: Key)
    requires WellTyped(item) && k in item.vals && !IsStr(k) && k != Count
    ensures item.vals[k].Int? && Signed(4, Unsigned(4, item.vals[k].n)) == item.vals[k].n
  {
    SignedBack(item.vals[k].n);
  }

  lemma ByteBack(x: int)
    ensures Signed(1, Unsigned(1, x)) == Signed(1, x)
  {
    assert Unsigned(1, x) % Range(1) == x % Range(1);
  }

  lemma ResetRaw(r: Reading, item: Content, vals: Vals, tag: Byte, k: Key)
    requires WellTyped(item) && KeyOf(tag) == k && IsRaw(k) && tag !in {COUNT, RUNE_CHARGES, CHARGES}
    requires Get(vals, k) == Get(r.start, k)
    ensures Restores(r, item, vals, tag, k)
  {
    if k in item.vals {
      NumberBack(item, k);
    }
  }

  lemma ResetIds(r: Reading, item: Content, vals: Vals, tag: Byte, k: Key)
    requires WellTyped(item) && KeyOf(tag) == k && (k == ActionId || k == Date) && tag !in {COUNT, RUNE_CHARGES, CHARGES}
    requires Get(vals, k) == Get(r.start, k)
    ensures Restores(r, item, vals, tag, k)
  {}

  lemma ResetDuration(r: Reading, item: Content, vals: Vals, tag: Byte, k: Key)
    requires WellTyped(item) && KeyOf(tag) == k && (k == Duration) && tag !in {COUNT, RUNE_CHARGES, CHARGES}
    requires Get(vals, k) == Get(r.start, k)
    ensures Restores(r, item, vals, tag, k)
  {
    if k in item.vals {
      SignedBack(IntAttr(item.vals, k));
    }
  }

  lemma ResetDecayState(r: Reading, item: Content, vals: Vals, tag: Byte, k: Key)
    requires WellTyped(item) && KeyOf(tag) == k && (k == DecayState) && tag !in {COUNT, RUNE_CHARGES, CHARGES}
    requires Get(vals, k) == Get(r.start, k)
    ensures Restores(r, item, vals, tag, k)
  {}

  lemma ResetBytes(r: Reading, item: Content, vals: Vals, tag: Byte, k: Key)
    requires WellTyped(item) && KeyOf(tag) == k && (k == HitChance || k == ShootRange) && tag !in {COUNT, RUNE_CHARGES, CHARGES}
    requires Get(vals, k) == Get(r.start, k)
    ensures Restores(r, item, vals, tag, k)
  {
    ByteBack(IntAttr(item.vals, k));
  }

  /** Reading back the field of an attribute gives its persisted value. */
  lemma ResetKey(r: Reading, item: Content, vals: Vals, tag: Byte, k: Key)
    requires WellTyped(item) && KeyOf(tag) == k && Pos(k) < FIELDS && tag !in {COUNT, RUNE_CHARGES, CHARGES}
    requires Get(vals, k) == Get(r.start, k)
    ensures Restores(r, item, vals, tag, k)
  {
    if IsStr(k) {
      ResetStr(r, item, vals, tag, k);
    } else if IsRaw(k) {
      ResetRaw(r, item, vals, tag, k);
    } else if k == ActionId || k == Date {
      ResetIds(r, item, vals, tag, k);
    } else if k == Duration {
      ResetDuration(r, item, vals, tag, k);
    } else if k == DecayState {
      ResetDecayState(r, item, vals, tag, k);
    } else {
      ResetBytes(r, item, vals, tag, k);
    }
  }

  lemma {:induction false} AfterOther(r: Reading, item: Content, k: Key, j: nat)
    requires j < FIELDS && j != Pos(k) && (k == SubTypeKey(r.ty) ==> j >= 2)
    ensures Get(After(r, item.vals, j + 1), k) == Get(After(r, item.vals, j), k)
  {
    var before := After(r, item.vals, j);
    ResetOther(r, item.vals, before, j, k);
    assert After(r, item.vals, j + 1) == Reset(r, item.vals, before, j);
  }

  /** Fields that do not carry an attribute leave it alone; those after the first two leave the subtype alone. */
  lemma {:induction false} AfterOthers(r: Reading, item: Content, k: Key, lo: nat, hi: nat)
    requires lo <= hi <= FIELDS && !(lo <= Pos(k) < hi) && (k == SubTypeKey(r.ty) ==> lo >= 2)
    ensures Get(After(r, item.vals, hi), k) == Get(After(r, item.vals, lo), k)
  {
    var value := (j: nat) => Get(After(r, item.vals, j), k);
    forall j: nat | lo <= j < hi ensures value(j + 1) == value(j) {
      AfterOther(r, item, k, j);
    }
    NoStep(value, lo, hi);
  }

  lemma {:induction false} NoStep<T>(value: nat -> T, lo: nat, hi: nat)
    requires lo <= hi && forall j: nat :: lo <= j < hi ==> value(j + 1) == value(j)
    ensures value(hi) == value(lo)
  {
    if lo < hi {
      NoStep(value, lo, hi - 1);
    }
  }

  /** The one field that carries an attribute decides what it ends up as. */
  lemma AfterKey(r: Reading, item: Content, k: Key)
    requires WellTyped(item) && k != SubTypeKey(r.ty)
    ensures Get(After(r, item.vals, FIELDS), k) ==
            if Pos(k) < FIELDS then PersistedVal(r, item.vals, k) else Get(r.start, k)
  {
    var p := Pos(k);
    AfterOthers(r, item, k, 0, p);
    if p < FIELDS {
      var before := After(r, item.vals, p);
      PosTag(k);
      ResetKey(r, item, before, TagAt(p), k);
      AfterOthers(r, item, k, p + 1, FIELDS);
    }
  }

  lemma FirstTwo(r: Reading, item: Content)
    requires WellTyped(item)
    ensures Get(After(r, item.vals, 2), SubTypeKey(r.ty)) == PersistedVal(r, item.vals, SubTypeKey(r.ty))
  {
    assert After(r, item.vals, 1) == Reset(r, item.vals, r.start, 0);
  }

  lemma PersistedKey(r: Reading, item: Content, k: Key)
    requires WellTyped(item)
    ensures Get(Persisted(r, item.vals), k) == PersistedVal(r, item.vals, k)
  {
    if k == SubTypeKey(r.ty) {
      AfterOthers(r, item, k, 2, FIELDS);
      FirstTwo(r, item);
    } else {
      AfterKey(r, item, k);
      if Pos(k) >= FIELDS {
        assert k in {Count, Charges, FluidType, UniqueId, Owner, CorpseOwner, DoorId};
      }
    }
  }

  /** Which values of `k` survive; items of a type without charges must carry none. */
  ghost predicate StableAt(ty: ItemType, vals: Vals, k: Key) {
    var n := IntAttr(vals, k);
    match k
    case Count => (ty.stackable && !ty.fluid) || n == 1
    case FluidType => if SubTypeKey(ty) == k then k in vals && 0 <= n < 256 else k !in vals
    case Charges => if SubTypeKey(ty) == k then k in vals && 0 < n < 0x1_0000 else k !in vals
    case UniqueId => k !in vals
    case Owner => k !in vals
    case CorpseOwner => k !in vals
    case DoorId => k !in vals
    case ActionId => k in vals ==> ty.moveable && 100 <= n < 0x1_0000
    case Date => k in vals ==> n != 0
    case DecayState => k in vals ==> n == DECAYING_PENDING
    case Duration => if k in vals then n >= 0 else DefaultDuration(ty) == 0
    case HitChance => k in vals ==> -128 <= n < 128
    case ShootRange => k in vals ==> 0 <= n < 256
    case _ => IsStr(k) ==> |StrAttr(vals, k)| <= 0xFFFF
  }

  /** The conditions under which saving and loading gives an item back unchanged. */
  ghost predicate Stable(ty: ItemType, vals: Vals) {
    forall k :: StableAt(ty, vals, k)
  }

  /** An item read back with the type it was written with, created from its id alone or with its subtype. */
  ghost predicate SameType(r: Reading, ty: ItemType, count: int, vals: Vals) {
    && r.saved == r.ty == ty && (count == 0 || count == SubType(ty, vals))
    && count >= 0 && r.start == Created(ty, ty, count)
  }

  lemma StableSubType(r: Reading, ty: ItemType, count: int, item: Content, k: Key)
    requires WellTyped(item) && SameType(r, ty, count, item.vals) && k in {Count, Charges, FluidType}
    requires Charges in item.vals ==> SubTypeKey(ty) == Charges
    ensures PersistedVal(r, item.vals, k) == Get(item.vals, k) <==> StableAt(ty, item.vals, k)
  {
    if k == SubTypeKey(ty) {
      match k
      case Count => assert PersistedVal(r, item.vals, k).Some?;
      case Charges => assert PersistedVal(r, item.vals, k).Some?;
      case FluidType => assert PersistedVal(r, item.vals, k).Some?;
    } else {
      assert PersistedVal(r, item.vals, k) == if k == Count then Some(Int(1)) else None;
    }
  }

  lemma StableKey(r: Reading, ty: ItemType, count: int, item: Content, k: Key)
    requires WellTyped(item) && SameType(r, ty, count, item.vals) && k !in {Count, Charges, FluidType}
    ensures PersistedVal(r, item.vals, k) == Get(item.vals, k) <==> StableAt(ty, item.vals, k)
  {
    CreatedKeys(ty, ty, count);
    StableFrom(r, ty, item, k);
  }

  lemma StableFrom(r: Reading, ty: ItemType, item: Content, k: Key)
    requires WellTyped(item) && r.saved == ty && k !in {Count, Charges, FluidType}
    requires k in r.start <==> k == Duration && DefaultDuration(ty) != 0
    ensures PersistedVal(r, item.vals, k) == Get(item.vals, k) <==> StableAt(ty, item.vals, k)
  {
    if IsStr(k) {
      StableStr(r, ty, item, k);
    } else if k in item.vals {
      StableInt(r, ty, item.vals, k, item.vals[k].n);
    } else {
      StableNone(r, ty, item.vals, k);
    }
  }

  lemma StableInt(r: Reading, ty: ItemType, vals: Vals, k: Key, n: int)
    requires r.saved == ty && k !in {Count, Charges, FluidType} && !IsStr(k)
    requires k in vals && vals[k] == Int(n) && n == Signed(4, n) && (k in r.start ==> k == Duration)
    ensures PersistedVal(r, vals, k) == Get(vals, k) <==> StableAt(ty, vals, k)
  {
    assert IntAttr(vals, k) == n && -0x8000_0000 <= n < 0x8000_0000;
  }

  lemma StableNone(r: Reading, ty: ItemType, vals: Vals, k: Key)
    requires r.saved == ty && k !in {Count, Charges, FluidType} && !IsStr(k) && k !in vals
    requires k in r.start <==> k == Duration && DefaultDuration(ty) != 0
    ensures PersistedVal(r, vals, k) == Get(vals, k) <==> StableAt(ty, vals, k)
  {}

  lemma StableStr(r: Reading, ty: ItemType, item: Content, k: Key)
    requires WellTyped(item) && r.saved == ty && IsStr(k) && k !in r.start
    ensures PersistedVal(r, item.vals, k) == Get(item.vals, k) <==> StableAt(ty, item.vals, k)
  {}

  /** Besides its subtype a new item has at most a duration. */
  lemma CreatedKeys(asked: ItemType, ty: ItemType, count: nat)
    ensures forall k :: k in Created(asked, ty, count) ==> k in {Count, Charges, FluidType, Duration}
    ensures Duration in Created(asked, ty, count) <==> DefaultDuration(ty) != 0
  {}

  lemma SameVals(a: Vals, b: Vals)
    ensures a == b <==> forall k :: Get(a, k) == Get(b, k)
  {
    if forall k :: Get(a, k) == Get(b, k) {
      forall k ensures k in a <==> k in b {
        assert Get(a, k) == Get(b, k);
      }
      forall k | k in a ensures a[k] == b[k] {
        assert Get(a, k) == Get(b, k);
      }
    }
  }

  /** Saving and loading an item under its own type changes nothing exactly when the item is stable. */
  lemma PersistedIffStable(r: Reading, ty: ItemType, count: int, item: Content)
    requires WellTyped(item) && SameType(r, ty, count, item.vals)
    ensures Persisted(r, item.vals) == item.vals <==> Stable(ty, item.vals)
  {
    var vals := item.vals;
    forall k ensures Get(Persisted(r, vals), k) == PersistedVal(r, vals, k) {
      PersistedKey(r, item, k);
    }
    SameVals(Persisted(r, vals), vals);
    if Charges in vals && SubTypeKey(ty) != Charges {
      assert PersistedVal(r, vals, Charges) != Get(vals, Charges) && !StableAt(ty, vals, Charges);
    } else {
      StableKeys(r, ty, count, item);
    }
  }

  lemma StableKeys(r: Reading, ty: ItemType, count: int, item: Content)
    requires WellTyped(item) && SameType(r, ty, count, item.vals)
    requires Charges in item.vals ==> SubTypeKey(ty) == Charges
    ensures (forall k :: PersistedVal(r, item.vals, k) == Get(item.vals, k)) <==> Stable(ty, item.vals)
  {
    forall k ensures PersistedVal(r, item.vals, k) == Get(item.vals, k) <==> StableAt(ty, item.vals, k) {
      if k in {Count, Charges, FluidType} {
        StableSubType(r, ty, count, item, k);
      } else {
        StableKey(r, ty, count, item, k);
      }
    }
  }

  // -------------------------------------------------- nested containers

  ghost predicate Savable(types: Types, t: Tree<Content>) {
    && WellTyped(t.item) && t.item.id in types
    && (TypeOf(types, t.item.id).container || t.contents == []) && |t.contents| < 0x1_0000_0000
    && forall k :: 0 <= k < |t.contents| ==> Savable(types, t.contents[k])
  }

  ghost predicate SavableAll(types: Types, f: seq<Tree<Content>>) {
    forall k :: 0 <= k < |f| ==> Savable(types, f[k])
  }

  /** The bytes of an item: id, attributes, for a container its contents, and the end mark. */
  ghost function ItemBytes(types: Types, t: Tree<Content>): (e: seq<Byte>)
    requires Savable(types, t)
    decreases t
  {
    EncodeInt(2, t.item.id) + (AttrBytes(TypeOf(types, t.item.id), t.item.vals, FIELDS) + Tail(types, t))
  }

  ghost function Tail(types: Types, t: Tree<Content>): (e: seq<Byte>)
    requires Savable(types, t)
    decreases t, 0
  {
    if TypeOf(types, t.item.id).container
    then [CONTAINER_ITEMS] + (EncodeInt(4, |t.contents|) + (ContentsBytes(types, t.contents) + [0]))
    else [0]
  }

  /** The last item of a container is written first. */
  ghost function ContentsBytes(types: Types, f: seq<Tree<Content>>): (e: seq<Byte>)
    requires SavableAll(types, f)
    decreases f
  {
    if f == [] then [] else
      var n := |f| - 1;
      ItemBytes(types, f[n]) + ContentsBytes(types, f[..n])
  }

  /** What comes back: every item persisted under its created id, in the same place. */
  ghost function PersistedTree(types: Types, t: Tree<Content>): Tree<Content>
    decreases t
  {
    var r := ReadingOf(types, t.item.id, 0);
    Tree(Content(r.ty.id, Persisted(r, t.item.vals)), PersistedAll(types, t.contents))
  }

  ghost function PersistedAll(types: Types, f: seq<Tree<Content>>): (p: seq<Tree<Content>>)
    ensures |p| == |f|
    decreases f
  {
    if f == [] then [] else PersistedAll(types, f[..|f| - 1]) + [PersistedTree(types, f[|f| - 1])]
  }

  /** Outcome of loading: an error, or the items added to the parent and the rest of the stream. */
  datatype Load = Failed | Loaded(items: seq<Tree<Content>>, rest: seq<Byte>)

  ghost function LoadedItem(types: Types, s: seq<Byte>): (r: Load)
    ensures r.Loaded? ==> |r.rest| < |s|
    decreases |s|, 0
  {
    if |s| < 2 then Failed else
      var id := DecodeInt(s[..2]);
      if id !in types then Loaded([], s[2..]) else
        var r := ReadingOf(types, id, 0);
        match ReadAttrs(r.ty, r.start, s[2..])
        case Error(_) => Failed
        case Done(vals, announced, rest) =>
          if !r.ty.container then Loaded([Tree(Content(r.ty.id, vals), [])], rest) else
            match LoadedContents(types, if announced.Some? then announced.value else 0, [], rest)
            case Failed => Failed
            case Loaded(contents, rest') => Loaded([Tree(Content(r.ty.id, vals), contents)], rest')
  }

  /** Loads `n` more items, each put in front of those loaded before, and the end mark. */
  ghost function LoadedContents(types: Types, n: nat, acc: seq<Tree<Content>>, s: seq<Byte>): (r: Load)
    ensures r.Loaded? ==> |r.rest| < |s|
    decreases |s|, 1
  {
    if n == 0 then
      if s == [] || s[0] != 0 then Failed else Loaded(acc, s[1..])
    else match LoadedItem(types, s)
      case Failed => Failed
      case Loaded(items, rest) => LoadedContents(types, n - 1, items + acc, rest)
  }

  lemma LoadPlain(types: Types, id: nat, s: seq<Byte>, vals: Vals, rest: seq<Byte>)
    requires |s| >= 2 && DecodeInt(s[..2]) == id && id in types && !TypeOf(types, id).container
    requires var r := ReadingOf(types, id, 0); ReadAttrs(r.ty, r.start, s[2..]) == Done(vals, None, rest)
    ensures LoadedItem(types, s) == Loaded([Tree(Content(CreatedId(types, id), vals), [])], rest)
  {}

  lemma LoadBag(types: Types, id: nat, s: seq<Byte>, vals: Vals, n: nat, rest: seq<Byte>,
                contents: seq<Tree<Content>>, rest': seq<Byte>)
    requires |s| >= 2 && DecodeInt(s[..2]) == id && id in types && TypeOf(types, id).container
    requires var r := ReadingOf(types, id, 0); ReadAttrs(r.ty, r.start, s[2..]) == Done(vals, Some(n), rest)
    requires LoadedContents(types, n, [], rest) == Loaded(contents, rest')
    ensures LoadedItem(types, s) == Loaded([Tree(Content(CreatedId(types, id), vals), contents)], rest')
  {}

  /** The id and the attributes at the front of saved bytes. */
  lemma ReadFront(types: Types, t: Tree<Content>, tail: seq<Byte>)
    requires Savable(types, t)
    ensures var s := ItemBytes(types, t) + tail; var r := ReadingOf(types, t.item.id, 0);
            && |s| >= 2 && DecodeInt(s[..2]) == t.item.id
            && ReadAttrs(r.ty, r.start, s[2..]) == ReadAttrs(r.ty, Persisted(r, t.item.vals), Tail(types, t) + tail)
  {
    var r := ReadingOf(types, t.item.id, 0);
    var head, attrs, body := EncodeInt(2, t.item.id), AttrBytes(r.saved, t.item.vals, FIELDS), Tail(types, t);
    RangeIsPow(2);
    DecodeEncode(2, t.item.id);
    ReadFields(r, t.item);
    Front(head, attrs, body, tail);
  }

  lemma Front(head: seq<Byte>, attrs: seq<Byte>, body: seq<Byte>, tail: seq<Byte>)
    ensures var s := head + (attrs + body) + tail; s[..|head|] == head && s[|head|..] == attrs + (body + tail)
  {}

  /** Loading the bytes of an item consumes exactly them and gives the persisted item. */
  lemma {:induction false} LoadSaved(types: Types, t: Tree<Content>, tail: seq<Byte>)
    requires Savable(types, t)
    ensures LoadedItem(types, ItemBytes(types, t) + tail) == Loaded([PersistedTree(types, t)], tail)
    decreases t, 0
  {
    var id, ty := t.item.id, TypeOf(types, t.item.id);
    var s, vals := ItemBytes(types, t) + tail, Persisted(ReadingOf(types, id, 0), t.item.vals);
    ReadFront(types, t, tail);
    ReadTail(types, t, vals, tail);
    if ty.container {
      LoadContents(types, t.contents, [], tail);
      var contents := PersistedAll(types, t.contents);
      assert contents + [] == contents;
      LoadBag(types, id, s, vals, |t.contents|, ContentsBytes(types, t.contents) + [0] + tail, contents, tail);
    } else {
      LoadPlain(types, id, s, vals, tail);
    }
  }

  /** How the attribute loop ends on the bytes that follow the attributes. */
  lemma ReadTail(types: Types, t: Tree<Content>, vals: Vals, tail: seq<Byte>)
    requires Savable(types, t)
    ensures ReadAttrs(CreatedType(types, t.item.id), vals, Tail(types, t) + tail)
         == if TypeOf(types, t.item.id).container
            then Done(vals, Some(|t.contents|), ContentsBytes(types, t.contents) + [0] + tail)
            else Done(vals, None, tail)
  {
    var s := Tail(types, t) + tail;
    if TypeOf(types, t.item.id).container {
      var n, contents := EncodeInt(4, |t.contents|), ContentsBytes(types, t.contents);
      RangeIsPow(4);
      DecodeEncode(4, |t.contents|);
      assert s == [CONTAINER_ITEMS] + n + (contents + [0] + tail);
      assert s[0] == CONTAINER_ITEMS && s[1..5] == n && s[5..] == contents + [0] + tail;
    } else {
      assert s[0] == 0 && s[1..] == tail;
    }
  }

  lemma {:induction false} LoadContents(types: Types, f: seq<Tree<Content>>, acc: seq<Tree<Content>>, tail: seq<Byte>)
    requires SavableAll(types, f)
    ensures LoadedContents(types, |f|, acc, ContentsBytes(types, f) + [0] + tail)
         == Loaded(PersistedAll(types, f) + acc, tail)
    decreases f, 1
  {
    if f == [] {
      assert ContentsBytes(types, f) + [0] + tail == [0] + tail && ([0] + tail)[1..] == tail;
      assert PersistedAll(types, f) + acc == acc;
    } else {
      var n := |f| - 1;
      var last, more := PersistedTree(types, f[n]), ContentsBytes(types, f[..n]) + [0] + tail;
      LoadSaved(types, f[n], more);
      LoadContents(types, f[..n], [last] + acc, tail);
      Regroup(ItemBytes(types, f[n]), ContentsBytes(types, f[..n]), [0], tail);
      LoadNext(types, |f|, acc, ItemBytes(types, f[n]) + more, last, more);
      Regroup(PersistedAll(types, f[..n]), [last], acc, []);
    }
  }

  lemma LoadNext(types: Types, n: nat, acc: seq<Tree<Content>>, s: seq<Byte>, first: Tree<Content>, rest: seq<Byte>)
    requires n > 0 && LoadedItem(types, s) == Loaded([first], rest)
    ensures LoadedContents(types, n, acc, s) == LoadedContents(types, n - 1, [first] + acc, rest)
  {}

  lemma Regroup<T>(a: seq<T>, b: seq<T>, c: seq<T>, d: seq<T>)
    ensures a + b + c + d == a + (b + c + d)
    ensures a + b + c == a + (b + c)
  {}

  /** Every item of the tree is stable, and of no replaced type. */
  ghost predicate StableTree(types: Types, t: Tree<Content>) {
    && StableItem(types, t.item)
    && forall k :: 0 <= k < |t.contents| ==> StableTree(types, t.contents[k])
  }

  ghost predicate StableItem(types: Types, item: Content) {
    && (TypeOf(types, item.id).container || item.id !in SUCCESSORS)
    && Stable(TypeOf(types, item.id), item.vals)
  }

  /** An item comes back as it was exactly when it is stable and its type is not replaced. */
  lemma ItemUnchanged(types: Types, item: Content, count: nat)
    requires WellTyped(item) && (count == 0 || count == SubType(TypeOf(types, item.id), item.vals))
    ensures var r := ReadingOf(types, item.id, count);
            Content(r.ty.id, Persisted(r, item.vals)) == item <==> StableItem(types, item)
  {
    var r, ty := ReadingOf(types, item.id, count), TypeOf(types, item.id);
    NotReplaced(types, item.id);
    if r.ty.id == item.id {
      PersistedIffStable(r, ty, count, item);
    }
  }

  /** A tree comes back unchanged exactly when each of its items is stable and of no replaced type. */
  lemma {:induction false} TreeUnchanged(types: Types, t: Tree<Content>)
    requires Savable(types, t)
    ensures PersistedTree(types, t) == t <==> StableTree(types, t)
    decreases t, 0
  {
    ItemUnchanged(types, t.item, 0);
    ContentsUnchanged(types, t.contents);
  }

  lemma {:induction false} ContentsUnchanged(types: Types, f: seq<Tree<Content>>)
    requires SavableAll(types, f)
    ensures PersistedAll(types, f) == f <==> forall k :: 0 <= k < |f| ==> StableTree(types, f[k])
    decreases f, 1
  {
    if f != [] {
      var n := |f| - 1;
      TreeUnchanged(types, f[n]);
      ContentsUnchanged(types, f[..n]);
      SameSplit(PersistedAll(types, f[..n]), PersistedTree(types, f[n]), f);
      AllSplit(types, f);
    }
  }

  lemma SameSplit(init: seq<Tree<Content>>, last: Tree<Content>, f: seq<Tree<Content>>)
    requires |f| == |init| + 1
    ensures init + [last] == f <==> init == f[..|init|] && last == f[|init|]
  {
    assert f == f[..|init|] + [f[|init|]];
  }

  lemma AllSplit(types: Types, f: seq<Tree<Content>>)
    requires f != []
    ensures var n := |f| - 1;
            (forall k :: 0 <= k < |f| ==> StableTree(types, f[k]))
            <==> StableTree(types, f[n]) && forall k :: 0 <= k < n ==> StableTree(types, f[..n][k])
  {
    var n := |f| - 1;
    assert forall k :: 0 <= k < n ==> f[k] == f[..n][k];
  }

  // ------------------------------------------------------------- streams

  class PropWriteStream {
    var buffer: seq<Byte>

    constructor ()
      ensures buffer == []
    {
      buffer := [];
    }

    method Write(width: nat, n: nat)
      modifies this
      ensures buffer == old(buffer) + EncodeInt(width, n)
    {
      var left := n;
      for i := 0 to width
        invariant buffer + EncodeInt(width - i, left) == old(buffer) + EncodeInt(width, n)
      {
        ghost var next := EncodeInt(width - i - 1, left / 256);
        assert buffer + ([left % 256] + next) == buffer + [left % 256] + next;
        buffer := buffer + [left % 256];
        left := left / 256;
      }
      assert buffer + [] == buffer;
    }

    method WriteString(s: seq<Byte>)
      modifies this
      ensures buffer == old(buffer) + EncodeVal(Text16, Str(if |s| > 0xFFFF then [] else s))
    {
      if |s| > 0xFFFF {
        Write(2, 0);
        assert EncodeInt(2, 0) + [] == EncodeInt(2, 0);
      } else {
        Write(2, |s|);
        assert old(buffer) + EncodeInt(2, |s|) + s == old(buffer) + (EncodeInt(2, |s|) + s);
        buffer := buffer + s;
      }
    }
  }

  class PropStream {
    const data: seq<Byte>
    var p: nat

    ghost predicate Valid()
      reads this
    {
      p <= |data|
    }

    ghost function Rest(): (r: seq<Byte>)
      requires Valid()
      reads this
    {
      data[p..]
    }

    constructor (data: seq<Byte>)
      ensures Valid() && Rest() == data
    {
      this.data, p := data, 0;
    }

    method Read(width: nat) returns (n: Option<nat>)
      requires Valid()
      modifies this
      ensures Valid()
      ensures if |old(Rest())| < width then n == None && Rest() == old(Rest())
              else n == Some(DecodeInt(old(Rest())[..width])) && Rest() == old(Rest())[width..]
    {
      if |data| - p < width {
        return None;
      }
      n := Some(DecodeInt(data[p..p + width]));
      assert data[p..][..width] == data[p..p + width] && data[p..][width..] == data[p + width..];
      p := p + width;
    }

    method ReadString() returns (s: Option<seq<Byte>>)
      requires Valid()
      modifies this
      ensures Valid()
      ensures match ReadVal(Text16, old(Rest()))
              case None => s == None
              case Some(r) => s.Some? && Str(s.value) == r.0 && Rest() == r.1
    {
      var n := Read(2);
      if n == None || |data| - p < n.value {
        return None;
      }
      ghost var before := old(Rest());
      assert before[2..2 + n.value] == data[p..p + n.value] && before[2 + n.value..] == data[p + n.value..];
      s := Some(data[p..p + n.value]);
      p := p + n.value;
    }

    method Skip(n: nat) returns (ok: bool)
      requires Valid()
      modifies this
      ensures Valid() && (ok <==> n <= |old(Rest())|)
      ensures Rest() == if ok then old(Rest())[n..] else old(Rest())
    {
      ok := n <= |data| - p;
      if ok {
        assert data[p..][n..] == data[p + n..];
        p := p + n;
      }
    }
  }

  class IOMapSerialize {
    /** One attribute, whatever its tag. */
    static method ReadAttr(stream: PropStream, ty: ItemType, vals: Vals, tag: Byte) returns (r: Option<AttrStep>)
      requires stream.Valid()
      modifies stream
      ensures stream.Valid()
      ensures match ReadTag(ty, vals, tag, old(stream.Rest()))
              case None => r == None
              case Some(read) => r == Some(read.0) && stream.Rest() == read.1
    {
      if tag == CONTAINER_ITEMS {
        if !ty.container {
          return None;
        }
        var n := stream.Read(4);
        return if n == None then None else Some(Announced(n.value));
      }
      if FormatOf(tag) == None {
        if Skipped(tag) == None {
          return None;
        }
        var ok := stream.Skip(Skipped(tag).value);
        return if ok then Some(Go(vals)) else None;
      }
      match FormatOf(tag).value {
        case Width(w) =>
          var n := stream.Read(w);
          r := if n == None then None else Some(Go(Apply(ty, vals, tag, Int(n.value))));
        case Text16 =>
          var s := stream.ReadString();
          r := if s == None then None else Some(Go(Apply(ty, vals, tag, Str(s.value))));
      }
    }

    static method UnserializeAttr(stream: PropStream, ty: ItemType, start: Vals)
      returns (ok: bool, vals: Vals, announced: Option<nat>)
      requires stream.Valid()
      modifies stream
      ensures stream.Valid()
      ensures ReadAttrs(ty, start, old(stream.Rest()))
           == if ok then Done(vals, announced, stream.Rest()) else Error(vals)
    {
      vals, announced, ok := start, None, true;
      ghost var result := ReadAttrs(ty, vals, stream.Rest());
      while true
        invariant stream.Valid() && ok
        invariant ReadAttrs(ty, vals, stream.Rest()) == result
        decreases |stream.Rest()|
      {
        ghost var s := stream.Rest();
        var tag := stream.Read(1);
        if tag == None {
          return;
        }
        FirstByte(s);
        if tag.value == 0 {
          return;
        }
        ReadTagFirst(ty, vals, s);
        var r := ReadAttr(stream, ty, vals, tag.value);
        if r == None {
          ok := false;
          return;
        }
        if r.value.Announced? {
          announced := Some(r.value.n);
          return;
        }
        vals := r.value.vals;
      }
    }

    /** Loads an item below a container that is itself being loaded. */
    static method LoadItem(stream: PropStream, types: Types) returns (ok: bool, items: seq<Tree<Content>>)
      requires stream.Valid()
      modifies stream
      ensures stream.Valid()
      ensures LoadedItem(types, old(stream.Rest())) == if ok then Loaded(items, stream.Rest()) else Failed
      decreases |stream.Rest()|, 0
    {
      items := [];
      var id := stream.Read(2);
      if id == None {
        return false, [];
      }
      if id.value !in types {
        return true, [];
      }
      var r := ReadingOf(types, id.value, 0);
      var vals, announced;
      ok, vals, announced := UnserializeAttr(stream, r.ty, r.start);
      if !ok {
        return;
      }
      var contents := [];
      if r.ty.container {
        ok, contents := LoadContainer(stream, types, if announced == None then 0 else announced.value);
        if !ok {
          return;
        }
      }
      items := [Tree(Content(r.ty.id, vals), contents)];
    }

    static method LoadContainer(stream: PropStream, types: Types, serializationCount: nat)
      returns (ok: bool, contents: seq<Tree<Content>>)
      requires stream.Valid()
      modifies stream
      ensures stream.Valid()
      ensures LoadedContents(types, serializationCount, [], old(stream.Rest()))
           == if ok then Loaded(contents, stream.Rest()) else Failed
      decreases |stream.Rest()|, 1
    {
      contents := [];
      var left := serializationCount;
      ghost var result := LoadedContents(types, left, [], stream.Rest());
      while left > 0
        invariant stream.Valid() && |stream.Rest()| <= |old(stream.Rest())|
        invariant LoadedContents(types, left, contents, stream.Rest()) == result
      {
        var items;
        ok, items := LoadItem(stream, types);
        if !ok {
          return;
        }
        contents := items + contents;
        left := left - 1;
      }
      ghost var s := stream.Rest();
      var endAttr := stream.Read(1);
      if endAttr == None {
        return false, [];
      }
      FirstByte(s);
      ok := endAttr.value == 0;
    }

    static method SerializeAttr(stream: PropWriteStream, ty: ItemType, item: Content)
      requires WellTyped(item)
      modifies stream
      ensures stream.buffer == old(stream.buffer) + AttrBytes(ty, item.vals, FIELDS)
    {
      for i := 0 to FIELDS
        invariant stream.buffer == old(stream.buffer) + AttrBytes(ty, item.vals, i)
      {
        SerializeField(stream, ty, item, i);
        Associate(old(stream.buffer), AttrBytes(ty, item.vals, i), FieldBytes(ty, item.vals, i));
      }
    }

    static method SerializeField(stream: PropWriteStream, ty: ItemType, item: Content, i: nat)
      requires WellTyped(item) && i < FIELDS
      modifies stream
      ensures stream.buffer == old(stream.buffer) + FieldBytes(ty, item.vals, i)
    {
      var tag := TagAt(i);
      var e := Emit(ty, item.vals, tag);
      EmitFits(ty, item, i);
      if e.Some? {
        WriteField(stream, tag, FormatOf(tag).value, e.value);
      }
    }

    static method WriteField(stream: PropWriteStream, tag: Byte, f: Format, v: Val)
      requires Fits(f, v)
      modifies stream
      ensures stream.buffer == old(stream.buffer) + ([tag] + EncodeVal(f, v))
    {
      stream.Write(1, tag);
      OneByte(tag);
      match f {
        case Width(w) => stream.Write(w, v.n);
        case Text16 => stream.WriteString(v.s);
      }
      Associate(old(stream.buffer), [tag], EncodeVal(f, v));
    }

    static method SaveItem(stream: PropWriteStream, types: Types, t: Tree<Content>)
      requires Savable(types, t)
      modifies stream
      ensures stream.buffer == old(stream.buffer) + ItemBytes(types, t)
      decreases t, 2
    {
      ghost var start := stream.buffer;
      stream.Write(2, t.item.id);
      SerializeAttr(stream, TypeOf(types, t.item.id), t.item);
      SaveContents(stream, types, t);
      ItemBytesAre(types, t, start);
    }

    /** A container's mark, count and items, and the end mark of every item. */
    static method SaveContents(stream: PropWriteStream, types: Types, t: Tree<Content>)
      requires Savable(types, t)
      modifies stream
      ensures stream.buffer == old(stream.buffer) + Tail(types, t)
      decreases t, 1
    {
      ghost var start, n, contents := stream.buffer, EncodeInt(4, |t.contents|), ContentsBytes(types, t.contents);
      if TypeOf(types, t.item.id).container {
        stream.Write(1, CONTAINER_ITEMS);
        stream.Write(4, |t.contents|);
        SaveReversed(stream, types, t.contents);
      }
      stream.Write(1, 0);
      OneByte(CONTAINER_ITEMS);
      OneByte(0);
      Regroup(start + [CONTAINER_ITEMS], n, contents, [0]);
      Associate(n, contents, [0]);
      Associate(start, [CONTAINER_ITEMS], n + (contents + [0]));
    }

    /** Writes the items of a container from last to first. */
    static method SaveReversed(stream: PropWriteStream, types: Types, f: seq<Tree<Content>>)
      requires SavableAll(types, f)
      modifies stream
      ensures stream.buffer == old(stream.buffer) + ContentsBytes(types, f)
      decreases f, 0
    {
      ghost var start := stream.buffer;
      assert f[..|f|] == f;
      for k := |f| downto 0
        invariant stream.buffer + ContentsBytes(types, f[..k]) == start + ContentsBytes(types, f)
      {
        ghost var now := stream.buffer;
        assert f[..k + 1][..k] == f[..k];
        SaveItem(stream, types, f[k]);
        Associate(now, ItemBytes(types, f[k]), ContentsBytes(types, f[..k]));
      }
      assert stream.buffer + [] == stream.buffer;
    }
  }

  lemma ItemBytesAre(types: Types, t: Tree<Content>, start: seq<Byte>)
    requires Savable(types, t)
    ensures start + EncodeInt(2, t.item.id) + AttrBytes(TypeOf(types, t.item.id), t.item.vals, FIELDS) + Tail(types, t)
         == start + ItemBytes(types, t)
  {
    Regroup(start, EncodeInt(2, t.item.id), AttrBytes(TypeOf(types, t.item.id), t.item.vals, FIELDS), Tail(types, t));
    Associate(EncodeInt(2, t.item.id), AttrBytes(TypeOf(types, t.item.id), t.item.vals, FIELDS), Tail(types, t));
  }

  lemma FirstByte(s: seq<Byte>)
    requires s != []
    ensures DecodeInt(s[..1]) == s[0]
  {
    assert s[..1][1..] == [];
  }

  lemma OneByte(b: Byte)
    ensures EncodeInt(1, b) == [b]
  {
    assert EncodeInt(1, b) == [b] + EncodeInt(0, 0);
  }

  // ------------------------------------------------------- an item in bytes

  lemma TwoBytes(n: nat)
    requires n < 0x1_0000
    ensures EncodeInt(2, n) == [n % 256, n / 256]
  {
    assert EncodeInt(2, n) == [n % 256] + EncodeInt(1, n / 256);
    OneByte(n / 256);
  }

  lemma TagKey(i: nat)
    ensures (i >= 2 ==> KeyOf(TagAt(i)) != Count) && (TagAt(i) == COUNT <==> i == 0) && (TagAt(i) == CHARGES <==> i == 1)
  {}

  lemma NothingEmitted(ty: ItemType, vals: Vals, tag: Byte)
    requires vals.Keys == {Count} && tag != COUNT && (tag == CHARGES || KeyOf(tag) != Count)
    ensures Emit(ty, vals, tag) == None
  {}

  lemma CountField(ty: ItemType, n: Byte, i: nat)
    requires !ty.fluid
    ensures FieldBytes(ty, map[Count := Int(n)], i) == if ty.stackable && i == 0 then [15, n] else []
  {
    TagKey(i);
    if i == 0 {
      OneByte(n);
    } else {
      NothingEmitted(ty, map[Count := Int(n)], TagAt(i));
    }
  }

  /** Of an item with nothing but a count only a stack writes anything. */
  lemma {:induction false} CountBytes(ty: ItemType, n: Byte, i: nat)
    requires !ty.fluid
    ensures AttrBytes(ty, map[Count := Int(n)], i) == if ty.stackable && i > 0 then [15, n] else []
    decreases i
  {
    if i > 0 {
      CountBytes(ty, n, i - 1);
      CountField(ty, n, i - 1);
    }
  }

  lemma CountItem(types: Types, t: Tree<Content>, n: Byte, tail: seq<Byte>)
    requires Savable(types, t) && t.item.vals == map[Count := Int(n)] && !TypeOf(types, t.item.id).fluid
    requires tail == Tail(types, t)
    ensures ItemBytes(types, t)
         == [t.item.id % 256, t.item.id / 256] + (if TypeOf(types, t.item.id).stackable then [15, n] else []) + tail
  {
    TwoBytes(t.item.id);
    CountBytes(TypeOf(types, t.item.id), n, FIELDS);
  }

  lemma CoinBytes(types: Types, id: nat, n: Byte)
    requires id in types && id < 0x1_0000 && types[id].stackable && !types[id].fluid && !types[id].container
    ensures var coins := Tree(Content(id, map[Count := Int(n)]), []);
            Savable(types, coins) && ItemBytes(types, coins) == [id % 256, id / 256, 15, n, 0]
  {
    CountItem(types, Tree(Content(id, map[Count := Int(n)]), []), n, [0]);
  }

  /** A bag with a stack of coins in it, byte by byte. */
  method SavePurse(types: Types, bag: nat, id: nat, n: Byte) returns (bytes: seq<Byte>)
    requires id in types && id < 0x1_0000 && types[id].stackable && !types[id].fluid && !types[id].container
    requires bag in types && bag < 0x1_0000 && types[bag].container && !types[bag].stackable && !types[bag].fluid
    ensures bytes == [bag % 256, bag / 256, 23, 1, 0, 0, 0, id % 256, id / 256, 15, n, 0, 0]
  {
    var coins := Tree(Content(id, map[Count := Int(n)]), []);
    CoinBytes(types, id, n);
    PurseBytes(types, bag, coins);
    var stream := new PropWriteStream();
    IOMapSerialize.SaveItem(stream, types, Tree(Content(bag, map[Count := Int(1)]), [coins]));
    bytes := stream.buffer;
  }

  lemma PurseBytes(types: Types, bag: nat, coins: Tree<Content>)
    requires bag in types && bag < 0x1_0000 && types[bag].container && !types[bag].stackable && !types[bag].fluid
    requires Savable(types, coins)
    ensures var purse := Tree(Content(bag, map[Count := Int(1)]), [coins]);
            && Savable(types, purse)
            && ItemBytes(types, purse) == [bag % 256, bag / 256, 23, 1, 0, 0, 0] + ItemBytes(types, coins) + [0]
  {
    var purse, inside := Tree(Content(bag, map[Count := Int(1)]), [coins]), ItemBytes(types, coins);
    PurseTail(types, purse, coins, inside);
    CountItem(types, purse, 1, [23, 1, 0, 0, 0] + inside + [0]);
  }

  lemma PurseTail(types: Types, purse: Tree<Content>, coins: Tree<Content>, inside: seq<Byte>)
    requires Savable(types, purse) && TypeOf(types, purse.item.id).container && purse.contents == [coins]
    requires Savable(types, coins) && inside == ItemBytes(types, coins)
    ensures Tail(types, purse) == [23, 1, 0, 0, 0] + inside + [0]
  {
    FourBytes();
    OneInside(types, coins);
  }

  lemma OneInside(types: Types, coins: Tree<Content>)
    requires Savable(types, coins)
    ensures ContentsBytes(types, [coins]) == ItemBytes(types, coins)
  {
    var inside := ItemBytes(types, coins);
    assert [coins][..0] == [] && ContentsBytes(types, [coins]) == inside + ContentsBytes(types, []) == inside;
  }

  lemma FourBytes()
    ensures EncodeInt(4, 1) == [1, 0, 0, 0]
  {
    assert EncodeInt(4, 1) == [1] + EncodeInt(3, 0) && EncodeInt(3, 0) == [0] + EncodeInt(2, 0);
    TwoBytes(0);
  }
}
