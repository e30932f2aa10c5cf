/**
 What an item is made of: its type, its count and its attributes; and what it is
 created with.
 */
module Items {
  import opened Common

  // ------------------------------------------------------------- numbers

  /** The number of patterns of 1, 2 or 4 bytes. */
  function Range(width: nat): (r: nat) {
    if width == 1 then 0x100 else if width == 2 then 0x1_0000 else 0x1_0000_0000
  }

  /** The unsigned and the two's complement reading of the low bytes of a number. */
  function Unsigned(width: nat, x: int): nat {
    x % Range(width)
  }

  function Signed(width: nat, x: int): int {
    var m := x % Range(width);
    if 2 * m < Range(width) then m else m - Range(width)
  }

  type Word = w: int | 0 <= w < 0x1_0000

  // --------------------------------------------------- types and attributes

  datatype ItemType = ItemType(
    id: nat, container: bool, maxItems: nat, stackable: bool, fluid: bool, moveable: bool, pickupable: bool,
    charges: Word, weight: nat, decayTime: nat, decayTo: int, stopTime: bool)

  /** A value attached to an item: its count field, or one of its attributes. */
  datatype Key =
    | Count | Charges | FluidType | ActionId | Text | Date | Writer | Description | Duration | DecayState
    | Name | Article | PluralName | Weight | Attack | Defense | ExtraDefense | Armor | HitChance | ShootRange
    | UniqueId | Owner | CorpseOwner | DoorId

  datatype Val = Int(n: int) | Str(s: seq<Byte>)

  type Vals = map<Key, Val>

  /** An item as a value: its id, count and attributes. */
  datatype Content = Content(id: nat, vals: Vals)

  function IsStr(k: Key): bool {
    k in {Text, Writer, Description, Name, Article, PluralName}
  }

  /** Values are of their kind, 16 or 32 bits wide; the count field is a byte and always there; no string is empty. */
  ghost predicate WellTyped(item: Content) {
    && item.id < 0x1_0000 && Count in item.vals
    && forall k :: k in item.vals ==>
         if IsStr(k) then item.vals[k].Str? && item.vals[k].s != []
         else item.vals[k].Int? && item.vals[k].n == (if k == Count then item.vals[k].n % 256 else Signed(4, item.vals[k].n))
  }

  function IntAttr(vals: Vals, k: Key): int {
    if k in vals && vals[k].Int? then vals[k].n else 0
  }

  function StrAttr(vals: Vals, k: Key): seq<Byte> {
    if k in vals && vals[k].Str? then vals[k].s else []
  }

  /** The count field is a byte. */
  function SetInt(vals: Vals, k: Key, n: int): Vals {
    vals[k := Int(if k == Count then n % 256 else n)]
  }

  /** What `setSubType` sets for a type. */
  function SubTypeKey(ty: ItemType): Key {
    if ty.fluid then FluidType else if ty.stackable then Count else if ty.charges != 0 then Charges else Count
  }

  function SubType(ty: ItemType, vals: Vals): int {
    var k := SubTypeKey(ty);
    if k == Count then IntAttr(vals, k) else Unsigned(2, IntAttr(vals, k))
  }

  // --------------------------------------------------------------- creation

  /** How long an item of a type lasts, in milliseconds; 0 when it does not decay by time. */
  function DefaultDuration(ty: ItemType): nat {
    Unsigned(4, ty.decayTime * 1000)
  }

  /** The values the constructor gives an item of a type and a count. */
  function Constructed(ty: ItemType, count: nat): Vals {
    var base := map[Count := Int(1)];
    var sub := if ty.fluid then base[FluidType := Int(count)]
               else if ty.stackable then
                 if count != 0 then SetInt(base, Count, count)
                 else if ty.charges != 0 then SetInt(base, Count, ty.charges) else base
               else if ty.charges != 0 then base[Charges := Int(if count != 0 then count else ty.charges)] else base;
    if DefaultDuration(ty) != 0 then sub[Duration := Int(Signed(4, DefaultDuration(ty)))] else sub
  }

  type Types = map<nat, ItemType>

  function TypeOf(types: Types, id: nat): (ty: ItemType)
    ensures ty.id == id
  {
    (if id in types then types[id] else ItemType(0, false, 0, false, false, false, false, 0, 0, 0, -1, false)).(id := id)
  }

  /** A few plain types are replaced by their successors when an item is created. */
  function CreatedId(types: Types, id: nat): nat {
    if TypeOf(types, id).container then id
    else if 2210 <= id <= 2212 then id - 3
    else if id == 2215 || id == 2216 then id - 2
    else if 2202 <= id <= 2206 then id - 37
    else if id == 2640 then 6132
    else if id == 6301 then 6300
    else id
  }

  /** The types that are replaced, and what by. */
  const SUCCESSORS: map<nat, nat> := map[
    2202 := 2165, 2203 := 2166, 2204 := 2167, 2205 := 2168, 2206 := 2169, 2210 := 2207, 2211 := 2208, 2212 := 2209,
    2215 := 2213, 2216 := 2214, 2640 := 6132, 6301 := 6300]

  /** The type of the item created; it is a container object only if one was asked for. */
  function CreatedType(types: Types, id: nat): (ty: ItemType)
    ensures ty.id == CreatedId(types, id)
  {
    TypeOf(types, CreatedId(types, id)).(container := TypeOf(types, id).container)
  }

  lemma NotReplaced(types: Types, id: nat)
    ensures CreatedId(types, id) == if !TypeOf(types, id).container && id in SUCCESSORS then SUCCESSORS[id] else id
    ensures CreatedId(types, id) == id <==> TypeOf(types, id).container || id !in SUCCESSORS
    ensures CreatedId(types, id) == id ==> CreatedType(types, id) == TypeOf(types, id)
  {}

  /** How an item of type `asked` is made: no stack of nothing is, and containers ignore the count. */
  function Created(asked: ItemType, ty: ItemType, count: nat): Vals {
    Constructed(ty, if asked.container then 0 else if asked.stackable && count == 0 then 1 else count)
  }

  // ------------------------------------------------- attributes of an object

  /** An item's attribute object: absent, or values by key. */
  datatype Attributes = Absent | Present(values: Vals)

  /** The object that holds these values; the count is a field of its own. */
  function AttributesOf(vals: Vals): (a: Attributes) {
    if vals.Keys - {Count} == {} then Absent else Present(vals - {Count})
  }

  function ValsOf(a: Attributes, count: int): Vals {
    (if a.Present? then a.values else map[])[Count := Int(count)]
  }

  lemma ValsBack(vals: Vals)
    requires Count in vals && vals[Count].Int?
    ensures ValsOf(AttributesOf(vals), vals[Count].n) == vals
  {
    if vals.Keys - {Count} == {} {
      forall k | k in vals ensures k == Count {
        assert k !in vals.Keys - {Count};
      }
    }
  }

  function Without(a: Attributes, keys: set<Key>): Attributes {
    if a.Present? then Present(a.values - keys) else a
  }

  function With(a: Attributes, key: Key, value: int): Attributes {
    Present((if a.Present? then a.values else map[])[key := Int(value)])
  }

  predicate Has(a: Attributes, key: Key) {
    a.Present? && key in a.values
  }
}
