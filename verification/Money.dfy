/** Paying: coins taken out of everything a player carries, and change given back. */
module Money {
  import opened Common

  const GOLD := 2148
  const PLATINUM := 2152
  const CRYSTAL := 2160
  const BAR := 17100

  const TWO16 := 0x1_0000
  const TWO32 := 0x1_0000_0000

  /** What one coin is worth, 0 for other items. */
  function Unit(id: int): nat {
    if id == GOLD then 1 else if id == PLATINUM then 100 else if id == CRYSTAL then 10000 else if id == BAR then 1000000 else 0
  }

  /** A stack of coins as it is created. */
  datatype Coins = Coins(id: int, count: nat)

  function Value(coins: seq<Coins>): nat {
    if coins == [] then 0 else coins[0].count * Unit(coins[0].id) + Value(coins[1..])
  }

  lemma {:induction false} ValueConcat(a: seq<Coins>, b: seq<Coins>)
    ensures Value(a + b) == Value(a) + Value(b)
  {
    if a == [] {
      assert a + b == b;
    } else {
      ValueConcat(a[1..], b);
      assert (a + b)[1..] == a[1..] + b;
    }
  }

  /** How many coins of a kind there are. */
  function CoinsOf(coins: seq<Coins>, id: int): nat {
    if coins == [] then 0 else (if coins[0].id == id then coins[0].count else 0) + CoinsOf(coins[1..], id)
  }

  lemma {:induction false} CoinsConcat(a: seq<Coins>, b: seq<Coins>, id: int)
    ensures CoinsOf(a + b, id) == CoinsOf(a, id) + CoinsOf(b, id)
  {
    if a == [] {
      assert a + b == b;
    } else {
      CoinsConcat(a[1..], b, id);
      assert (a + b)[1..] == a[1..] + b;
    }
  }

  /** As many crystal coins as go into the amount, as many platinum coins as go into the rest, and gold coins for what is left. */
  ghost predicate Largest(added: seq<Coins>, money: nat) {
    && CoinsOf(added, CRYSTAL) == money / 10000 && CoinsOf(added, PLATINUM) == money % 10000 / 100
    && CoinsOf(added, GOLD) == money % 100
  }

  /** A new stack: a count of none becomes one, and only the low byte is kept. */
  function CreateItem(id: int, count: nat): Coins {
    Coins(id, Kept(count))
  }

  function Kept(count: nat): nat {
    if count % TWO16 == 0 then 1 else count % TWO16 % 256
  }

  lemma OneStack(id: int, count: nat)
    ensures Value([CreateItem(id, count)]) == Kept(count) * Unit(id)
    ensures 1 <= count <= 100 ==> Kept(count) == count
  {
    if 1 <= count <= 100 {
      Quotient(count, TWO16, 0, count);
      Quotient(count, 256, 0, count);
    }
  }

  /** The amounts the coins come out right for: the 32-bit product does not overflow, or by luck is not missed. */
  predicate Exact(money: nat) {
    var crystals := money / 10000;
    var overflow := crystals * 10000 / TWO32;
    crystals < TWO32 && (overflow == 0 || (overflow % 25 == 0 && money % 100 != 0))
  }

  /** What is handed out in platinum and gold for the part `left` after the crystal coins. */
  function SmallWorth(left: nat): nat {
    100 * (left / 100 % 256) + if left % 100 != 0 then left % 100 else if left / 100 >= TWO16 then 1 else 0
  }

  /** What is left for gold coins after the platinum ones. */
  lemma LeftForGold(left: nat)
    ensures var g := left - 100 * (left / 100 % TWO16);
            g >= 0 && g % TWO16 == left % 100 && (g == 0 <==> left % 100 == 0 && left / 100 < TWO16)
    ensures left / 100 % TWO16 % 256 == left / 100 % 256
  {
    var p := left / 100;
    var j := p / TWO16;
    assert p == j * TWO16 + p % TWO16;
    assert left - 100 * (p % TWO16) == (100 * j) * TWO16 + left % 100;
    Quotient((100 * j) * TWO16 + left % 100, TWO16, 100 * j, left % 100);
    var low := p % TWO16;
    assert p == (256 * j + low / 256) * 256 + low % 256;
    Quotient(p, 256, 256 * j + low / 256, low % 256);
  }

  /**
   An overflow by a multiple of 25 times 2^32 leaves the small coins what they should be,
   up to a gold coin too many.
   */
  lemma MissedOverflow(r: nat, k: nat)
    requires r < 10000 && k > 0 && k % 25 == 0
    ensures SmallWorth(r + k * TWO32) == r <==> r % 100 != 0
  {
    var m := k / 25;
    var a := r + k * TWO32;
    assert a == (r / 100 + m * 0x4000_0000) * 100 + r % 100;
    Quotient(a, 100, r / 100 + m * 0x4000_0000, r % 100);
    assert r / 100 + m * 0x4000_0000 == (m * 0x40_0000) * 256 + r / 100;
    Quotient(r / 100 + m * 0x4000_0000, 256, m * 0x40_0000, r / 100);
  }

  /** Any other overflow shows. */
  lemma SeenOverflow(r: nat, k: nat)
    requires r < 10000 && k % 25 != 0
    ensures SmallWorth(r + k * TWO32) != r
  {
    var a := r + k * TWO32;
    var q := a / 100;
    Quotient(SmallWorth(a), 100, q % 256, SmallWorth(a) % 100);
    assert a == 100 * q + a % 100 && r == 100 * (r / 100) + r % 100;
    assert TWO32 == 100 * 42949672 + 96;
    assert a % 100 - r % 100 == 96 * k + 100 * (r / 100 + k * 42949672 - q);
    NotAMultiple(k, a % 100 - r % 100, r / 100 + k * 42949672 - q);
  }

  lemma NotAMultiple(k: nat, difference: int, z: int)
    requires k % 25 != 0 && difference == 96 * k + 100 * z
    ensures difference != 0 && difference != -1
  {
    if difference == 0 {
      assert 24 * k == -25 * z;
      assert k == 25 * (k + z);
      Quotient(k, 25, k + z, 0);
    }
  }

  lemma WithoutOverflow(r: nat)
    requires r < 10000
    ensures SmallWorth(r) == r
  {
    Quotient(r / 100, 256, 0, r / 100);
  }

  /** The coins are worth the amount exactly when it is one they come out right for. */
  lemma ExactIff(money: nat)
    ensures var crystals := money / 10000 % TWO32;
            crystals * 10000 % TWO32 <= money &&
            (crystals * 10000 + SmallWorth(money - crystals * 10000 % TWO32) == money <==> Exact(money))
  {
    var q := money / 10000;
    if q < TWO32 {
      Quotient(q, TWO32, 0, q);
      ExactBelow(q, money % 10000);
    } else {
      assert q % TWO32 + TWO32 <= q;
    }
  }

  lemma ExactBelow(q: nat, r: nat)
    requires q < TWO32 && r < 10000
    ensures SmallWorth(10000 * q + r - q * 10000 % TWO32) == r <==> Exact(10000 * q + r)
  {
    var k := q * 10000 / TWO32;
    assert 10000 * q + r - q * 10000 % TWO32 == r + k * TWO32;
    Quotient(10000 * q + r, 100, 100 * q + r / 100, r % 100);
    Quotient(10000 * q + r, 10000, q, r);
    if k == 0 {
      WithoutOverflow(r);
    } else if k % 25 == 0 {
      MissedOverflow(r, k);
    } else {
      SeenOverflow(r, k);
    }
  }

  /** The least amount whose product overflows, and one that comes out right although its product does. */
  lemma ShortChange()
    ensures !Exact(4294970000) && forall money: nat :: money < 4294970000 ==> Exact(money)
    ensures Exact(107374190001)
  {
    Quotient(107374190001, 10000, 10737419, 1);
    Quotient(107374190000, TWO32, 25, 7600);
  }

  /** Hands out an amount as crystal, platinum and gold coins. */
  method AddMoney(money: nat) returns (added: seq<Coins>)
    ensures Value(added) == money <==> Exact(money)
    ensures money / 10000 * 10000 < TWO32 ==> Neat(added, money) && Largest(added, money)
  {
    added := [];
    if money == 0 {
      return;
    }
    ExactIff(money);
    var crystalCoins := money / 10000 % TWO32;
    var left := money - crystalCoins * 10000 % TWO32;
    var large := AddCrystals(crystalCoins);
    var small := AddSmall(left);
    ValueConcat(large, small);
    if money / 10000 * 10000 < TWO32 {
      LeftOver(money);
      assert crystalCoins > 0 ==> Unit(CRYSTAL) <= money;
      LargestJoined(large, small, money);
    }
    added := large + small;
  }

  lemma LargestJoined(large: seq<Coins>, small: seq<Coins>, money: nat)
    requires CoinsOf(large, CRYSTAL) == money / 10000 && CoinsOf(large, PLATINUM) == CoinsOf(large, GOLD) == 0
    requires Largest(small, money % 10000)
    ensures Largest(large + small, money)
  {
    CoinsConcat(large, small, CRYSTAL);
    CoinsConcat(large, small, PLATINUM);
    CoinsConcat(large, small, GOLD);
    Quotient(money % 10000, 10000, 0, money % 10000);
    Quotient(money, 100, 100 * (money / 10000) + money % 10000 / 100, money % 10000 % 100);
  }

  lemma LeftOver(money: nat)
    requires money / 10000 * 10000 < TWO32
    ensures money / 10000 % TWO32 == money / 10000 && money - money / 10000 * 10000 % TWO32 == money % 10000
  {
    Quotient(money / 10000, TWO32, 0, money / 10000);
    Quotient(money / 10000 * 10000, TWO32, 0, money / 10000 * 10000);
  }

  /** No stack is empty or over a hundred, and no coin is worth more than the amount. */
  ghost predicate Neat(added: seq<Coins>, money: nat) {
    forall k :: 0 <= k < |added| ==> 1 <= added[k].count <= 100 && 0 < Unit(added[k].id) <= money
  }

  ghost function Small(platinum: nat, gold: nat): seq<Coins> {
    (if platinum == 0 then [] else [CreateItem(PLATINUM, platinum)]) + if gold == 0 then [] else [CreateItem(GOLD, gold)]
  }

  lemma SmallValue(left: nat, platinum: nat, gold: nat)
    requires platinum == left / 100 % TWO16 && gold == left - 100 * platinum
    ensures Value(Small(platinum, gold)) == SmallWorth(left)
  {
    LeftForGold(left);
    PlatinumKept(platinum);
    GoldKept(gold, left % 100);
    OneStack(PLATINUM, platinum);
    OneStack(GOLD, gold);
    ValueConcat(if platinum == 0 then [] else [CreateItem(PLATINUM, platinum)],
                if gold == 0 then [] else [CreateItem(GOLD, gold)]);
  }

  lemma SmallNeat(left: nat)
    requires left < 10000
    ensures var coins := Small(left / 100, left % 100); Neat(coins, left) && Largest(coins, left)
  {
    var p, g := left / 100, left % 100;
    OneStack(PLATINUM, p);
    OneStack(GOLD, g);
    var large, small := if p == 0 then [] else [CreateItem(PLATINUM, p)], if g == 0 then [] else [CreateItem(GOLD, g)];
    CoinsConcat(large, small, CRYSTAL);
    CoinsConcat(large, small, PLATINUM);
    CoinsConcat(large, small, GOLD);
  }

  method AddSmall(left: nat) returns (added: seq<Coins>)
    ensures Value(added) == SmallWorth(left)
    ensures left < 10000 ==> Neat(added, left) && Largest(added, left)
  {
    LeftForGold(left);
    added := [];
    var money := left;
    var platinumCoins := money / 100 % TWO16;
    if platinumCoins != 0 {
      added := [CreateItem(PLATINUM, platinumCoins)];
      money := money - platinumCoins * 100;
    }
    if money != 0 {
      added := added + [CreateItem(GOLD, money)];
    }
    assert added == Small(platinumCoins, money);
    SmallValue(left, platinumCoins, money);
    if left < 10000 {
      Quotient(left / 100, TWO16, 0, left / 100);
      SmallNeat(left);
    }
  }

  lemma PlatinumKept(platinumCoins: nat)
    requires platinumCoins < TWO16
    ensures platinumCoins != 0 ==> Kept(platinumCoins) == platinumCoins % 256
  {
    Quotient(platinumCoins, TWO16, 0, platinumCoins);
  }

  lemma GoldKept(money: nat, coins: nat)
    requires money % TWO16 == coins < 100
    ensures Kept(money) == if coins == 0 then 1 else coins
  {
    Quotient(coins, 256, 0, coins);
  }

  /** Creates a stack and adds it. */
  method Give(added0: seq<Coins>, id: int, count: nat) returns (added: seq<Coins>)
    ensures added == added0 + [CreateItem(id, count)] && Value(added) == Value(added0) + Kept(count) * Unit(id)
    ensures forall kind :: CoinsOf(added, kind) == CoinsOf(added0, kind) + if kind == id then Kept(count) else 0
  {
    OneStack(id, count);
    forall kind ensures CoinsOf(added0 + [CreateItem(id, count)], kind) ==
                        CoinsOf(added0, kind) + if kind == id then Kept(count) else 0
    {
      CoinsConcat(added0, [CreateItem(id, count)], kind);
    }
    ValueConcat(added0, [CreateItem(id, count)]);
    added := added0 + [CreateItem(id, count)];
  }

  method AddCrystals(crystalCoins: nat) returns (added: seq<Coins>)
    ensures Value(added) == crystalCoins * 10000
    ensures forall k :: 0 <= k < |added| ==> 1 <= added[k].count <= 100 && added[k].id == CRYSTAL
    ensures crystalCoins == 0 ==> added == []
    ensures CoinsOf(added, CRYSTAL) == crystalCoins && CoinsOf(added, PLATINUM) == CoinsOf(added, GOLD) == 0
  {
    added := [];
    var left := crystalCoins;
    while left > 0
      invariant Value(added) + left * 10000 == crystalCoins * 10000
      invariant forall k :: 0 <= k < |added| ==> 1 <= added[k].count <= 100 && added[k].id == CRYSTAL
      invariant 0 <= left <= crystalCoins && (left == crystalCoins ==> added == [])
      invariant CoinsOf(added, CRYSTAL) + left == crystalCoins && CoinsOf(added, PLATINUM) == CoinsOf(added, GOLD) == 0
    {
      var count := if left < 100 then left else 100;
      OneStack(CRYSTAL, count);
      added := Give(added, CRYSTAL, count);
      left := left - count;
    }
  }

  /** A stack of coins, or another item that holds nothing, somewhere a player keeps things. */
  class Stack {
    const id: int
    var count: nat
    var here: bool  // until it is taken out

    constructor (id: int, count: nat)
      ensures this.id == id && this.count == count && here
    {
      this.id := id;
      this.count := count;
      here := true;
    }

    function Worth(): nat
      reads this`count
    {
      count * Unit(id)
    }
  }

  /** A thing in a slot or a container. */
  datatype Thing = Nothing | Single(stack: Stack) | Bag(contents: seq<Thing>)

  /** All stacks among the things, at any depth. */
  function Stacks(things: seq<Thing>): seq<Stack> {
    if things == [] then [] else StacksOf(things[0]) + Stacks(things[1..])
  }

  function StacksOf(thing: Thing): seq<Stack> {
    match thing
    case Nothing => []
    case Single(stack) => [stack]
    case Bag(contents) => Stacks(contents)
  }

  /** What is left of the stacks is worth. */
  function Total(list: seq<Stack>): nat
    reads list`here, list`count
  {
    if list == [] then 0 else Left(list[0]) + Total(list[1..])
  }

  lemma {:induction false} TotalConcat(a: seq<Stack>, b: seq<Stack>)
    ensures Total(a + b) == Total(a) + Total(b)
  {
    if a == [] {
      assert a + b == b;
    } else {
      TotalConcat(a[1..], b);
      assert (a + b)[1..] == a[1..] + b;
    }
  }

  lemma TakeOut<T>(list: seq<T>, k: nat)
    requires k < |list|
    ensures multiset(list[..k] + list[k + 1..]) == multiset(list) - multiset{list[k]}
  {
    assert list == list[..k] + ([list[k]] + list[k + 1..]);
    assert multiset(list) == multiset(list[..k]) + (multiset{list[k]} + multiset(list[k + 1..]));
  }

  function Left(stack: Stack): nat
    reads stack`here, stack`count
  {
    if stack.here then stack.Worth() else 0
  }

  lemma TotalWithout(list: seq<Stack>, k: nat)
    requires k < |list|
    ensures Total(list) == Left(list[k]) + Total(list[..k] + list[k + 1..])
  {
    TotalSplit(list, k);
    TotalConcat(list[..k], list[k + 1..]);
  }

  lemma SameWithout(a: seq<Stack>, b: seq<Stack>, k: nat)
    requires multiset(a) == multiset(b) && a != [] && k < |b| && b[k] == a[0]
    ensures multiset(a[1..]) == multiset(b[..k] + b[k + 1..])
  {
    TakeFirst(a);
    TakeOut(b, k);
  }

  lemma TakeFirst<T>(list: seq<T>)
    requires list != []
    ensures multiset(list[1..]) == multiset(list) - multiset{list[0]}
  {
    assert list == [list[0]] + list[1..];
  }

  /** The order of the stacks does not matter. */
  lemma {:induction false} TotalOfSame(a: seq<Stack>, b: seq<Stack>)
    requires multiset(a) == multiset(b)
    ensures Total(a) == Total(b)
  {
    if a == [] {
      assert |multiset(b)| == 0;
    } else {
      var k := Find(a, b);
      SameWithout(a, b, k);
      TotalOfSame(a[1..], b[..k] + b[k + 1..]);
      TotalWithout(b, k);
    }
  }

  lemma Find(a: seq<Stack>, b: seq<Stack>) returns (k: nat)
    requires multiset(a) == multiset(b) && a != []
    ensures k < |b| && b[k] == a[0]
  {
    assert a[0] in multiset(b);
    k :| 0 <= k < |b| && b[k] == a[0];
  }

  lemma {:induction false} StacksConcat(a: seq<Thing>, b: seq<Thing>)
    ensures Stacks(a + b) == Stacks(a) + Stacks(b)
  {
    if a == [] {
      assert a + b == b;
    } else {
      StacksConcat(a[1..], b);
      assert (a + b)[1..] == a[1..] + b;
      Associate(StacksOf(a[0]), Stacks(a[1..]), Stacks(b));
    }
  }

  /** The stacks in containers not yet looked into. */
  function Inside(containers: seq<seq<Thing>>): seq<Stack> {
    if containers == [] then [] else Stacks(containers[0]) + Inside(containers[1..])
  }

  lemma {:induction false} InsideConcat(a: seq<seq<Thing>>, b: seq<seq<Thing>>)
    ensures Inside(a + b) == Inside(a) + Inside(b)
  {
    if a == [] {
      assert a + b == b;
    } else {
      InsideConcat(a[1..], b);
      assert (a + b)[1..] == a[1..] + b;
      Associate(Stacks(a[0]), Inside(a[1..]), Inside(b));
    }
  }

  datatype Entry = Entry(worth: nat, stack: Stack)

  function Entries(map': seq<Entry>): (list: seq<Stack>)
    ensures |list| == |map'| && forall k :: 0 <= k < |list| ==> list[k] == map'[k].stack
  {
    seq(|map'|, k requires 0 <= k < |map'| => map'[k].stack)
  }

  ghost predicate Sorted(moneyMap: seq<Entry>) {
    forall j, k :: 0 <= j < k < |moneyMap| ==> moneyMap[j].worth <= moneyMap[k].worth
  }

  /** Adds an entry behind those worth no more. */
  method Emplace(moneyMap: seq<Entry>, entry: Entry) returns (map': seq<Entry>, ghost at: nat)
    requires Sorted(moneyMap)
    ensures Sorted(map') && at <= |moneyMap| && map' == moneyMap[..at] + ([entry] + moneyMap[at..])
  {
    at := 0;
    var k := |moneyMap|;
    while k > 0 && moneyMap[k - 1].worth > entry.worth
      invariant 0 <= k <= |moneyMap|
      invariant forall j :: k <= j < |moneyMap| ==> moneyMap[j].worth > entry.worth
    {
      k := k - 1;
    }
    at := k;
    map' := moneyMap[..k] + ([entry] + moneyMap[k..]);
  }

  /** Every entry is a stack in place, under its worth. */
  ghost predicate Listed(moneyMap: seq<Entry>)
    reads Entries(moneyMap)`here, Entries(moneyMap)`count
  {
    forall k :: 0 <= k < |moneyMap| ==>
      moneyMap[k].stack.here && moneyMap[k].worth == moneyMap[k].stack.Worth() != 0
  }

  ghost predicate Worthless(rest: seq<Stack>)
    reads rest`count
  {
    forall k :: 0 <= k < |rest| ==> rest[k].Worth() == 0
  }

  lemma {:induction false} WorthlessTotal(rest: seq<Stack>)
    requires Worthless(rest)
    ensures Total(rest) == 0
  {
    if rest != [] {
      WorthlessTotal(rest[1..]);
    }
  }

  /** What a search has found so far, and what is still inside the containers it has to look into. */
  ghost predicate Found(moneyMap: seq<Entry>, moneyCount: nat, rest: seq<Stack>, pending: multiset<Stack>,
          all: multiset<Stack>)
    reads Entries(moneyMap)`here, Entries(moneyMap)`count, rest`count
  {
    && Sorted(moneyMap) && Listed(moneyMap) && Worthless(rest) && moneyCount == Total(Entries(moneyMap))
    && multiset(Entries(moneyMap)) + multiset(rest) + pending == all
  }

  lemma EntriesInserted(moneyMap: seq<Entry>, entry: Entry, at: nat)
    requires at <= |moneyMap|
    ensures var after := moneyMap[..at] + ([entry] + moneyMap[at..]);
            && multiset(Entries(after)) == multiset(Entries(moneyMap)) + multiset{entry.stack}
            && Total(Entries(after)) == Total(Entries(moneyMap)) + Left(entry.stack)
  {
    var list, after := Entries(moneyMap), moneyMap[..at] + ([entry] + moneyMap[at..]);
    assert Entries(after) == list[..at] + ([entry.stack] + list[at..]);
    assert list == list[..at] + list[at..];
    TotalConcat(list[..at], [entry.stack] + list[at..]);
    TotalConcat([entry.stack], list[at..]);
    TotalConcat(list[..at], list[at..]);
  }

  method NoteCoins(moneyMap: seq<Entry>, stack: Stack, worth: nat) returns (map': seq<Entry>)
    requires Sorted(moneyMap) && Listed(moneyMap) && stack.here && worth == stack.Worth() != 0
    ensures Sorted(map') && Listed(map') && Total(Entries(map')) == Total(Entries(moneyMap)) + worth
    ensures multiset(Entries(map')) == multiset(Entries(moneyMap)) + multiset{stack}
  {
    ghost var at;
    map', at := Emplace(moneyMap, Entry(worth, stack));
    EntriesInserted(moneyMap, Entry(worth, stack), at);
  }

  method Note(moneyMap: seq<Entry>, moneyCount: nat, stack: Stack, ghost rest: seq<Stack>,
          ghost pending: multiset<Stack>, ghost all: multiset<Stack>)
    returns (map': seq<Entry>, count': nat, ghost rest': seq<Stack>)
    requires stack.here && Found(moneyMap, moneyCount, rest, pending + multiset{stack}, all)
    ensures Found(map', count', rest', pending, all)
  {
    map', count', rest' := moneyMap, moneyCount, rest;
    var worth := stack.Worth();
    if worth != 0 {
      count' := count' + worth;
      map' := NoteCoins(moneyMap, stack, worth);
    } else {
      rest' := rest + [stack];
    }
  }

  function SizeOf(thing: Thing): nat {
    match thing
    case Bag(contents) => 1 + Size(contents)
    case _ => 1
  }

  function Size(things: seq<Thing>): nat {
    if things == [] then 0 else SizeOf(things[0]) + Size(things[1..])
  }

  /** The looking that containers still take. */
  function Work(containers: seq<seq<Thing>>): nat {
    if containers == [] then 0 else 1 + Size(containers[0]) + Work(containers[1..])
  }

  lemma {:induction false} WorkAdded(containers: seq<seq<Thing>>, contents: seq<Thing>)
    ensures Work(containers + [contents]) == Work(containers) + 1 + Size(contents)
  {
    if containers == [] {
      assert containers + [contents] == [contents];
    } else {
      WorkAdded(containers[1..], contents);
      assert (containers + [contents])[1..] == containers[1..] + [contents];
    }
  }

  lemma InsideAdded(containers: seq<seq<Thing>>, i: nat, contents: seq<Thing>)
    requires i <= |containers|
    ensures multiset(Inside((containers + [contents])[i..])) == multiset(Inside(containers[i..])) + multiset(Stacks(contents))
    ensures Work((containers + [contents])[i..]) == Work(containers[i..]) + 1 + Size(contents)
  {
    assert (containers + [contents])[i..] == containers[i..] + [contents];
    InsideConcat(containers[i..], [contents]);
    WorkAdded(containers[i..], contents);
    assert Inside([contents]) == Stacks(contents);
  }

  /** The state of a search: the coins found, what they are worth, and the containers met on the way. */
  datatype Search = Search(moneyMap: seq<Entry>, moneyCount: nat, containers: seq<seq<Thing>>)

  /** Containers up to `i` have been looked into; `pending` is still to be seen besides what is in the others. */
  ghost predicate Valid(s: Search, i: nat, rest: seq<Stack>, pending: multiset<Stack>, all: multiset<Stack>)
    reads all`here, Entries(s.moneyMap)`here, Entries(s.moneyMap)`count, rest`count
  {
    && i <= |s.containers| && (forall x :: x in all ==> x.here)
    && Found(s.moneyMap, s.moneyCount, rest, pending + multiset(Inside(s.containers[i..])), all)
  }

  method NoteStack(s: Search, stack: Stack, i: nat, ghost rest: seq<Stack>, ghost pending: multiset<Stack>,
          ghost all: multiset<Stack>)
    returns (s': Search, ghost rest': seq<Stack>)
    requires Valid(s, i, rest, pending + multiset{stack}, all)
    ensures Valid(s', i, rest', pending, all) && s'.containers == s.containers
  {
    ghost var others := pending + multiset(Inside(s.containers[i..]));
    assert pending + multiset{stack} + multiset(Inside(s.containers[i..])) == others + multiset{stack};
    assert stack in all;
    var map', count';
    map', count', rest' := Note(s.moneyMap, s.moneyCount, stack, rest, others, all);
    s' := Search(map', count', s.containers);
  }

  method QueueContainer(s: Search, contents: seq<Thing>, i: nat, ghost rest: seq<Stack>,
          ghost pending: multiset<Stack>, ghost all: multiset<Stack>)
    returns (s': Search)
    requires Valid(s, i, rest, pending + multiset(Stacks(contents)), all)
    ensures Valid(s', i, rest, pending, all) && Work(s'.containers[i..]) == Work(s.containers[i..]) + 1 + Size(contents)
  {
    InsideAdded(s.containers, i, contents);
    assert pending + multiset(Stacks(contents)) + multiset(Inside(s.containers[i..])) ==
           pending + multiset(Inside((s.containers + [contents])[i..]));
    s' := s.(containers := s.containers + [contents]);
  }

  /** Sees to one thing: coins are noted, a container is put on the list. */
  method LookAt(s: Search, thing: Thing, i: nat, ghost rest: seq<Stack>, ghost pending: multiset<Stack>,
          ghost all: multiset<Stack>)
    returns (s': Search, ghost rest': seq<Stack>)
    requires Valid(s, i, rest, pending + multiset(StacksOf(thing)), all)
    ensures Valid(s', i, rest', pending, all) && Work(s'.containers[i..]) <= Work(s.containers[i..]) + SizeOf(thing)
  {
    s', rest' := s, rest;
    match thing
    case Nothing =>
      assert pending + multiset(StacksOf(thing)) == pending;
    case Single(stack) =>
      assert StacksOf(thing) == [stack];
      s', rest' := NoteStack(s, stack, i, rest, pending, all);
    case Bag(contents) =>
      s' := QueueContainer(s, contents, i, rest, pending, all);
  }

  method LookInto(s: Search, things: seq<Thing>, i: nat, ghost rest: seq<Stack>, ghost all: multiset<Stack>)
    returns (s': Search, ghost rest': seq<Stack>)
    requires Valid(s, i, rest, multiset(Stacks(things)), all)
    ensures Valid(s', i, rest', multiset{}, all) && Work(s'.containers[i..]) <= Work(s.containers[i..]) + Size(things)
  {
    s', rest' := s, rest;
    assert things[0..] == things;
    for k := 0 to |things|
      invariant Valid(s', i, rest', multiset(Stacks(things[k..])), all)
      invariant Work(s'.containers[i..]) + Size(things[k..]) <= Work(s.containers[i..]) + Size(things)
    {
      ghost var left := things[k..];
      assert left[0] == things[k] && left[1..] == things[k + 1..];
      s', rest' := LookAt(s', things[k], i, rest', multiset(Stacks(things[k + 1..])), all);
    }
  }

  method LookNext(s: Search, i: nat, ghost rest: seq<Stack>, ghost all: multiset<Stack>)
    returns (s': Search, ghost rest': seq<Stack>)
    requires 0 < i <= |s.containers| && Valid(s, i - 1, rest, multiset{}, all)
    ensures Valid(s', i, rest', multiset{}, all) && Work(s'.containers[i..]) < Work(s.containers[i - 1..])
  {
    ghost var left := s.containers[i - 1..];
    assert left[0] == s.containers[i - 1] && left[1..] == s.containers[i..];
    s', rest' := LookInto(s, s.containers[i - 1], i, rest, all);
  }

  /** Looks through the slots and then, first come first served, through all containers met on the way. */
  method LookThrough(slots: seq<Thing>) returns (moneyMap: seq<Entry>, moneyCount: nat, ghost rest: seq<Stack>)
    requires forall x :: x in Stacks(slots) ==> x.here
    ensures Sorted(moneyMap) && Listed(moneyMap) && Worthless(rest) && moneyCount == Total(Entries(moneyMap))
    ensures multiset(Entries(moneyMap)) + multiset(rest) == multiset(Stacks(slots))
  {
    ghost var all := multiset(Stacks(slots));
    var s := Search([], 0, []);
    rest := [];
    s, rest := LookInto(s, slots, 0, rest, all);
    var i := 0;
    while i < |s.containers|
      invariant 0 <= i <= |s.containers| && Valid(s, i, rest, multiset{}, all)
      decreases Work(s.containers[i..])
    {
      i := i + 1;
      s, rest := LookNext(s, i, rest, all);
    }
    assert s.containers[i..] == [];
    moneyMap, moneyCount := s.moneyMap, s.moneyCount;
  }

  ghost predicate Among(part: seq<Stack>, all: seq<Stack>) {
    forall x :: x in part ==> x in all
  }

  ghost predicate Distinct(list: seq<Stack>) {
    forall j, k :: 0 <= j < k < |list| ==> list[j] != list[k]
  }

  lemma {:induction false} GoneTotal(list: seq<Stack>)
    requires forall k :: 0 <= k < |list| ==> !list[k].here
    ensures Total(list) == 0
  {
    if list != [] {
      GoneTotal(list[1..]);
    }
  }

  lemma TotalSplit(list: seq<Stack>, k: nat)
    requires k < |list|
    ensures Total(list) == Total(list[..k]) + Left(list[k]) + Total(list[k + 1..])
    ensures Total(list[k..]) == Left(list[k]) + Total(list[k + 1..])
  {
    assert list == list[..k] + list[k..] && list[k..] == [list[k]] + list[k + 1..];
    TotalConcat(list[..k], list[k..]);
  }

  /** The stacks from `k` on are as they were listed; those before it are gone. */
  ghost predicate PaidUpTo(moneyMap: seq<Entry>, k: nat)
    reads Entries(moneyMap)`here, Entries(moneyMap)`count
  {
    && k <= |moneyMap|
    && (forall j :: 0 <= j < k ==> !moneyMap[j].stack.here)
    && forall j :: k <= j < |moneyMap| ==> moneyMap[j].stack.here && moneyMap[j].worth == moneyMap[j].stack.Worth() != 0
  }

  /** The change is worth less than a coin of the stack that was broken, in stacks of no more than a hundred. */
  ghost predicate ChangeFor(stack: Stack, added: seq<Coins>) {
    && Value(added) < Unit(stack.id)
    && forall j :: 0 <= j < |added| ==> 1 <= added[j].count <= 100 && 0 < Unit(added[j].id) < Unit(stack.id)
  }

  /** A stack of `was` coins that is gone, or shorter. */
  predicate Touched(stack: Stack, was: nat)
    reads stack
  {
    !stack.here || stack.count < was
  }

  /** Takes the stack at `k`. */
  method TakeWhole(moneyMap: seq<Entry>, stack: Stack, k: nat)
    requires PaidUpTo(moneyMap, k) && k < |moneyMap| && Distinct(Entries(moneyMap)) && stack == moneyMap[k].stack
    modifies stack`here
    ensures PaidUpTo(moneyMap, k + 1)
    ensures Total(Entries(moneyMap)[k + 1..]) == old(Total(Entries(moneyMap)[k..])) - moneyMap[k].worth
  {
    ghost var list := Entries(moneyMap);
    TotalSplit(list, k);
    assert stack !in list[k + 1..];
    stack.here := false;
  }

  /** Takes coins from the stack at `k` and gives change. */
  method TakePart(moneyMap: seq<Entry>, stack: Stack, k: nat, left: nat) returns (added: seq<Coins>)
    requires PaidUpTo(moneyMap, k) && k < |moneyMap| && Distinct(Entries(moneyMap)) && stack == moneyMap[k].stack
    requires 0 < left < moneyMap[k].worth
    modifies stack
    ensures Total(Entries(moneyMap)) + Value(added) == old(Total(Entries(moneyMap)[k..])) - left
    ensures ChangeFor(stack, added) && Touched(stack, old(stack.count)) && stack.count <= old(stack.count)
  {
    var removeCount;
    removeCount, added := GiveChange(moneyMap[k].worth, stack, left);
    TakeCoins(moneyMap, stack, k, removeCount);
  }

  method TakeCoins(moneyMap: seq<Entry>, stack: Stack, k: nat, count: nat)
    requires PaidUpTo(moneyMap, k) && k < |moneyMap| && Distinct(Entries(moneyMap)) && stack == moneyMap[k].stack
    requires 0 < count <= stack.count
    modifies stack
    ensures Total(Entries(moneyMap)) == old(Total(Entries(moneyMap)[k..])) - count * Unit(stack.id)
    ensures Touched(stack, old(stack.count)) && stack.count <= old(stack.count)
  {
    ghost var list := Entries(moneyMap);
    ghost var before, after := list[..k], list[k + 1..];
    assert stack !in after && stack !in before;
    TotalSplit(list, k);
    GoneTotal(before);
    RemoveCoins(stack, count);
    TotalSplit(list, k);
  }

  /** How many coins of the stack cover the amount, and the change for them. */
  method GiveChange(stackWorth: nat, stack: Stack, left: nat) returns (removeCount: nat, added: seq<Coins>)
    requires stackWorth == stack.Worth() && 0 < left < stackWorth
    ensures 0 < removeCount <= stack.count && Value(added) == removeCount * Unit(stack.id) - left && ChangeFor(stack, added)
  {
    WholeCoins(stack.count, Unit(stack.id), left);
    var worth := stackWorth / stack.count;
    removeCount := (left + worth - 1) / worth;
    added := AddMoney(worth * removeCount - left);
  }

  method RemoveCoins(stack: Stack, count: nat)
    requires stack.here && 0 < count <= stack.count
    modifies stack
    ensures Left(stack) == old(Left(stack)) - count * Unit(stack.id)
    ensures Touched(stack, old(stack.count)) && stack.count <= old(stack.count)
  {
    if count == stack.count {
      stack.here := false;
    } else {
      assert (stack.count - count) * Unit(stack.id) == stack.count * Unit(stack.id) - count * Unit(stack.id);
      stack.count := stack.count - count;
    }
  }

  /** Rounding up to whole coins takes no more than the stack has, and leaves less than a coin to give back. */
  lemma WholeCoins(count: nat, unit: nat, left: nat)
    requires 0 < left < count * unit && unit <= 1000000
    ensures count > 0 && unit > 0 && count * unit / count == unit
    ensures var n := (left + unit - 1) / unit;
            && 0 < n <= count && 0 <= unit * n - left < unit && (count - n) * unit == count * unit - unit * n
            && Exact(unit * n - left)
  {
    Quotient(count * unit, count, unit, 0);
    var n := (left + unit - 1) / unit;
    var r := (left + unit - 1) % unit;
    assert left + unit - 1 == n * unit + r;
    NoMoreThan(n, count, unit);
    assert (count - n) * unit == count * unit - unit * n;
    SmallIsExact(unit * n - left);
  }

  lemma NoMoreThan(n: int, count: nat, unit: nat)
    requires unit > 0
    ensures n * unit < count * unit + unit ==> n <= count
    ensures n <= 0 ==> n * unit <= 0
  {
    if n > count {
      assert (n - count - 1) * unit >= 0;
      assert n * unit == count * unit + unit + (n - count - 1) * unit;
    }
  }

  lemma SmallIsExact(money: nat)
    requires money < 1000000
    ensures Exact(money) && money / 10000 * 10000 < TWO32
  {}

  ghost function StackSet(moneyMap: seq<Entry>): set<Stack> {
    set k | 0 <= k < |moneyMap| :: moneyMap[k].stack
  }

  /**
   Pays from the first stack up to the one at `last`: those before it are gone, those behind it
   untouched, and it is the only one that may be shorter, or broken for change.
   */
  method Pay(moneyMap: seq<Entry>, money: nat) returns (added: seq<Coins>, ghost last: nat)
    requires Listed(moneyMap) && Distinct(Entries(moneyMap)) && 0 < money <= Total(Entries(moneyMap))
    modifies StackSet(moneyMap)
    ensures Total(Entries(moneyMap)) + Value(added) == old(Total(Entries(moneyMap))) - money
    ensures last < |moneyMap|
    ensures forall j :: 0 <= j < last ==> !moneyMap[j].stack.here && moneyMap[j].stack.count == old(moneyMap[j].stack.count)
    ensures var stack := moneyMap[last].stack; Touched(stack, old(stack.count)) && stack.count <= old(stack.count)
    ensures forall j :: last < j < |moneyMap| ==> unchanged(moneyMap[j].stack)
    ensures added != [] ==> ChangeFor(moneyMap[last].stack, added)
  {
    ghost var list := Entries(moneyMap);
    added := [];
    var left: nat := money;
    var k := 0;
    assert list[0..] == list;
    while true
      invariant PaidUpTo(moneyMap, k) && 0 < left <= Total(list[k..])
      invariant Total(list[k..]) - left == old(Total(Entries(moneyMap))) - money
      invariant forall j :: 0 <= j < k ==> moneyMap[j].stack.count == old(moneyMap[j].stack.count)
      invariant forall j :: k <= j < |moneyMap| ==> unchanged(moneyMap[j].stack)
      decreases |moneyMap| - k
    {
      NotAtEnd(list, k);
      Others(moneyMap, k);
      var stack, worth := moneyMap[k].stack, moneyMap[k].worth;
      if worth < left {
        TakeWhole(moneyMap, stack, k);
        left := left - worth;
      } else if worth > left {
        added := TakePart(moneyMap, stack, k, left);
        return added, k;
      } else {
        TakeWhole(moneyMap, stack, k);
        TotalSplit(list, k);
        GoneTotal(list[..k]);
        return [], k;
      }
      k := k + 1;
    }
  }

  lemma Others(moneyMap: seq<Entry>, k: nat)
    requires Distinct(Entries(moneyMap)) && k < |moneyMap|
    ensures forall j :: 0 <= j < |moneyMap| && j != k ==> moneyMap[j].stack != moneyMap[k].stack
  {
    forall j | 0 <= j < |moneyMap| && j != k ensures Entries(moneyMap)[j] != Entries(moneyMap)[k] {}
  }

  lemma NotAtEnd(list: seq<Stack>, k: nat)
    requires k <= |list| && Total(list[k..]) > 0
    ensures k < |list|
  {}

  lemma DistinctPart(part: seq<Stack>, rest: seq<Stack>, all: seq<Stack>)
    requires multiset(part) + multiset(rest) == multiset(all) && Distinct(all)
    ensures Distinct(part) && Among(part, all) && Among(rest, all) && forall x :: x in part ==> x !in rest
  {
    forall x ensures multiset(all)[x] <= 1 {
      AtMostOnce(all, x);
    }
    forall j, k | 0 <= j < k < |part| ensures part[j] != part[k] {
      TakeOut(part, j);
      var others := part[..j] + part[j + 1..];
      assert others[k - 1] == part[k];
      assert multiset(others)[part[k]] >= 1;
      assert multiset(all)[part[j]] >= multiset(part)[part[j]] == multiset(others)[part[j]] + 1;
    }
    forall x ensures multiset(all)[x] == multiset(part)[x] + multiset(rest)[x] {
    }
    forall x | x in part ensures x in all && x !in rest {
      assert multiset(part)[x] >= 1;
      assert x in multiset(all);
    }
    forall x | x in rest ensures x in all {
      assert multiset(rest)[x] >= 1;
      assert x in multiset(all);
    }
  }

  lemma {:induction false} AtMostOnce(list: seq<Stack>, x: Stack)
    requires Distinct(list)
    ensures multiset(list)[x] <= 1
  {
    if list != [] {
      AtMostOnce(list[1..], x);
      assert list == [list[0]] + list[1..];
    }
  }

  ghost function Everything(slots: seq<Thing>): set<Stack> {
    set x | x in Stacks(slots)
  }

  /** What all the coins in the slots are worth. */
  ghost function Worth(slots: seq<Thing>): nat
    reads Everything(slots)
  {
    Total(Stacks(slots))
  }

  ghost function Counts(stacks: set<Stack>): map<Stack, nat>
    reads stacks
  {
    map x | x in stacks :: x.count
  }

  /** What a stack was worth with so many coins. */
  function Once(stack: Stack, was: nat): nat {
    was * Unit(stack.id)
  }

  /**
   Of stacks with so many coins before, the cheaper ones were taken first: a stack is touched only
   when all cheaper ones are gone, at most one is shorter without being gone, and change is given
   for a dearest one touched.
   */
  ghost predicate CheapestFirst(stacks: set<Stack>, was: map<Stack, nat>, added: seq<Coins>)
    requires was.Keys == stacks
    reads stacks
  {
    && (forall x :: x in stacks ==> x.count <= was[x] && (Touched(x, was[x]) ==> Once(x, was[x]) > 0))
    && (forall x, y :: x in stacks && y in stacks && Touched(x, was[x]) && 0 < Once(y, was[y]) < Once(x, was[x]) ==> !y.here)
    && (forall x, y :: x in stacks && y in stacks && x.here && x.count < was[x] && y.here && y.count < was[y] ==> x == y)
    && (added != [] ==> exists x :: x in stacks && BrokenFor(stacks, was, x, added))
  }

  ghost predicate BrokenFor(stacks: set<Stack>, was: map<Stack, nat>, x: Stack, added: seq<Coins>)
    requires was.Keys == stacks && x in stacks
    reads stacks
  {
    && ChangeFor(x, added) && Touched(x, was[x])
    && forall y :: y in stacks && Touched(y, was[y]) ==> Once(y, was[y]) <= Once(x, was[x])
  }

  /** The entry of a stack, before, at or behind the last one touched. */
  ghost predicate EntryOk(moneyMap: seq<Entry>, was: map<Stack, nat>, last: nat, j: nat)
    requires j < |moneyMap| && moneyMap[j].stack in was
    reads Entries(moneyMap)
  {
    var stack := moneyMap[j].stack;
    && moneyMap[j].worth == Once(stack, was[stack]) > 0 && stack.count <= was[stack]
    && (j < last ==> !stack.here && stack.count == was[stack])
    && (j == last ==> Touched(stack, was[stack]))
    && (j > last ==> stack.here && stack.count == was[stack])
  }

  lemma Cheapest(moneyMap: seq<Entry>, stacks: set<Stack>, was: map<Stack, nat>, last: nat, added: seq<Coins>)
    requires Sorted(moneyMap) && last < |moneyMap| && was.Keys == stacks
    requires forall j :: 0 <= j < |moneyMap| ==> moneyMap[j].stack in stacks && EntryOk(moneyMap, was, last, j)
    requires forall x :: x in stacks ==>
               x in Entries(moneyMap) || (Once(x, was[x]) == 0 && x.here && x.count == was[x])
    requires added != [] ==> ChangeFor(moneyMap[last].stack, added)
    ensures CheapestFirst(stacks, was, added)
  {
    forall x, y | x in stacks && y in stacks && Touched(x, was[x]) && 0 < Once(y, was[y]) < Once(x, was[x])
      ensures !y.here
    {
      var i, j := At(moneyMap, x), At(moneyMap, y);
      assert EntryOk(moneyMap, was, last, i) && EntryOk(moneyMap, was, last, j);
    }
    forall x, y | x in stacks && y in stacks && x.here && x.count < was[x] && y.here && y.count < was[y] ensures x == y {
      var i, j := At(moneyMap, x), At(moneyMap, y);
      assert EntryOk(moneyMap, was, last, i) && EntryOk(moneyMap, was, last, j);
    }
    forall x | x in stacks ensures x.count <= was[x] && (Touched(x, was[x]) ==> Once(x, was[x]) > 0) {
      if x in Entries(moneyMap) {
        assert EntryOk(moneyMap, was, last, At(moneyMap, x));
      }
    }
    forall y | y in stacks && Touched(y, was[y]) ensures Once(y, was[y]) <= moneyMap[last].worth {
      assert EntryOk(moneyMap, was, last, At(moneyMap, y));
    }
    assert EntryOk(moneyMap, was, last, last);
    if added != [] {
      assert BrokenFor(stacks, was, moneyMap[last].stack, added);
    }
  }

  ghost function At(moneyMap: seq<Entry>, x: Stack): (j: nat)
    requires x in Entries(moneyMap)
    ensures j < |moneyMap| && moneyMap[j].stack == x
  {
    var j :| 0 <= j < |moneyMap| && Entries(moneyMap)[j] == x;
    j
  }

  /**
   Takes an amount out of everything in the slots, however deep. It succeeds
   exactly when the coins there are worth as much, and then what is left and the
   change are worth exactly the amount less; otherwise nothing happens. The
   cheapest stacks are taken first.
   */
  method RemoveMoney(slots: seq<Thing>, money: nat, ghost stacks: set<Stack>) returns (paid: bool, added: seq<Coins>)
    requires stacks == Everything(slots) && Distinct(Stacks(slots)) && forall x :: x in Stacks(slots) ==> x.here
    modifies stacks
    ensures paid <==> old(Worth(slots)) >= money
    ensures paid ==> Worth(slots) + Value(added) == old(Worth(slots)) - money
    ensures !paid ==> added == [] && forall x :: x in stacks ==> unchanged(x)
    ensures paid ==> CheapestFirst(stacks, old(Counts(stacks)), added)
  {
    added := [];
    if money == 0 {
      return true, added;
    }
    var moneyMap, moneyCount;
    ghost var rest;
    moneyMap, moneyCount, rest := FindMoney(slots);
    if moneyCount < money {
      return false, added;
    }
    added := PayFrom(slots, moneyMap, rest, money, stacks);
    paid := true;
  }

  method FindMoney(slots: seq<Thing>) returns (moneyMap: seq<Entry>, moneyCount: nat, ghost rest: seq<Stack>)
    requires Distinct(Stacks(slots)) && forall x :: x in Stacks(slots) ==> x.here
    ensures Sorted(moneyMap) && Listed(moneyMap) && Worthless(rest) && Parted(moneyMap, rest, slots)
    ensures moneyCount == Worth(slots) == Total(Entries(moneyMap))
  {
    moneyMap, moneyCount, rest := LookThrough(slots);
    SameTotal(slots, Entries(moneyMap), rest);
    DistinctPart(Entries(moneyMap), rest, Stacks(slots));
  }

  /** The coins found and the worthless rest make up everything in the slots. */
  ghost predicate Parted(moneyMap: seq<Entry>, rest: seq<Stack>, slots: seq<Thing>) {
    && multiset(Entries(moneyMap)) + multiset(rest) == multiset(Stacks(slots))
    && Distinct(Entries(moneyMap)) && Among(Entries(moneyMap), Stacks(slots))
    && forall x :: x in Entries(moneyMap) ==> x !in rest
  }

  /** Pays from the sorted entries of the stacks that are worth something. */
  method PayCheapest(moneyMap: seq<Entry>, money: nat, ghost stacks: set<Stack>) returns (added: seq<Coins>)
    requires Sorted(moneyMap) && Listed(moneyMap) && Distinct(Entries(moneyMap)) && 0 < money <= Total(Entries(moneyMap))
    requires StackSet(moneyMap) <= stacks
    requires forall x :: x in stacks ==> x.here && (x in Entries(moneyMap) || x.Worth() == 0)
    modifies StackSet(moneyMap)
    ensures Total(Entries(moneyMap)) + Value(added) == old(Total(Entries(moneyMap))) - money
    ensures CheapestFirst(stacks, old(Counts(stacks)), added)
  {
    ghost var was := Counts(stacks);
    assert forall k :: 0 <= k < |moneyMap| ==> Entries(moneyMap)[k] == moneyMap[k].stack;
    ghost var last;
    added, last := Pay(moneyMap, money);
    assert forall j :: 0 <= j < |moneyMap| ==> EntryOk(moneyMap, was, last, j);
    Cheapest(moneyMap, stacks, was, last, added);
  }

  method PayFrom(slots: seq<Thing>, moneyMap: seq<Entry>, ghost rest: seq<Stack>, money: nat, ghost stacks: set<Stack>)
    returns (added: seq<Coins>)
    requires Sorted(moneyMap) && Listed(moneyMap) && Worthless(rest) && Parted(moneyMap, rest, slots)
    requires 0 < money <= Worth(slots) == Total(Entries(moneyMap))
    requires stacks == Everything(slots) && forall x :: x in stacks ==> x.here
    modifies stacks
    ensures Worth(slots) + Value(added) == old(Worth(slots)) - money
    ensures CheapestFirst(stacks, old(Counts(stacks)), added)
  {
    assert forall k :: 0 <= k < |moneyMap| ==> Entries(moneyMap)[k] == moneyMap[k].stack;
    AllFound(slots, moneyMap, rest);
    added := PayCheapest(moneyMap, money, stacks);
    SameTotal(slots, Entries(moneyMap), rest);
  }

  lemma AllFound(slots: seq<Thing>, moneyMap: seq<Entry>, rest: seq<Stack>)
    requires Parted(moneyMap, rest, slots) && Worthless(rest)
    ensures forall x :: x in Stacks(slots) ==> x in Entries(moneyMap) || (x in rest && x.Worth() == 0)
  {
    forall x | x in Stacks(slots) ensures x in Entries(moneyMap) || (x in rest && x.Worth() == 0) {
      assert multiset(Stacks(slots))[x] > 0;
      assert multiset(Stacks(slots))[x] == multiset(Entries(moneyMap))[x] + multiset(rest)[x];
    }
  }

  lemma SameTotal(slots: seq<Thing>, list: seq<Stack>, rest: seq<Stack>)
    requires multiset(list) + multiset(rest) == multiset(Stacks(slots)) && Worthless(rest)
    ensures Worth(slots) == Total(list)
  {
    TotalOfSame(list + rest, Stacks(slots));
    TotalConcat(list, rest);
    WorthlessTotal(rest);
  }

  /** A bar of gold is all there is, and a single gold coin is taken. */
  method BreakBar() returns (paid: bool, left: nat, change: nat)
    ensures paid && left + change == 999999
  {
    var bar := new Stack(17100, 1);
    var slots := [Single(bar)];
    assert Stacks(slots) == [bar] + Stacks([]) == [bar];
    assert Total([bar]) == 1000000 + Total([]);
    var added;
    paid, added := RemoveMoney(slots, 1, {bar});
    assert Worth(slots) == Left(bar) + Total([]);
    left, change := if bar.here then bar.Worth() else 0, Value(added);
  }
}
