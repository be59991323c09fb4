/** Static game data of src/data/gameData.ts: the default ship's handling
    constants, the fish table, and the tiered reward draw `getRandomFish`.
    src/data/fishData.ts repeats the same table and draw and is modelled by
    the same definitions. The two `Math.random()` calls become the draws
    `tierDraw` and `pickDraw`. */
module Catalog {
  import opened Optional
  import opened Draws

  datatype ShipStats = ShipStats(
    acceleration: real,
    maxSpeed: real,
    backwardMaxSpeed: real,
    rotationSpeed: real,
    drag: real,
    angularDrag: real)

  const DefaultShip := ShipStats(5.0, 3.0, 1.5, 1.5, 0.97, 0.95)

  datatype Rarity = Common | Uncommon | Rare

  datatype Fish = Fish(name: string, value: int, rarity: Rarity)

  const FishTable: seq<Fish> := [
    Fish("고등어", 10, Common),
    Fish("꽁치", 12, Common),
    Fish("광어", 25, Uncommon),
    Fish("우럭", 28, Uncommon),
    Fish("참돔", 80, Rare),
    Fish("다금바리", 150, Rare)
  ]

  /** Upper bounds of the rare and uncommon intervals of the tier draw. */
  const RareBelow := 0.05
  const UncommonBelow := 0.3

  /** The default handling constants describe a ship that slows down when
      left alone and reverses no faster than it sails forward. */
  lemma DefaultShipSane()
    ensures 0.0 < DefaultShip.drag < 1.0
    ensures 0.0 < DefaultShip.angularDrag < 1.0
    ensures 0.0 <= DefaultShip.backwardMaxSpeed <= DefaultShip.maxSpeed
    ensures DefaultShip.acceleration > 0.0
  {
  }

  /** Every fish has its own name and a positive price. */
  lemma FishTableWellFormed()
    ensures forall i, j :: 0 <= i < j < |FishTable| ==> FishTable[i].name != FishTable[j].name
    ensures forall i :: 0 <= i < |FishTable| ==> FishTable[i].value > 0
  {
  }

  /** `fishData.find(f => f.name === name)`: the first entry with that name. */
  function Find(table: seq<Fish>, name: string): (r: Option<Fish>)
    ensures r.Some? ==> r.value in table && r.value.name == name
    ensures r.None? <==> forall f :: f in table ==> f.name != name
    ensures r.Some? ==> exists i :: 0 <= i < |table| && table[i] == r.value &&
                         forall j :: 0 <= j < i ==> table[j].name != name
  {
    if table == [] then None
    else if table[0].name == name then Some(table[0])
    else
      var rest := Find(table[1..], name);
      assert forall f :: f in table <==> f == table[0] || f in table[1..];
      assert rest.Some? ==> exists i :: 1 <= i < |table| && table[i] == rest.value &&
                                forall j :: 0 <= j < i ==> table[j].name != name
      by {
        if rest.Some? {
          var k :| 0 <= k < |table[1..]| && table[1..][k] == rest.value &&
                   forall j :: 0 <= j < k ==> table[1..][j].name != name;
          assert table[k + 1] == rest.value;
          assert forall j :: 1 <= j < k + 1 ==> table[j].name == table[1..][j - 1].name;
        }
      }
      rest
  }

  /** In a table whose names are all distinct, `find` by the name of any
      entry returns that very entry. */
  lemma {:induction false} FindDistinct(table: seq<Fish>, i: int)
    requires forall a, b :: 0 <= a < b < |table| ==> table[a].name != table[b].name
    requires 0 <= i < |table|
    ensures Find(table, table[i].name) == Some(table[i])
    decreases |table|
  {
    if i > 0 {
      assert table[0].name != table[i].name;
      assert table[1..][i - 1] == table[i];
      FindDistinct(table[1..], i - 1);
    }
  }

  /** The sale price of one fish of that name: the value of its table entry,
      or nothing when `find` comes back empty. */
  function PriceOf(name: string): nat {
    FishTableWellFormed();
    match Find(FishTable, name)
    case Some(f) => f.value
    case None => 0
  }

  /** A fish in the table sells for its own listed value, which is positive;
      a name missing from the table fetches nothing. */
  lemma PriceOfListedValue(name: string)
    ensures forall i :: 0 <= i < |FishTable| && FishTable[i].name == name ==>
              PriceOf(name) == FishTable[i].value > 0
    ensures (forall i :: 0 <= i < |FishTable| ==> FishTable[i].name != name) ==> PriceOf(name) == 0
  {
    FishTableWellFormed();
    forall i | 0 <= i < |FishTable| && FishTable[i].name == name
      ensures PriceOf(name) == FishTable[i].value
    {
      FindDistinct(FishTable, i);
    }
  }

  /** `fishData.filter(f => f.rarity === rarity)`, order kept. */
  function Tier(table: seq<Fish>, rarity: Rarity): (r: seq<Fish>)
    ensures forall f :: f in r <==> f in table && f.rarity == rarity
    ensures |r| <= |table|
  {
    if table == [] then []
    else if table[0].rarity == rarity then [table[0]] + Tier(table[1..], rarity)
    else Tier(table[1..], rarity)
  }

  /** The filter keeps each fish of that rarity as often as the table holds
      it, and no other fish. */
  lemma {:induction false} TierCounts(table: seq<Fish>, rarity: Rarity, f: Fish)
    ensures multiset(Tier(table, rarity))[f] == if f.rarity == rarity then multiset(table)[f] else 0
    decreases |table|
  {
    if table != [] {
      assert table == [table[0]] + table[1..];
      TierCounts(table[1..], rarity, f);
    }
  }

  /** The tier chosen by the first draw's cumulative thresholds. */
  function TierFor(tierDraw: real): Rarity {
    if tierDraw < RareBelow then Rare
    else if tierDraw < UncommonBelow then Uncommon
    else Common
  }

  /** `pool[Math.floor(pickDraw * pool.length)]`; an index outside the pool
      reads `undefined`. */
  function Pick(pool: seq<Fish>, pickDraw: real): (r: Option<Fish>)
    ensures |pool| > 0 ==> (r.Some? <==> 0.0 <= pickDraw < 1.0)
    ensures r.Some? ==> exists i :: 0 <= i < |pool| && pool[i] == r.value &&
                         i as real <= pickDraw * |pool| as real < (i + 1) as real
  {
    var n := |pool| as real;
    var i := (pickDraw * n).Floor;
    assert i as real <= pickDraw * n < i as real + 1.0;
    assert 0 <= i <==> 0.0 <= pickDraw * n;
    assert i < |pool| <==> pickDraw * n < n;
    assert |pool| > 0 ==> (0.0 <= pickDraw * n < n <==> 0.0 <= pickDraw < 1.0) by {
      if |pool| > 0 {
        ScaledDrawInRange(pickDraw, n);
      }
    }
    if 0 <= i < |pool| then Some(pool[i]) else None
  }

  /** Each tier of the table holds exactly two fish, in table order: the
      first two entries are common, the next two uncommon, the last two
      rare. */
  lemma TiersHoldTwo(rarity: Rarity)
    ensures Tier(FishTable, rarity) == match rarity
      case Common => [FishTable[0], FishTable[1]]
      case Uncommon => [FishTable[2], FishTable[3]]
      case Rare => [FishTable[4], FishTable[5]]
    ensures |Tier(FishTable, rarity)| == 2
  {
    PairedTiers(FishTable, rarity);
  }

  /** A six-entry table laid out as two common, two uncommon and two rare
      fish filters into those three pairs. */
  lemma PairedTiers(t: seq<Fish>, rarity: Rarity)
    requires |t| == 6
    requires t[0].rarity == Common && t[1].rarity == Common
    requires t[2].rarity == Uncommon && t[3].rarity == Uncommon
    requires t[4].rarity == Rare && t[5].rarity == Rare
    ensures Tier(t, rarity) == match rarity
      case Common => [t[0], t[1]]
      case Uncommon => [t[2], t[3]]
      case Rare => [t[4], t[5]]
  {
    var rare := RarePair(t[4..], rarity);
    assert t[2..][2..] == t[4..];
    var middle := UncommonPair(t[2..], rarity, rare);
    var whole := CommonPair(t, rarity, middle);
    assert t[4..] == [t[4], t[5]];
    match rarity
    case Rare => assert whole == [t[4], t[5]];
    case Uncommon => assert whole == [t[2], t[3]];
    case Common => assert whole == [t[0], t[1]];
  }

  /** The rare pair at the end of the table: returns the filter of that
      suffix. */
  lemma RarePair(t: seq<Fish>, rarity: Rarity) returns (r: seq<Fish>)
    requires |t| == 2 && t[0].rarity == Rare && t[1].rarity == Rare
    ensures r == Tier(t, rarity)
    ensures r == if rarity == Rare then t else []
  {
    TierSuffix(t, rarity, 2);
    TierSuffix(t, rarity, 1);
    TierSuffix(t, rarity, 0);
    assert t[0..] == t;
    r := Tier(t, rarity);
    if rarity == Rare {
      assert r == [t[0], t[1]];
    }
  }

  /** Two uncommon fish in front of a suffix whose filter is `rest`. */
  lemma UncommonPair(t: seq<Fish>, rarity: Rarity, rest: seq<Fish>) returns (r: seq<Fish>)
    requires |t| >= 2 && t[0].rarity == Uncommon && t[1].rarity == Uncommon
    requires rest == Tier(t[2..], rarity)
    ensures r == Tier(t, rarity)
    ensures r == if rarity == Uncommon then [t[0], t[1]] + rest else rest
  {
    TierSuffix(t, rarity, 1);
    TierSuffix(t, rarity, 0);
    assert t[0..] == t;
    r := Tier(t, rarity);
  }

  /** Two common fish in front of a suffix whose filter is `rest`. */
  lemma CommonPair(t: seq<Fish>, rarity: Rarity, rest: seq<Fish>) returns (r: seq<Fish>)
    requires |t| >= 2 && t[0].rarity == Common && t[1].rarity == Common
    requires rest == Tier(t[2..], rarity)
    ensures r == Tier(t, rarity)
    ensures r == if rarity == Common then [t[0], t[1]] + rest else rest
  {
    TierSuffix(t, rarity, 1);
    TierSuffix(t, rarity, 0);
    assert t[0..] == t;
    r := Tier(t, rarity);
  }

  /** The filter of the suffix from `i` is its first entry, when that
      qualifies, followed by the filter of the next suffix. */
  lemma TierSuffix(table: seq<Fish>, rarity: Rarity, i: nat)
    requires i <= |table|
    ensures i < |table| ==>
              Tier(table[i..], rarity) ==
              (if table[i].rarity == rarity then [table[i]] else []) + Tier(table[i + 1..], rarity)
    ensures i == |table| ==> Tier(table[i..], rarity) == []
  {
    if i < |table| {
      assert table[i..][1..] == table[i + 1..];
    }
  }

  /** `getRandomFish`: pick the tier with the first draw, then a fish of that
      tier with the second. */
  function RandomFish(tierDraw: real, pickDraw: real): (r: Option<Fish>)
    ensures 0.0 <= pickDraw < 1.0 ==> r.Some?
    ensures r.Some? ==> r.value in FishTable
    ensures r.Some? && tierDraw < 0.05 ==> r.value.rarity == Rare
    ensures r.Some? && 0.05 <= tierDraw < 0.3 ==> r.value.rarity == Uncommon
    ensures r.Some? && 0.3 <= tierDraw ==> r.value.rarity == Common
  {
    TiersHoldTwo(TierFor(tierDraw));
    Pick(Tier(FishTable, TierFor(tierDraw)), pickDraw)
  }

  /** From a pool of two, a draw in [0, 1) picks the first below one half
      and the second from one half on. */
  lemma PickFromPair(pool: seq<Fish>, pickDraw: real)
    requires |pool| == 2 && 0.0 <= pickDraw < 1.0
    ensures pickDraw < 0.5 ==> Pick(pool, pickDraw) == Some(pool[0])
    ensures 0.5 <= pickDraw ==> Pick(pool, pickDraw) == Some(pool[1])
  {
    var i := (pickDraw * 2.0).Floor;
    assert i as real <= pickDraw * 2.0 < i as real + 1.0;
  }

  /** Within a tier the second draw picks the tier's first fish below one
      half and its second fish from one half on. */
  lemma PickWithinTierIsUniform(tierDraw: real, pickDraw: real)
    requires 0.0 <= pickDraw < 1.0
    ensures pickDraw < 0.5 ==> RandomFish(tierDraw, pickDraw) == Some(Tier(FishTable, TierFor(tierDraw))[0])
    ensures 0.5 <= pickDraw ==> RandomFish(tierDraw, pickDraw) == Some(Tier(FishTable, TierFor(tierDraw))[1])
  {
    var pool := Tier(FishTable, TierFor(tierDraw));
    TiersHoldTwo(TierFor(tierDraw));
    PickFromPair(pool, pickDraw);
  }

  /** The three tier intervals of a draw in [0, 1) have widths 5%, 25% and
      70%, the documented split. */
  lemma TierWidths()
    ensures RareBelow - 0.0 == 0.05
    ensures UncommonBelow - RareBelow == 0.25
    ensures 1.0 - UncommonBelow == 0.70
    ensures forall d :: 0.0 <= d < RareBelow ==> TierFor(d) == Rare
    ensures forall d :: RareBelow <= d < UncommonBelow ==> TierFor(d) == Uncommon
    ensures forall d :: UncommonBelow <= d < 1.0 ==> TierFor(d) == Common
  {
  }
}
