/** The player's economy and the ship's durability: gold, the fish
    inventory (fish name to count) and health, with the derived fish total
    and health percentage, the harbor's repair and sell handlers and the
    R-key repair. */
module Ledger {
  import opened Catalog

  type Inventory = map<string, nat>

  datatype Ledger = Ledger(gold: int, health: int, inventory: Inventory)

  const MaxHealth := 100

  /** Gold 0, no fish, a fully repaired ship. */
  const Initial := Ledger(0, MaxHealth, map[])

  /** Gold is never negative and health stays in [0, MaxHealth]. */
  ghost predicate Valid(l: Ledger) {
    l.gold >= 0 && 0 <= l.health <= MaxHealth
  }

  lemma InitialIsValid()
    ensures Valid(Initial)
    ensures Initial.gold == 0 && Initial.inventory == map[] && Initial.health == 100
  {
  }

  // ---------------------------------------------------------------------
  // Sums over a map, in no particular key order

  /** The sum of `m`'s values over `keys`. */
  ghost function SumOver(m: map<string, int>, keys: set<string>): int
    requires keys <= m.Keys
    decreases keys
  {
    if keys == {} then 0 else var k :| k in keys; m[k] + SumOver(m, keys - {k})
  }

  /** Any key may be taken out first: the sum does not depend on the order
      in which keys are visited. */
  lemma {:induction false} SumOverPick(m: map<string, int>, keys: set<string>, k: string)
    requires keys <= m.Keys && k in keys
    ensures SumOver(m, keys) == m[k] + SumOver(m, keys - {k})
    decreases keys
  {
    var j :| j in keys && SumOver(m, keys) == m[j] + SumOver(m, keys - {j});
    if j != k {
      SumOverPick(m, keys - {j}, k);
      SumOverPick(m, keys - {k}, j);
      assert keys - {j} - {k} == keys - {k} - {j};
    }
  }

  /** The sum only reads the values under `keys`. */
  lemma {:induction false} SumOverAgree(m1: map<string, int>, m2: map<string, int>, keys: set<string>)
    requires keys <= m1.Keys && keys <= m2.Keys
    requires forall k :: k in keys ==> m1[k] == m2[k]
    ensures SumOver(m1, keys) == SumOver(m2, keys)
    decreases keys
  {
    if keys != {} {
      var k :| k in keys;
      SumOverPick(m1, keys, k);
      SumOverPick(m2, keys, k);
      SumOverAgree(m1, m2, keys - {k});
    }
  }

  /** A sum of non-negative values is non-negative. */
  lemma {:induction false} SumOverNonNegative(m: map<string, int>, keys: set<string>)
    requires keys <= m.Keys
    requires forall k :: k in keys ==> m[k] >= 0
    ensures SumOver(m, keys) >= 0
    decreases keys
  {
    if keys != {} {
      var k :| k in keys;
      SumOverPick(m, keys, k);
      SumOverNonNegative(m, keys - {k});
    }
  }

  /** A `forEach` accumulation over the map: visits every key once, in
      whatever order, adding its value. */
  method Accumulate(m: map<string, int>) returns (total: int)
    ensures total == SumOver(m, m.Keys)
  {
    total := 0;
    var pending := m.Keys;
    while pending != {}
      invariant pending <= m.Keys
      invariant total == SumOver(m, m.Keys - pending)
      decreases pending
    {
      var k :| k in pending;
      var visited := m.Keys - pending + {k};
      SumOverPick(m, visited, k);
      assert visited - {k} == m.Keys - pending;
      total := total + m[k];
      pending := pending - {k};
      assert m.Keys - pending == visited;
    }
    assert m.Keys - pending == m.Keys;
  }

  // ---------------------------------------------------------------------
  // Derived values

  /** The number of fish held: the sum of all counts. */
  ghost function Total(inventory: Inventory): int {
    SumOver(inventory, inventory.Keys)
  }

  /** `totalFishCountAtom`. */
  method TotalFishCount(inventory: Inventory) returns (total: int)
    ensures total == Total(inventory)
    ensures total >= 0
    ensures inventory == map[] ==> total == 0
  {
    total := Accumulate(inventory);
    SumOverNonNegative(inventory, inventory.Keys);
  }

  function Count(inventory: Inventory, name: string): nat {
    if name in inventory then inventory[name] else 0
  }

  /** One more fish of any name, known or new, raises the total by one. */
  lemma TotalAfterOneMore(inventory: Inventory, name: string)
    ensures Total(inventory[name := Count(inventory, name) + 1]) == Total(inventory) + 1
  {
    var after := inventory[name := Count(inventory, name) + 1];
    SumOverPick(after, after.Keys, name);
    if name in inventory {
      SumOverPick(inventory, inventory.Keys, name);
      assert after.Keys - {name} == inventory.Keys - {name};
      SumOverAgree(after, inventory, inventory.Keys - {name});
    } else {
      assert after.Keys - {name} == inventory.Keys;
      SumOverAgree(after, inventory, inventory.Keys);
    }
  }

  /** `shipHealthPercentageAtom`: current health as a percentage of the
      maximum. */
  function HealthPercentage(current: int, maxHealth: int): (r: real)
    requires maxHealth > 0
    ensures r * maxHealth as real == current as real * 100.0
    ensures 0 <= current <= maxHealth ==> 0.0 <= r <= 100.0
    ensures maxHealth == MaxHealth ==> r == current as real
  {
    var fraction := current as real / maxHealth as real;
    assert 0 <= current <= maxHealth ==> 0.0 <= fraction <= 1.0;
    fraction * 100.0
  }

  // ---------------------------------------------------------------------
  // Repair

  datatype RepairNotice = AlreadyFull | Repaired(cost: int) | NotEnoughGold

  datatype RepairOutcome = RepairOutcome(ledger: Ledger, notice: RepairNotice)

  /** The price of bringing the ship back to full health. */
  function RepairCost(l: Ledger): int {
    MaxHealth - l.health
  }

  /** The harbor's repair button. At full health it only reports so; when
      gold covers the cost the ship is fully repaired and exactly the cost is
      paid; otherwise nothing changes and the shortfall is reported. */
  function HarborRepair(l: Ledger): (r: RepairOutcome)
    ensures l.health == MaxHealth ==> r == RepairOutcome(l, AlreadyFull)
    ensures l.health != MaxHealth && l.gold >= RepairCost(l) ==>
              r.notice == Repaired(RepairCost(l)) && r.ledger.health == MaxHealth &&
              r.ledger.gold == l.gold - RepairCost(l)
    ensures l.health != MaxHealth && l.gold < RepairCost(l) ==> r == RepairOutcome(l, NotEnoughGold)
    ensures r.ledger.inventory == l.inventory
    ensures r.ledger.gold + r.ledger.health == l.gold + l.health
    ensures Valid(l) ==> Valid(r.ledger)
  {
    if l.health == MaxHealth then RepairOutcome(l, AlreadyFull)
    else
      var cost := RepairCost(l);
      if l.gold >= cost then RepairOutcome(l.(health := MaxHealth, gold := l.gold - cost), Repaired(cost))
      else RepairOutcome(l, NotEnoughGold)
  }

  /** The R-key repair: the same trade without the full-health check. */
  function KeyRepair(l: Ledger): (r: Ledger)
    ensures l.gold >= RepairCost(l) ==> r.health == MaxHealth && r.gold == l.gold - RepairCost(l)
    ensures l.gold < RepairCost(l) ==> r == l
    ensures r.inventory == l.inventory
    ensures r.gold + r.health == l.gold + l.health
    ensures Valid(l) ==> Valid(r)
  {
    var cost := RepairCost(l);
    if l.gold >= cost then l.(health := MaxHealth, gold := l.gold - cost) else l
  }

  /** At full health the R key costs nothing and changes nothing. */
  lemma KeyRepairAtFullHealth(l: Ledger)
    requires l.health == MaxHealth
    ensures KeyRepair(l) == l
  {
  }

  /** Both repair paths leave the same ledger; they differ only in what they
      report. */
  lemma RepairPathsAgree(l: Ledger)
    ensures HarborRepair(l).ledger == KeyRepair(l)
  {
  }

  // ---------------------------------------------------------------------
  // Selling

  /** The proceeds of `count` fish at `price` each. */
  function Proceeds(price: nat, count: nat): nat {
    price * count
  }

  /** What each held fish sells for: table price times count. */
  function Priced(inventory: Inventory): (r: map<string, int>)
    ensures r.Keys == inventory.Keys
    ensures forall name :: name in r ==> r[name] == PriceOf(name) * inventory[name]
    ensures forall name :: name in r ==> r[name] >= 0
  {
    map name | name in inventory :: Proceeds(PriceOf(name), inventory[name])
  }

  /** The proceeds of selling the whole inventory. */
  ghost function SaleValue(inventory: Inventory): int {
    SumOver(Priced(inventory), inventory.Keys)
  }

  datatype SaleNotice = NothingToSell | Sold(proceeds: int)

  /** The harbor's sell button. An empty inventory is only reported; otherwise
      every fish is sold at its table price (names not in the table fetch
      nothing), the proceeds are added to gold and the inventory is emptied. */
  method SellAll(l: Ledger) returns (r: Ledger, notice: SaleNotice)
    ensures l.inventory == map[] ==> r == l && notice == NothingToSell
    ensures l.inventory != map[] ==>
              notice == Sold(SaleValue(l.inventory)) &&
              r == Ledger(l.gold + SaleValue(l.inventory), l.health, map[])
    ensures r.inventory == map[] && r.health == l.health
    ensures r.gold >= l.gold
    ensures Valid(l) ==> Valid(r)
  {
    if |l.inventory| == 0 {
      assert l.inventory == map[];
      return l, NothingToSell;
    }
    var proceeds := Accumulate(Priced(l.inventory));
    SumOverNonNegative(Priced(l.inventory), l.inventory.Keys);
    r := Ledger(l.gold + proceeds, l.health, map[]);
    notice := Sold(proceeds);
  }
}
