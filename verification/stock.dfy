/** ProductoDAO: the stock column of the Componente table as a map from part id to
    level, with the conditional decrement, the availability queries and the two
    ordered listings. */
module StockLedger {

  /** getStockLevel: the stored level, or -1 for an unknown id. */
  function Level(levels: map<int, int>, id: int): int
  {
    if id in levels then levels[id] else -1
  }

  /** isStockAvailable: at least the required amount, and some stock at all. */
  predicate Available(levels: map<int, int>, id: int, required: int)
  {
    Level(levels, id) >= required && Level(levels, id) > 0
  }

  /** The WHERE clause of the decrement: the row exists and holds at least q. */
  predicate CanDecrement(levels: map<int, int>, id: int, q: int)
  {
    id in levels && levels[id] >= q
  }

  /** UPDATE ... SET CantidadDisponible = CantidadDisponible - q WHERE ComponenteID = id
      AND CantidadDisponible >= q. */
  function Decremented(levels: map<int, int>, id: int, q: int): (r: map<int, int>)
    ensures r.Keys == levels.Keys
    ensures CanDecrement(levels, id, q) ==> r[id] == levels[id] - q && r[id] >= 0
    ensures forall other | other in levels && other != id :: r[other] == levels[other]
    ensures !CanDecrement(levels, id, q) ==> r == levels
  {
    if CanDecrement(levels, id, q) then levels[id := levels[id] - q] else levels
  }

  lemma Inhabited(s: set<int>)
    requires s != {}
    ensures exists x :: x in s
  {
    if forall x :: x !in s {
      assert false;
    }
  }

  /** The least element of a non-empty set under a weight. */
  method PickLeast(s: set<int>, weight: int -> int) returns (m: int)
    requires s != {}
    ensures m in s && forall x | x in s :: weight(m) <= weight(x)
  {
    Inhabited(s);
    m :| m in s;
    var rest := s - {m};
    while rest != {}
      invariant rest <= s && m in s && m !in rest
      invariant forall x | x in s && x !in rest :: weight(m) <= weight(x)
      decreases |rest|
    {
      Inhabited(rest);
      var x :| x in rest;
      if weight(x) < weight(m) {
        m := x;
      }
      rest := rest - {x};
    }
  }

  /** The rows of an ORDER BY: every key exactly once, in non-decreasing weight. */
  method ListByWeight(keys: set<int>, weight: int -> int) returns (ids: seq<int>)
    ensures forall x :: x in keys <==> x in ids
    ensures forall i, j | 0 <= i < j < |ids| :: ids[i] != ids[j] && weight(ids[i]) <= weight(ids[j])
  {
    ids := [];
    var remaining := keys;
    while remaining != {}
      invariant remaining <= keys
      invariant forall x :: x in keys <==> x in ids || x in remaining
      invariant forall x | x in ids :: x !in remaining
      invariant forall i, j | 0 <= i < j < |ids| :: ids[i] != ids[j] && weight(ids[i]) <= weight(ids[j])
      invariant forall i, x | 0 <= i < |ids| && x in remaining :: weight(ids[i]) <= weight(x)
      decreases |remaining|
    {
      var m := PickLeast(remaining, weight);
      ids := ids + [m];
      remaining := remaining - {m};
    }
  }

  class StockTable {
    var levels: map<int, int>

    constructor (initial: map<int, int>)
      ensures levels == initial
    {
      levels := initial;
    }

    /** updateStock: subtracts q exactly when the row exists and holds at least q, and
        reports whether a row was affected. */
    method UpdateStock(id: int, q: int) returns (applied: bool)
      modifies this
      ensures applied == CanDecrement(old(levels), id, q)
      ensures levels == Decremented(old(levels), id, q)
    {
      applied := id in levels && levels[id] >= q;
      if applied {
        levels := levels[id := levels[id] - q];
      }
    }

    /** A rollback to the levels of a snapshot. */
    method Restore(snapshot: map<int, int>)
      modifies this
      ensures levels == snapshot
    {
      levels := snapshot;
    }

    function GetStockLevel(id: int): (r: int)
      reads this
      ensures id in levels ==> r == levels[id]
      ensures id !in levels ==> r == -1
    {
      Level(levels, id)
    }

    /** isStockAvailable: an unknown id (level -1) is never available. */
    function IsStockAvailable(id: int, required: int): (r: bool)
      reads this
      ensures r == Available(levels, id, required)
      ensures r <==> id in levels && levels[id] >= required && levels[id] > 0
    {
      var current := GetStockLevel(id);
      current >= required && current > 0
    }

    /** isOutOfStock: an unknown id (level -1) is not out of stock. */
    function IsOutOfStock(id: int): (r: bool)
      reads this
      ensures r <==> id in levels && levels[id] == 0
    {
      GetStockLevel(id) == 0
    }

    /** validateMultipleStock: true iff every line is available; it stops at the first
        line that is not. */
    method ValidateMultipleStock(lines: seq<(int, int)>) returns (ok: bool)
      ensures ok <==> forall k | 0 <= k < |lines| :: Available(levels, lines[k].0, lines[k].1)
      ensures !ok ==> exists k | 0 <= k < |lines| :: !Available(levels, lines[k].0, lines[k].1)
    {
      var i := 0;
      while i < |lines|
        invariant 0 <= i <= |lines|
        invariant forall k | 0 <= k < i :: Available(levels, lines[k].0, lines[k].1)
      {
        if !IsStockAvailable(lines[i].0, lines[i].1) {
          return false;
        }
        i := i + 1;
      }
      return true;
    }

    /** getAllStockLevels: every part exactly once, with its level, ordered by id. */
    method GetAllStockLevels() returns (rows: seq<(int, int)>)
      ensures forall k | 0 <= k < |rows| :: rows[k].0 in levels && rows[k].1 == levels[rows[k].0]
      ensures forall id | id in levels :: exists k | 0 <= k < |rows| :: rows[k].0 == id
      ensures forall i, j | 0 <= i < j < |rows| :: rows[i].0 < rows[j].0
    {
      var snapshot := levels;
      var ids := ListByWeight(snapshot.Keys, x => x);
      assert forall k | 0 <= k < |ids| :: ids[k] in ids;
      rows := seq(|ids|, k requires 0 <= k < |ids| => (ids[k], snapshot[ids[k]]));
      forall id | id in levels ensures exists k | 0 <= k < |rows| :: rows[k].0 == id {
        var k :| 0 <= k < |ids| && ids[k] == id;
        assert rows[k].0 == id;
      }
    }

    /** getLowStockProducts: exactly the parts whose level is at most the threshold,
        each once, in non-decreasing level order. */
    method GetLowStockProducts(threshold: int) returns (rows: seq<(int, int)>)
      ensures forall k | 0 <= k < |rows| ::
        rows[k].0 in levels && rows[k].1 == levels[rows[k].0] && rows[k].1 <= threshold
      ensures forall id | id in levels && levels[id] <= threshold :: exists k | 0 <= k < |rows| :: rows[k].0 == id
      ensures forall i, j | 0 <= i < j < |rows| :: rows[i].0 != rows[j].0 && rows[i].1 <= rows[j].1
    {
      var snapshot := levels;
      var low := set id | id in snapshot && snapshot[id] <= threshold;
      var ids := ListByWeight(low, x => Level(snapshot, x));
      assert forall k | 0 <= k < |ids| :: ids[k] in ids;
      rows := seq(|ids|, k requires 0 <= k < |ids| => (ids[k], snapshot[ids[k]]));
      forall id | id in levels && levels[id] <= threshold ensures exists k | 0 <= k < |rows| :: rows[k].0 == id {
        assert id in low;
        var k :| 0 <= k < |ids| && ids[k] == id;
        assert rows[k].0 == id;
      }
    }
  }
}
