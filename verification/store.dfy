/**
 * The database seen from the service layer: one table per entity, keyed by
 * the row's identity-column id. Inserts take a fresh id; deletes remove one key.
 */
module Store {
  import opened Wrappers

  type Table<T> = map<int, T>

  /** What `repository.save` hands back: the id of the row, the row as stored, and the table after it. */
  datatype Saved<T> = Saved(id: int, row: T, table: Table<T>)

  /** A non-empty set has a member (extensionality, spelled out for the solver). */
  lemma Inhabited(s: set<int>)
    requires s != {}
    ensures exists x :: x in s
  {
    assert (forall x :: x !in s) ==> s == {};
  }

  /** The greatest member of a non-empty set, found by taking one member out at a time. */
  lemma {:induction false} GreatestOf(keys: set<int>) returns (m: int)
    requires keys != {}
    ensures m in keys && forall k | k in keys :: k <= m
  {
    Inhabited(keys);
    var x :| x in keys;
    var rest := keys - {x};
    if rest == {} {
      m := x;
      forall k | k in keys ensures k <= m {
        assert k !in rest;
      }
    } else {
      var r := GreatestOf(rest);
      m := if x <= r then r else x;
      forall k | k in keys ensures k <= m {
        if k != x { assert k in rest; }
      }
    }
  }

  lemma GreatestExists(keys: set<int>)
    requires keys != {}
    ensures exists m :: m in keys && forall k | k in keys :: k <= m
  {
    var m := GreatestOf(keys);
  }

  /** The least member of a non-empty set, the mirror of `GreatestOf`. */
  lemma {:induction false} LeastOf(keys: set<int>) returns (m: int)
    requires keys != {}
    ensures m in keys && forall k | k in keys :: m <= k
  {
    Inhabited(keys);
    var x :| x in keys;
    var rest := keys - {x};
    if rest == {} {
      m := x;
      forall k | k in keys ensures m <= k {
        assert k !in rest;
      }
    } else {
      var r := LeastOf(rest);
      m := if r <= x then r else x;
      forall k | k in keys ensures m <= k {
        if k != x { assert k in rest; }
      }
    }
  }

  lemma LeastExists(keys: set<int>)
    requires keys != {}
    ensures exists m :: m in keys && forall k | k in keys :: m <= k
  {
    var m := LeastOf(keys);
  }

  function Greatest(keys: set<int>): (m: int)
    requires keys != {}
    ensures m in keys && forall k | k in keys :: k <= m
  {
    GreatestExists(keys);
    var m :| m in keys && forall k | k in keys :: k <= m; m
  }

  function Least(keys: set<int>): (m: int)
    requires keys != {}
    ensures m in keys && forall k | k in keys :: m <= k
  {
    LeastExists(keys);
    var m :| m in keys && forall k | k in keys :: m <= k; m
  }

  /**
   * The id the identity column hands out: positive and unused. The model takes
   * one past the greatest id in use; every property below relies only on freshness.
   */
  function FreshId<T>(t: Table<T>): (id: int)
    ensures id !in t && id >= 1
  {
    1 + Greatest(t.Keys + {0})
  }

  /** `LocalDate`, `LocalTime` and `LocalDateTime` columns; only their equality is ever used. */
  type Date = int
  type Time = int
  type Timestamp = int

  /** A DECIMAL(10,2) amount in minor units (kopecks). */
  type Money = int

  /** `repository.save` of a row without an id. */
  function Insert<T>(t: Table<T>, row: T): (s: Saved<T>)
    ensures s.id !in t && s.row == row
    ensures s.table.Keys == t.Keys + {s.id} && s.table[s.id] == row
    ensures forall k | k in t :: s.table[k] == t[k]
  {
    var id := FreshId(t);
    Saved(id, row, t[id := row])
  }

  /** `repository.save` of a row that already has the id `id`. */
  function Put<T>(t: Table<T>, id: int, row: T): (s: Saved<T>)
    requires id in t
    ensures s.id == id && s.row == row
    ensures s.table.Keys == t.Keys && s.table[id] == row
    ensures forall k | k in t && k != id :: s.table[k] == t[k]
  {
    Saved(id, row, t[id := row])
  }

  /**
   * The guarded delete every service repeats: `findById(id).isPresent()` or
   * throw `notFound`, then `deleteById(id)`.
   */
  function Delete<T>(t: Table<T>, id: int, notFound: string): (r: Result<Table<T>>)
    ensures r.Err? <==> id !in t
    ensures r.Err? ==> r.message == notFound
    ensures r.Ok? ==> r.value.Keys == t.Keys - {id}
    ensures r.Ok? ==> forall k | k in r.value :: r.value[k] == t[k]
  {
    if id !in t then Err(notFound) else Ok(t - {id})
  }

  /**
   * `findAll()`: every row once, here in ascending id order (none of the
   * callers modelled depends on the listing order).
   */
  function Rows<T(==)>(t: Table<T>): (rows: seq<T>)
    ensures |rows| == |t|
    ensures forall r | r in rows :: r in t.Values
    ensures forall k | k in t :: t[k] in rows
    decreases |t|
  {
    if t == map[] then []
    else
      assert t.Keys != {} by { NonEmptyKeys(t); }
      var k := Least(t.Keys);
      var rest := t - {k};
      assert |rest| == |t| - 1 by { assert rest.Keys == t.Keys - {k}; }
      assert forall j | j in t :: j == k || (j in rest && rest[j] == t[j]);
      [t[k]] + Rows(rest)
  }

  /** Removing two keys one after the other does not depend on the order. */
  lemma RemoveCommutes<T>(t: Table<T>, a: int, b: int)
    ensures (t - {a}) - {b} == (t - {b}) - {a}
  {
    assert ((t - {a}) - {b}).Keys == t.Keys - {a, b} == ((t - {b}) - {a}).Keys;
  }

  /** Taking out a key just put in under a fresh id gives the table back. */
  lemma RemoveInserted<T>(t: Table<T>, id: int, row: T)
    requires id !in t
    ensures t[id := row] - {id} == t
  {
    assert (t[id := row] - {id}).Keys == t.Keys;
  }

  lemma NonEmptyKeys<T>(t: Table<T>)
    requires t != map[]
    ensures t.Keys != {}
  {
    assert t.Keys == {} ==> t == map[];
  }
}
