/**
 * A JPA repository as an in-memory table: the stored rows by primary key, and the order in
 * which `findAll` lists them (a new row is listed last; saving an existing row keeps its place).
 */
module Tables {
  import opened Wrappers
  import opened Sequences

  datatype Table<T(==)> = Table(rows: map<int, T>, order: seq<int>) {

    /** The listing names every stored key exactly once and nothing else. */
    ghost predicate Valid()
    {
      && Distinct(order)
      && (forall k :: k in rows <==> k in order)
    }

    /** `findById`: the stored row, or nothing for an unknown key. */
    function FindById(id: int): (r: Option<T>)
      ensures r.Some? <==> id in rows
      ensures r.Some? ==> r.value == rows[id]
    {
      if id in rows then Some(rows[id]) else None
    }

    /** `findAll`: every stored row once, in listing order. */
    function FindAll(): (vs: seq<T>)
      requires Valid()
      ensures |vs| == |rows|
      ensures forall i | 0 <= i < |vs| :: vs[i] in rows.Values
      ensures forall k | k in rows :: rows[k] in vs
    {
      KeysAreListed();
      var vs := RowsOf(order);
      ListingCoversRows(vs);
      vs
    }

    /** A listed row is stored under some key. */
    lemma ListedStored(i: int)
      requires Valid() && 0 <= i < |FindAll()|
      ensures exists k :: k in rows && rows[k] == FindAll()[i]
    {
      KeysAreListed();
      var k := order[i];
      assert k in rows && rows[k] == FindAll()[i];
    }

    /** The `i`-th row of the listing is the row stored under the `i`-th listed key. */
    lemma ListedAt(i: int)
      requires Valid() && 0 <= i < |FindAll()|
      ensures order[i] in rows && FindAll()[i] == rows[order[i]]
    {
      KeysAreListed();
    }

    /** A derived query (`findByX`): the stored rows that satisfy `p`, in listing order. */
    function Select(p: T -> bool): (vs: seq<T>)
      requires Valid()
      ensures |vs| <= |rows| && |vs| == Sequences.Count(FindAll(), p)
      ensures forall i | 0 <= i < |vs| :: vs[i] in rows.Values && p(vs[i])
      ensures forall k | k in rows && p(rows[k]) :: rows[k] in vs
    {
      var all := FindAll();
      var vs := Filter(all, p);
      assert forall k | k in rows && p(rows[k]) :: rows[k] in all;
      vs
    }

    /** The key a selected row is stored under. */
    lemma KeyOfSelected(p: T -> bool, i: int) returns (k: int)
      requires Valid() && 0 <= i < |Select(p)|
      ensures k in rows && rows[k] == Select(p)[i] && p(rows[k])
    {
      KeysAreListed();
      var all := RowsOf(order);
      assert Select(p) == Filter(all, p);
      var j :| 0 <= j < |all| && all[j] == Select(p)[i];
      k := order[j];
    }

    /** A selected row is stored under some key. */
    lemma SelectedStored(p: T -> bool, i: int)
      requires Valid() && 0 <= i < |Select(p)|
      ensures exists k :: k in rows && rows[k] == Select(p)[i]
    {
      var k := KeyOfSelected(p, i);
    }

    /** `count()`: the number of stored rows. */
    function Count(): (n: nat)
      requires Valid()
      ensures n == |FindAll()|
    {
      KeysAreListed();
      |rows|
    }

    /** `save`: insert a row under a new key, or replace the row stored under an old one. */
    function Save(id: int, v: T): (t: Table<T>)
      requires Valid()
      ensures t.Valid()
      ensures t.rows == rows[id := v]
      ensures id in rows ==> t.order == order
      ensures id !in rows ==> t.order == order + [id]
    {
      if id in rows then Table(rows[id := v], order) else Table(rows[id := v], order + [id])
    }

    /** `deleteById`: remove the row stored under `id`; every other row keeps its place. */
    function Delete(id: int): (t: Table<T>)
      requires Valid()
      ensures t.Valid()
      ensures t.rows == rows - {id}
      ensures t.order == Filter(order, k => k != id)
    {
      var keep := Filter(order, k => k != id);
      FilterDistinct(order, k => k != id);
      assert forall k | k in keep :: k in order && k != id by {
        forall k | k in keep ensures k in order && k != id {
          var i :| 0 <= i < |keep| && keep[i] == k;
        }
      }
      Table(rows - {id}, keep)
    }

    /** `deleteAll(findBy(p))`: remove exactly the rows that satisfy `p`. */
    function DeleteWhere(p: T -> bool): (t: Table<T>)
      requires Valid()
      ensures t.Valid()
      ensures forall k :: k in t.rows <==> k in rows && !p(rows[k])
      ensures forall k | k in t.rows :: t.rows[k] == rows[k]
    {
      var stays := k => k in rows && !p(rows[k]);
      var keep := Filter(order, stays);
      FilterDistinct(order, stays);
      assert forall k | k in keep :: stays(k) by {
        forall k | k in keep ensures stays(k) {
          var i :| 0 <= i < |keep| && keep[i] == k;
        }
      }
      Table(map k | k in rows && !p(rows[k]) :: rows[k], keep)
    }

    /** The keys whose stored row satisfies `p`: what a derived count query counts. */
    ghost function Matching(p: T -> bool): set<int>
    {
      set k | k in rows && p(rows[k])
    }

    /** Storing a row under a new key adds that key to the matching keys exactly when the row matches. */
    lemma SaveNewMatching(id: int, v: T, p: T -> bool)
      requires Valid() && id !in rows
      ensures p(v) ==> Save(id, v).Matching(p) == Matching(p) + {id} && |Save(id, v).Matching(p)| == |Matching(p)| + 1
      ensures !p(v) ==> Save(id, v).Matching(p) == Matching(p)
    {
      var saved := Save(id, v);
      var before := Matching(p);
      var after := saved.Matching(p);
      assert id !in before;
      forall k ensures k in after <==> k in before || (k == id && p(v)) {
        if k == id {
          assert saved.rows[k] == v;
        } else if k in rows {
          assert saved.rows[k] == rows[k];
        }
      }
      if p(v) {
        assert after == before + {id};
      } else {
        assert after == before;
      }
    }

    /** The keys whose row is stored and satisfies `p`, as a test on keys. */
    function StoredSatisfying(p: T -> bool): (q: int -> bool)
      ensures forall k :: q(k) <==> k in rows && p(rows[k])
    {
      k => k in rows && p(rows[k])
    }

    /** Counting over the listing counts each stored row satisfying `p` exactly once. */
    lemma CountIsMatching(p: T -> bool)
      requires Valid()
      ensures Sequences.Count(FindAll(), p) == |Matching(p)|
    {
      KeysAreListed();
      var q := StoredSatisfying(p);
      CountListed(order, p);
      CountDistinct(order, q);
      assert Matches(order, q) == Matching(p) by {
        forall k ensures k in Matches(order, q) <==> k in Matching(p) {
          assert k in rows <==> k in order;
        }
      }
    }

    /** The rows stored under the keys `ks`, in the order of `ks`. */
    function RowsOf(ks: seq<int>): (vs: seq<T>)
      requires forall i | 0 <= i < |ks| :: ks[i] in rows
      ensures |vs| == |ks|
      ensures forall i | 0 <= i < |ks| :: vs[i] == rows[ks[i]]
    {
      if ks == [] then [] else RowsOf(ks[..|ks| - 1]) + [rows[ks[|ks| - 1]]]
    }

    /** Counting rows read through a list of stored keys is counting the keys whose row matches. */
    lemma {:induction false} CountListed(ks: seq<int>, p: T -> bool)
      requires forall i | 0 <= i < |ks| :: ks[i] in rows
      ensures Sequences.Count(RowsOf(ks), p) == Sequences.Count(ks, StoredSatisfying(p))
    {
      if ks != [] {
        var n := |ks| - 1;
        CountListed(ks[..n], p);
        assert RowsOf(ks)[..n] == RowsOf(ks[..n]);
      }
    }

    /** Reading the rows in listing order visits every stored row. */
    lemma ListingCoversRows(vs: seq<T>)
      requires Valid()
      requires |vs| == |order|
      requires forall i | 0 <= i < |order| :: order[i] in rows && vs[i] == rows[order[i]]
      ensures forall i | 0 <= i < |vs| :: vs[i] in rows.Values
      ensures forall k | k in rows :: rows[k] in vs
    {
      forall k | k in rows ensures rows[k] in vs {
        var i :| 0 <= i < |order| && order[i] == k;
        assert vs[i] == rows[k];
      }
    }

    /** The listing is as long as the table and names only stored keys. */
    lemma KeysAreListed()
      requires Valid()
      ensures |order| == |rows|
      ensures forall i | 0 <= i < |order| :: order[i] in rows
    {
      assert forall k :: k in order ==> k in rows;
      forall i | 0 <= i < |order| ensures order[i] in rows {
        assert order[i] in order;
      }
      DistinctCardinality(order);
      assert (set x | x in order) == rows.Keys by {
        forall x ensures x in (set y | y in order) <==> x in rows.Keys {
          assert x in rows <==> x in order;
        }
      }
    }
  }

  /** An empty table. */
  function Empty<T(==)>(): (t: Table<T>)
    ensures t.Valid() && t.rows == map[]
  {
    Table(map[], [])
  }

  /** The repository object a service holds; every write goes through `save` or a delete. */
  class Repository<T(==)> {
    var table: Table<T>

    constructor ()
      ensures table == Empty()
    {
      table := Empty();
    }

    method Save(id: int, v: T)
      requires table.Valid()
      modifies this
      ensures table == old(table).Save(id, v)
    {
      table := table.Save(id, v);
    }

    method DeleteById(id: int)
      requires table.Valid()
      modifies this
      ensures table == old(table).Delete(id)
    {
      table := table.Delete(id);
    }

    method DeleteWhere(p: T -> bool)
      requires table.Valid()
      modifies this
      ensures table == old(table).DeleteWhere(p)
    {
      table := table.DeleteWhere(p);
    }
  }
}
