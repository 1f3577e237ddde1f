/**
 * Repository tables: a table is a map from primary key to record, and a query
 * returns the matching rows in primary-key order, the order a table scan
 * produces them in.
 */
module Tables {

  /** Primary keys; the database assigns them from an auto-increment counter. */
  type Id = int

  /** A record together with its primary key, as a loaded entity carries its id. */
  datatype Keyed<+T> = Keyed(id: Id, val: T)

  /** Primary keys strictly increase along the rows. */
  ghost predicate Increasing<T>(rows: seq<Keyed<T>>)
  {
    forall i, j :: 0 <= i < j < |rows| ==> rows[i].id < rows[j].id
  }

  /** A non-empty key set has a member. */
  lemma SomeKey(keys: set<Id>)
    requires keys != {}
    ensures exists x :: x in keys
  {
    if forall x :: x !in keys {
      assert false;
    }
  }

  /** Every non-empty set of keys has a least element. */
  lemma {:induction false} LeastKey(keys: set<Id>, x: Id)
    requires x in keys
    ensures exists k :: k in keys && forall j :: j in keys ==> k <= j
    decreases |keys|
  {
    if exists y :: y in keys && y < x {
      var y :| y in keys && y < x;
      var rest := keys - {x};
      assert y in rest;
      assert |rest| < |keys|;
      LeastKey(rest, y);
      var m :| m in rest && forall j :: j in rest ==> m <= j;
      assert m <= y;
      forall j | j in keys
        ensures m <= j
      {
        if j != x {
          assert j in rest;
        }
      }
    } else {
      assert forall j :: j in keys ==> x <= j;
    }
  }

  /** The least key of a non-empty key set. */
  function Least(keys: set<Id>): (k: Id)
    requires keys != {}
    ensures k in keys && forall j :: j in keys ==> k <= j
  {
    SomeKey(keys);
    var x :| x in keys;
    LeastKey(keys, x);
    var k :| k in keys && forall j :: j in keys ==> k <= j;
    k
  }

  /** Two tables with the same keys and the same row under each key are equal. */
  lemma SameRows<T>(m: map<Id, T>, r: map<Id, T>)
    requires forall k :: k in r <==> k in m
    requires forall k :: k in r ==> r[k] == m[k]
    ensures r == m
  {
    forall k | k in m
      ensures k in r && r[k] == m[k]
    {
    }
    forall k | k in r
      ensures k in m
    {
    }
    assert r.Keys <= m.Keys;
    assert m.Keys <= r.Keys;
  }

  /** r holds, in increasing key order, exactly the rows of table m whose record satisfies p. */
  ghost predicate Selects<T>(m: map<Id, T>, p: T -> bool, r: seq<Keyed<T>>)
  {
    && Increasing(r)
    && (forall i :: 0 <= i < |r| ==> r[i].id in m && m[r[i].id] == r[i].val && p(r[i].val))
    && (forall k :: k in m && p(m[k]) ==> Keyed(k, m[k]) in r)
  }

  /** Selecting from the table without its least key, then putting that row in front if it passes, selects from the table. */
  lemma SelectCons<T>(m: map<Id, T>, p: T -> bool, k: Id, tail: seq<Keyed<T>>)
    requires k in m && forall j :: j in m ==> k <= j
    requires Selects(m - {k}, p, tail)
    ensures Selects(m, p, if p(m[k]) then [Keyed(k, m[k])] + tail else tail)
  {
    var rest := m - {k};
    var r := if p(m[k]) then [Keyed(k, m[k])] + tail else tail;
    forall i | 0 <= i < |tail|
      ensures k < tail[i].id && tail[i].id in m && m[tail[i].id] == tail[i].val
    {
      assert tail[i].id in rest;
    }
    forall i | 0 <= i < |r|
      ensures r[i].id in m && m[r[i].id] == r[i].val && p(r[i].val)
    {
      if p(m[k]) && i > 0 {
        assert r[i] == tail[i - 1];
      }
    }
    forall i, j | 0 <= i < j < |r|
      ensures r[i].id < r[j].id
    {
      if p(m[k]) {
        assert r[j] == tail[j - 1];
        if i > 0 {
          assert r[i] == tail[i - 1];
        }
      }
    }
    forall j | j in m && p(m[j])
      ensures Keyed(j, m[j]) in r
    {
      if j != k {
        assert j in rest && rest[j] == m[j];
        assert Keyed(j, m[j]) in tail;
      }
    }
  }

  /**
   * The rows of table m whose record satisfies p, in increasing key order: a
   * table scan with a filter, the query behind findAll and every derived
   * finder such as findByStudentId.
   */
  function Select<T>(m: map<Id, T>, p: T -> bool): (r: seq<Keyed<T>>)
    ensures Increasing(r)
    ensures forall i :: 0 <= i < |r| ==> r[i].id in m && m[r[i].id] == r[i].val && p(r[i].val)
    ensures forall k :: k in m && p(m[k]) ==> Keyed(k, m[k]) in r
    decreases |m|
  {
    if m.Keys == {} then
      []
    else
      var k := Least(m.Keys);
      var rest := m - {k};
      assert rest.Keys == m.Keys - {k};
      var tail := Select(rest, p);
      SelectCons(m, p, k, tail);
      if p(m[k]) then [Keyed(k, m[k])] + tail else tail
  }

  /** A query returns nothing exactly when no row satisfies its filter. */
  lemma SelectEmpty<T>(m: map<Id, T>, p: T -> bool)
    ensures Select(m, p) == [] <==> forall k :: k in m ==> !p(m[k])
  {
    var r := Select(m, p);
    if r != [] {
      assert r[0].id in m && p(m[r[0].id]);
    }
    if exists k :: k in m && p(m[k]) {
      var k :| k in m && p(m[k]);
      assert Keyed(k, m[k]) in r;
    }
  }

  /** The first row a query returns has the least key among the rows that satisfy its filter. */
  lemma SelectFirst<T>(m: map<Id, T>, p: T -> bool)
    requires Select(m, p) != []
    ensures forall k :: k in m && p(m[k]) ==> Select(m, p)[0].id <= k
  {
    var r := Select(m, p);
    forall k | k in m && p(m[k])
      ensures r[0].id <= k
    {
      assert Keyed(k, m[k]) in r;
      var j :| 0 <= j < |r| && r[j] == Keyed(k, m[k]);
      if j > 0 {
        assert r[0].id < r[j].id;
      }
    }
  }

  /** No element occurs twice. */
  ghost predicate Distinct<T>(xs: seq<T>)
  {
    forall i, j :: 0 <= i < j < |xs| ==> xs[i] != xs[j]
  }

  /** Rows in increasing key order are distinct. */
  lemma IncreasingDistinct<T>(rows: seq<Keyed<T>>)
    requires Increasing(rows)
    ensures Distinct(rows)
  {
  }

  /** In a sequence without repetitions every element occurs at most once. */
  lemma {:induction false} DistinctOnce<T>(xs: seq<T>, x: T)
    requires Distinct(xs)
    ensures multiset(xs)[x] <= 1
    decreases |xs|
  {
    if |xs| > 0 {
      var t := xs[1..];
      assert xs == [xs[0]] + t;
      assert Distinct(t) by {
        forall i, j | 0 <= i < j < |t|
          ensures t[i] != t[j]
        {
          assert t[i] == xs[i + 1] && t[j] == xs[j + 1];
        }
      }
      DistinctOnce(t, x);
      assert xs[0] !in t by {
        forall j | 0 <= j < |t|
          ensures t[j] != xs[0]
        {
          assert t[j] == xs[j + 1];
        }
      }
    }
  }

  /** An element found at two positions occurs at least twice. */
  lemma OccursTwice<T>(xs: seq<T>, i: int, j: int)
    requires 0 <= i < j < |xs|
    ensures xs[i] == xs[j] ==> multiset(xs)[xs[i]] >= 2
  {
    assert xs == xs[..i] + [xs[i]] + xs[i + 1..j] + [xs[j]] + xs[j + 1..];
  }

  /** Taking elements from a sequence without repetitions, each at most as often as it occurs, repeats nothing. */
  lemma SubMultisetDistinct<T>(xs: seq<T>, ys: seq<T>)
    requires Distinct(xs) && multiset(ys) <= multiset(xs)
    ensures Distinct(ys)
  {
    forall i, j | 0 <= i < j < |ys|
      ensures ys[i] != ys[j]
    {
      OccursTwice(ys, i, j);
      DistinctOnce(xs, ys[i]);
    }
  }

  /** A sequence without repetitions whose elements all occur in ys is no longer than ys. */
  lemma {:induction false} FewerDistinct<T>(xs: seq<T>, ys: seq<T>)
    requires Distinct(xs)
    requires forall i :: 0 <= i < |xs| ==> xs[i] in ys
    ensures |xs| <= |ys|
    decreases |xs|
  {
    if |xs| > 0 {
      var x := xs[|xs| - 1];
      var init := xs[..|xs| - 1];
      var j :| 0 <= j < |ys| && ys[j] == x;
      var rest := ys[..j] + ys[j + 1..];
      forall i | 0 <= i < |init|
        ensures init[i] in rest
      {
        var k :| 0 <= k < |ys| && ys[k] == init[i];
        if k < j {
          assert rest[k] == ys[k];
        } else {
          assert k != j;
          assert rest[k - 1] == ys[k];
        }
      }
      FewerDistinct(init, rest);
    }
  }
}
