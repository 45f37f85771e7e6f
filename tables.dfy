/** The record store: each object store is a table of records keyed by the field its
    key path names, read back in ascending key order as IndexedDB returns them. */
module Tables {
  import opened Base
  import opened Strings

  /** Keys in strictly ascending order, one after another. */
  predicate Ascending<T>(s: seq<T>, key: T -> string)
  {
    forall i, j :: 0 <= i < j < |s| ==> LexLt(key(s[i]), key(s[j]))
  }

  lemma {:induction false} LeastExists(s: set<string>)
    requires s != {}
    ensures exists k :: k in s && forall j :: j in s ==> LexLe(k, j)
  {
    var x :| x in s;
    var rest := s - {x};
    if rest == {} {
      assert s == {x} by {
        assert s == rest + {x};
      }
      LexReflexive(x);
    } else {
      LeastExists(rest);
      var m :| m in rest && forall j :: j in rest ==> LexLe(m, j);
      LexTotal(x, m);
      if LexLe(x, m) {
        forall j | j in s ensures LexLe(x, j) {
          if j == x {
            LexReflexive(x);
          } else {
            assert j in rest;
            LexTransitive(x, m, j);
          }
        }
        assert x in s;
      } else {
        forall j | j in s ensures LexLe(m, j) {
          if j != x {
            assert j in rest;
          }
        }
        assert m in s;
      }
    }
  }

  /** The least key of a non-empty key set. */
  function Least(s: set<string>): (k: string)
    requires s != {}
    ensures k in s && forall j :: j in s ==> LexLe(k, j)
  {
    LeastExists(s);
    assert forall a, b :: a in s && b in s && LexLe(a, b) && LexLe(b, a) ==> a == b by {
      forall a, b | a in s && b in s && LexLe(a, b) && LexLe(b, a) ensures a == b {
        LexAntisymmetric(a, b);
      }
    }
    var k :| k in s && forall j :: j in s ==> LexLe(k, j);
    k
  }

  /** All keys of a set, in ascending order. */
  function SortedKeys(s: set<string>): (r: seq<string>)
    ensures |r| == |s|
    ensures forall k :: k in r <==> k in s
    ensures Ascending(r, (k: string) => k)
    decreases |s|
  {
    if s == {} then []
    else
      var k := Least(s);
      [k] + SortedKeys(s - {k})
  }

  /** Filtering keeps the records of an ascending sequence ascending. */
  lemma {:induction false} FilterKeepsAscending<T(!new)>(s: seq<T>, keep: T -> bool, key: T -> string)
    requires Ascending(s, key)
    ensures Ascending(Filter(s, keep), key)
  {
    if s != [] {
      FilterKeepsAscending(s[1..], keep, key);
      var rest := Filter(s[1..], keep);
      forall j | 0 <= j < |rest| ensures LexLt(key(s[0]), key(rest[j])) {
        assert rest[j] in s[1..];
        var i :| 0 <= i < |s[1..]| && s[1..][i] == rest[j];
        assert s[i + 1] == rest[j];
      }
    }
  }

  /** One object store. */
  class Table<T(==,!new)> {
    /** The record's key, read through the store's key path. */
    const keyOf: T -> string
    var rows: map<string, T>

    /** Every record sits under its own key. */
    ghost predicate Valid()
      reads this
    {
      forall k :: k in rows ==> keyOf(rows[k]) == k
    }

    constructor (keyOf: T -> string)
      ensures Valid() && this.keyOf == keyOf && rows == map[]
    {
      this.keyOf := keyOf;
      rows := map[];
    }

    /** `put`: store the record under its key, replacing (never merging with) any
        record already there; the stored record is returned. */
    method Put(v: T) returns (stored: T)
      requires Valid()
      modifies this
      ensures Valid() && stored == v
      ensures rows == old(rows)[keyOf(v) := v]
      ensures Get(keyOf(v)) == Some(v)
      ensures forall k :: k != keyOf(v) ==> Get(k) == old(Get(k))
    {
      rows := rows[keyOf(v) := v];
      stored := v;
    }

    /** `del`: remove the record under `key`; nothing happens when there is none. */
    method Del(key: string)
      requires Valid()
      modifies this
      ensures Valid()
      ensures rows == old(rows) - {key}
      ensures Get(key) == None
      ensures forall k :: k != key ==> Get(k) == old(Get(k))
    {
      rows := rows - {key};
    }

    /** `get`: the record under `key`, or None (never an error) when there is none. */
    function Get(key: string): (r: Option<T>)
      reads this
      ensures r.None? <==> key !in rows
      ensures r.Some? ==> r.value == rows[key]
      ensures Valid() && r.Some? ==> keyOf(r.value) == key
    {
      if key in rows then Some(rows[key]) else None
    }

    /** `all`: every record exactly once, in ascending key order. */
    function All(): (r: seq<T>)
      reads this
      requires Valid()
      ensures |r| == |rows|
      ensures forall x :: x in r <==> x in rows.Values
      ensures Ascending(r, keyOf)
    {
      var m := rows;
      var ks := SortedKeys(m.Keys);
      var r := seq(|ks|, i requires 0 <= i < |ks| => m[ks[i]]);
      assert forall i :: 0 <= i < |r| ==> keyOf(r[i]) == ks[i];
      assert forall x :: x in rows.Values ==> x in r by {
        forall x | x in rows.Values ensures x in r {
          var k :| k in rows && rows[k] == x;
          var i :| 0 <= i < |ks| && ks[i] == k;
          assert r[i] == x;
        }
      }
      r
    }

    /** `byIndex`: exactly the records whose indexed field equals `v`, in ascending
        key order; an empty result when none match. */
    function ByIndex<K(==)>(field: T -> K, v: K): (r: seq<T>)
      reads this
      requires Valid()
      ensures forall x :: x in r <==> x in rows.Values && field(x) == v
      ensures Ascending(r, keyOf)
    {
      FilterKeepsAscending(All(), x => field(x) == v, keyOf);
      Filter(All(), x => field(x) == v)
    }
  }
}
