/** The database layout and the upgrade pass that `openDB` runs when the schema
    version rises: create each object store and each index only if it is missing.
    Records are not part of the layout, so the pass cannot touch them. */
module Schema {

  /** The object stores of the application (`APP.stores`). */
  datatype StoreName = Settings | Locations | Inspections | Equipment | Issues | Media

  /** The key path of an index: one field (string keys), or a list of fields (compound
      array keys). The two are distinct key paths, with distinct keys. */
  datatype KeyPath = Field(field: string) | Fields(fields: seq<string>)

  /** A secondary index: its store, its name and its key path. */
  datatype IndexDecl = IndexDecl(store: StoreName, name: string, keyPath: KeyPath)

  /** The layout of a database: the key path of each object store, and the key path of
      each index by (store, index name). Every index belongs to an existing store. */
  datatype Layout = Layout(stores: map<StoreName, string>, indexes: map<(StoreName, string), KeyPath>)
  {
    ghost predicate Valid()
    {
      forall si :: si in indexes ==> si.0 in stores
    }
  }

  /** The object stores and their key paths, in the order they are ensured. */
  const Stores: seq<(StoreName, string)> := [
    (Settings, "key"), (Locations, "id"), (Inspections, "id"),
    (Equipment, "id"), (Issues, "id"), (Media, "id")]

  /** The secondary indexes, none of them unique, in the order they are ensured. */
  const Indexes: seq<IndexDecl> := [
    IndexDecl(Inspections, "by_location", Field("locationId")),
    IndexDecl(Equipment, "by_inspection", Field("inspectionId")),
    IndexDecl(Issues, "by_equipment", Field("equipmentId")),
    IndexDecl(Media, "by_parent", Fields(["parentType", "parentId"])),
    IndexDecl(Media, "by_inspection", Field("inspectionId"))]

  /** Create the store unless a store of that name exists (its key path is then kept). */
  function EnsureStore(l: Layout, name: StoreName, keyPath: string): Layout
  {
    if name in l.stores then l else l.(stores := l.stores[name := keyPath])
  }

  /** Create the index unless the store already has an index of that name. */
  function EnsureIndex(l: Layout, d: IndexDecl): Layout
  {
    if (d.store, d.name) in l.indexes then l
    else l.(indexes := l.indexes[(d.store, d.name) := d.keyPath])
  }

  /** The store names of a list of declarations. */
  function NamesOf(decls: seq<(StoreName, string)>): set<StoreName>
  {
    set d | d in decls :: d.0
  }

  /** The (store, index name) pairs of a list of index declarations. */
  function IndexKeysOf(decls: seq<IndexDecl>): set<(StoreName, string)>
  {
    set d | d in decls :: (d.store, d.name)
  }

  function EnsureStores(l: Layout, decls: seq<(StoreName, string)>): (r: Layout)
    ensures r.indexes == l.indexes
    ensures forall d :: d in decls ==> d.0 in r.stores
    ensures forall s :: s in r.stores ==> s in l.stores || s in NamesOf(decls)
    ensures forall s :: s in l.stores ==> s in r.stores && r.stores[s] == l.stores[s]
    decreases |decls|
  {
    if decls == [] then l
    else
      assert forall d :: d in decls ==> d == decls[0] || d in decls[1..];
      EnsureStores(EnsureStore(l, decls[0].0, decls[0].1), decls[1..])
  }

  /** Ensuring indexes needs each index's store to be open in the upgrade
      transaction: `objectStore(name)` fails for a missing store. */
  function EnsureIndexes(l: Layout, decls: seq<IndexDecl>): (r: Layout)
    requires forall d :: d in decls ==> d.store in l.stores
    ensures r.stores == l.stores
    ensures forall d :: d in decls ==> (d.store, d.name) in r.indexes
    ensures forall si :: si in r.indexes ==> si in l.indexes || si in IndexKeysOf(decls)
    ensures forall si :: si in l.indexes ==> si in r.indexes && r.indexes[si] == l.indexes[si]
    decreases |decls|
  {
    if decls == [] then l
    else
      assert forall d :: d in decls ==> d == decls[0] || d in decls[1..];
      EnsureIndexes(EnsureIndex(l, decls[0]), decls[1..])
  }

  /** After the store pass every object store exists, so every index has its store. */
  lemma IndexStoresDeclared(l: Layout)
    ensures forall s: StoreName :: s in EnsureStores(l, Stores).stores
  {
    var r := EnsureStores(l, Stores);
    assert Stores[0] in Stores && Stores[1] in Stores && Stores[2] in Stores;
    assert Stores[3] in Stores && Stores[4] in Stores && Stores[5] in Stores;
    forall s: StoreName ensures s in r.stores {
      match s
      case Settings => assert Stores[0].0 == s;
      case Locations => assert Stores[1].0 == s;
      case Inspections => assert Stores[2].0 == s;
      case Equipment => assert Stores[3].0 == s;
      case Issues => assert Stores[4].0 == s;
      case Media => assert Stores[5].0 == s;
    }
  }

  /** A store the pass creates gets the key path it is declared with (no name is
      declared twice). */
  lemma {:induction false} EnsureStoresKeyPaths(l: Layout, decls: seq<(StoreName, string)>)
    requires forall i, j :: 0 <= i < j < |decls| ==> decls[i].0 != decls[j].0
    ensures forall d :: d in decls && d.0 !in l.stores ==> EnsureStores(l, decls).stores[d.0] == d.1
    decreases |decls|
  {
    if decls != [] {
      var next := EnsureStore(l, decls[0].0, decls[0].1);
      var rest := decls[1..];
      assert forall i, j :: 0 <= i < j < |rest| ==> rest[i].0 != rest[j].0 by {
        forall i, j | 0 <= i < j < |rest| ensures rest[i].0 != rest[j].0 {
          assert rest[i] == decls[i + 1] && rest[j] == decls[j + 1];
        }
      }
      EnsureStoresKeyPaths(next, rest);
      forall d | d in decls && d.0 !in l.stores ensures EnsureStores(l, decls).stores[d.0] == d.1 {
        if d != decls[0] {
          var i :| 1 <= i < |decls| && decls[i] == d;
          assert rest[i - 1] == d;
        }
      }
    }
  }

  /** An index the pass creates gets the key path it is declared with (no index name is
      declared twice for the same store). */
  lemma {:induction false} EnsureIndexesKeyPaths(l: Layout, decls: seq<IndexDecl>)
    requires forall d :: d in decls ==> d.store in l.stores
    requires forall i, j :: 0 <= i < j < |decls| ==>
      (decls[i].store, decls[i].name) != (decls[j].store, decls[j].name)
    ensures forall d :: d in decls && (d.store, d.name) !in l.indexes ==>
      EnsureIndexes(l, decls).indexes[(d.store, d.name)] == d.keyPath
    decreases |decls|
  {
    if decls != [] {
      var next := EnsureIndex(l, decls[0]);
      var rest := decls[1..];
      assert forall d :: d in rest ==> d in decls;
      assert forall i, j :: 0 <= i < j < |rest| ==>
        (rest[i].store, rest[i].name) != (rest[j].store, rest[j].name) by {
        forall i, j | 0 <= i < j < |rest|
          ensures (rest[i].store, rest[i].name) != (rest[j].store, rest[j].name)
        {
          assert rest[i] == decls[i + 1] && rest[j] == decls[j + 1];
        }
      }
      EnsureIndexesKeyPaths(next, rest);
      forall d | d in decls && (d.store, d.name) !in l.indexes
        ensures EnsureIndexes(l, decls).indexes[(d.store, d.name)] == d.keyPath
      {
        if d != decls[0] {
          var i :| 1 <= i < |decls| && decls[i] == d;
          assert rest[i - 1] == d;
        }
      }
    }
  }

  /** The `onupgradeneeded` handler: afterwards all six stores and every declared index
      exist, whatever the database held before. */
  function Upgrade(l: Layout): (r: Layout)
    ensures forall s: StoreName :: s in r.stores
    ensures forall d :: d in Indexes ==> (d.store, d.name) in r.indexes
  {
    IndexStoresDeclared(l);
    EnsureIndexes(EnsureStores(l, Stores), Indexes)
  }

  /** No store is declared twice. */
  lemma StoresDistinct()
    ensures forall i, j :: 0 <= i < j < |Stores| ==> Stores[i].0 != Stores[j].0
  {
  }

  /** No store declares two indexes of the same name. */
  lemma IndexesDistinct()
    ensures forall i, j :: 0 <= i < j < |Indexes| ==>
      (Indexes[i].store, Indexes[i].name) != (Indexes[j].store, Indexes[j].name)
  {
  }

  /** The stores and indexes the upgrade creates carry their declared key paths:
      `settings` is keyed by `key`, the other stores by `id`, and each index by its
      declared fields. */
  lemma UpgradeKeyPaths(l: Layout)
    ensures forall d :: d in Stores && d.0 !in l.stores ==> Upgrade(l).stores[d.0] == d.1
    ensures forall d :: d in Indexes && (d.store, d.name) !in l.indexes ==>
      Upgrade(l).indexes[(d.store, d.name)] == d.keyPath
  {
    var mid := EnsureStores(l, Stores);
    IndexStoresDeclared(l);
    StoresDistinct();
    IndexesDistinct();
    EnsureStoresKeyPaths(l, Stores);
    assert forall d :: d in Indexes ==> d.store in mid.stores;
    EnsureIndexesKeyPaths(mid, Indexes);
  }

  /** After the upgrade every declared store and index exists; stores and indexes that
      existed keep their key paths; nothing else is created. */
  lemma UpgradeIsAdditive(l: Layout)
    requires l.Valid()
    ensures Upgrade(l).Valid()
    ensures forall d :: d in Stores ==> d.0 in Upgrade(l).stores
    ensures forall d :: d in Indexes ==> (d.store, d.name) in Upgrade(l).indexes
    ensures forall s :: s in Upgrade(l).stores ==> s in l.stores || s in NamesOf(Stores)
    ensures forall si :: si in Upgrade(l).indexes ==> si in l.indexes || si in IndexKeysOf(Indexes)
    ensures forall s :: s in l.stores ==> Upgrade(l).stores[s] == l.stores[s]
    ensures forall si :: si in l.indexes ==> Upgrade(l).indexes[si] == l.indexes[si]
  {
    var u := Upgrade(l);
    IndexStoresDeclared(l);
    forall si | si in u.indexes ensures si.0 in u.stores {
      if si !in l.indexes {
        var d :| d in Indexes && (d.store, d.name) == si;
      }
    }
  }

  /** A pass over declarations that all exist already changes nothing. */
  lemma {:induction false} EnsureStoresPresent(l: Layout, decls: seq<(StoreName, string)>)
    requires forall d :: d in decls ==> d.0 in l.stores
    ensures EnsureStores(l, decls) == l
    decreases |decls|
  {
    if decls != [] {
      assert decls[0].0 in l.stores;
      EnsureStoresPresent(l, decls[1..]);
    }
  }

  lemma {:induction false} EnsureIndexesPresent(l: Layout, decls: seq<IndexDecl>)
    requires forall d :: d in decls ==> d.store in l.stores && (d.store, d.name) in l.indexes
    ensures EnsureIndexes(l, decls) == l
    decreases |decls|
  {
    if decls != [] {
      assert decls[0] in decls;
      EnsureIndexesPresent(l, decls[1..]);
    }
  }

  /** Running the upgrade on an upgraded database is a no-op, not an error. */
  lemma UpgradeIdempotent(l: Layout)
    requires l.Valid()
    ensures Upgrade(Upgrade(l)) == Upgrade(l)
  {
    var u := Upgrade(l);
    UpgradeIsAdditive(l);
    assert forall d :: d in Stores ==> d.0 in u.stores;
    EnsureStoresPresent(u, Stores);
    assert forall d :: d in Indexes ==> (d.store, d.name) in u.indexes;
    EnsureIndexesPresent(u, Indexes);
  }
}
