/**
 * The entity manager: identity map, entity states, and the per-class
 * caches of metadata and persisters (src/EntityManager.php).
 */
module Manager {
  import opened Wrappers
  import opened PhpArrays
  import opened Values
  import opened Entities
  import opened Meta
  import opened Storage
  import opened Persister

  /** STATE_MANAGED, STATE_NEW, STATE_DETACHED, STATE_REMOVED (1 to 4). */
  datatype State = Managed | New | Detached | Removed

  /** The id given to `find`: a single value, or an array of column => value. */
  datatype IdArg = Scalar(v: Value) | Keyed(a: PhpArray<Value>)

  /** A single value stands for `['id' => value]`. */
  function IdArray(id: IdArg): PhpArray<Value>
  {
    match id
    case Scalar(v) => [("id", v)]
    case Keyed(a) => a
  }

  /** The position of the first key column the id leaves unset, or |pk| when it sets them all. */
  function FirstUnset(pk: seq<(string, bool)>, id: seq<(string, Value)>): (r: nat)
    ensures r <= |pk|
    ensures forall j :: 0 <= j < r ==> IsSet(id, pk[j].0)
    ensures r < |pk| ==> !IsSet(id, pk[r].0)
  {
    if pk == [] then 0
    else if !IsSet(id, pk[0].0) then 0
    else
      var r := 1 + FirstUnset(pk[1..], id);
      assert forall j :: 1 <= j < r ==> pk[j] == pk[1..][j - 1];
      r
  }

  /** The id's value for each key column, in the order the class declares its key. */
  function Project(pk: PhpArray<bool>, id: seq<(string, Value)>): (r: PhpArray<Value>)
    ensures |r| == |pk|
    ensures forall j :: 0 <= j < |pk| ==> r[j] == (pk[j].0, At(id, pk[j].0))
  {
    var r := seq(|pk|, j requires 0 <= j < |pk| => (pk[j].0, At(id, pk[j].0)));
    assert Keys(r) == Keys(pk);
    r
  }

  /**
   * What `find` makes of an id before looking anything up: every key
   * column must be set (not missing, not null), the id may name nothing
   * else, and the result lists the key's values in declaration order.
   */
  function CanonicalId(cls: string, pk: PhpArray<bool>, id: PhpArray<Value>): (r: Result<PhpArray<Value>>)
    ensures r.Ok? <==>
      && (forall j :: 0 <= j < |pk| ==> IsSet(id, pk[j].0))
      && (forall j :: 0 <= j < |id| ==> id[j].0 in Keys(pk))
    ensures r.Ok? ==> Keys(r.value) == Keys(pk)
    ensures r.Ok? ==> forall j :: 0 <= j < |pk| ==> Get(id, pk[j].0) == Some(r.value[j].1) && r.value[j].1 != Null
    ensures FirstUnset(pk, id) < |pk| ==> r == Err(MissingPrimaryKey(cls, pk[FirstUnset(pk, id)].0))
    ensures FirstUnset(pk, id) == |pk| && r.Err? ==>
      && r.error.UnknownPrimaryKeys? && r.error.cls == cls && r.error.columns != []
      && (forall c :: c in r.error.columns <==> c in Keys(id) && c !in Keys(pk))
      && SubSeq(r.error.columns, Keys(id))
  {
    var k := FirstUnset(pk, id);
    var extra := Exclude(Keys(id), Keys(pk));
    ExcludeInOrder(Keys(id), Keys(pk));
    if k < |pk| then Err(MissingPrimaryKey(cls, pk[k].0))
    else if extra != [] then
      assert extra[0] in Keys(id);
      Err(UnknownPrimaryKeys(cls, extra))
    else
      assert forall j :: 0 <= j < |id| ==> Keys(id)[j] == id[j].0 && id[j].0 in Keys(id);
      var r := Project(pk, id);
      assert Keys(r) == Keys(pk);
      Ok(r)
  }

  /**
   * The loop of `find` over the key columns: each one is checked, copied
   * into the sorted id and unset from the given one; whatever is left over
   * is an error.
   */
  method SortId(cls: string, pk: PhpArray<bool>, id: PhpArray<Value>) returns (r: Result<PhpArray<Value>>)
    ensures r == CanonicalId(cls, pk, id)
  {
    var rest: seq<(string, Value)> := id;
    WithoutNothing(id);
    var sorted: seq<(string, Value)> := [];
    var i := 0;
    while i < |pk|
      invariant 0 <= i <= |pk|
      invariant rest == Without(id, Keys(pk)[..i])
      invariant Copied(sorted, pk, id, i)
    {
      var column := pk[i].0;
      assert column !in Keys(pk)[..i];
      GetWithout(id, Keys(pk)[..i], column);
      if !IsSet(rest, column) {
        CopiedUnset(sorted, pk, id, i);
        return Err(MissingPrimaryKey(cls, column));
      }
      CopiedStep(sorted, pk, id, i);
      sorted := sorted + [(column, At(rest, column))];
      WithoutStep(id, Keys(pk)[..i], column);
      PrefixStep(Keys(pk), i);
      rest := Without(rest, [column]);
      i := i + 1;
    }
    assert Keys(pk)[..i] == Keys(pk);
    KeysWithout(id, Keys(pk));
    CopiedAll(sorted, pk, id);
    if rest != [] {
      assert Keys(rest)[0] == rest[0].0;
      return Err(UnknownPrimaryKeys(cls, Keys(rest)));
    }
    r := Ok(sorted);
  }

  /** The first `i` key columns are set in the id and copied, in order, into `sorted`. */
  predicate Copied(sorted: seq<(string, Value)>, pk: PhpArray<bool>, id: PhpArray<Value>, i: nat)
  {
    && i <= |pk| && |sorted| == i
    && forall j :: 0 <= j < i ==> IsSet(id, pk[j].0) && sorted[j] == (pk[j].0, At(id, pk[j].0))
  }

  lemma CopiedStep(sorted: seq<(string, Value)>, pk: PhpArray<bool>, id: PhpArray<Value>, i: nat)
    requires Copied(sorted, pk, id, i) && i < |pk| && IsSet(id, pk[i].0)
    ensures Copied(sorted + [(pk[i].0, At(id, pk[i].0))], pk, id, i + 1)
  {
  }

  lemma CopiedUnset(sorted: seq<(string, Value)>, pk: PhpArray<bool>, id: PhpArray<Value>, i: nat)
    requires Copied(sorted, pk, id, i) && i < |pk| && !IsSet(id, pk[i].0)
    ensures FirstUnset(pk, id) == i
  {
  }

  lemma CopiedAll(sorted: seq<(string, Value)>, pk: PhpArray<bool>, id: PhpArray<Value>)
    requires Copied(sorted, pk, id, |pk|)
    ensures FirstUnset(pk, id) == |pk|
    ensures DistinctKeys(sorted) && sorted == Project(pk, id)
  {
    assert Keys(sorted) == Keys(pk);
  }

  /** The identity map's key for an id: its values joined by spaces (`implode(' ', $id)`). */
  function IdentityKey(id: seq<(string, Value)>): string
  {
    Implode(ValuesOf(id))
  }

  /** The probe `getEntityState` looks up: the key definition itself, each auto flag as a value. */
  function Probe(pk: PhpArray<bool>): (r: PhpArray<Value>)
    ensures Keys(r) == Keys(pk)
  {
    var r := seq(|pk|, j requires 0 <= j < |pk| => (pk[j].0, Bool(pk[j].1)));
    assert Keys(r) == Keys(pk);
    r
  }

  // ---------------------------------------------------------------------
  // Properties of the id handling
  // ---------------------------------------------------------------------

  /** Listing the same composite id in another order resolves to the same entry. */
  lemma CanonicalIdReorder(cls: string, pk: PhpArray<bool>, a: PhpArray<Value>, b: PhpArray<Value>)
    requires forall p :: p in a <==> p in b
    ensures CanonicalId(cls, pk, a).Ok? <==> CanonicalId(cls, pk, b).Ok?
    ensures CanonicalId(cls, pk, a).Ok? ==> CanonicalId(cls, pk, a) == CanonicalId(cls, pk, b)
  {
    forall c ensures Get(a, c) == Get(b, c) && (c in Keys(a) <==> c in Keys(b)) {
      SameGet(a, b, c);
    }
    AllKeysIn(a, Keys(pk));
    AllKeysIn(b, Keys(pk));
    assert CanonicalId(cls, pk, a).Ok? <==> CanonicalId(cls, pk, b).Ok?;
    if CanonicalId(cls, pk, a).Ok? {
      assert CanonicalId(cls, pk, a) == Ok(Project(pk, a));
      assert CanonicalId(cls, pk, b) == Ok(Project(pk, b));
      ProjectSame(pk, a, b);
    }
  }

  /** Ids that map every column alike project to the same key values. */
  lemma ProjectSame(pk: PhpArray<bool>, a: seq<(string, Value)>, b: seq<(string, Value)>)
    requires forall c :: Get(a, c) == Get(b, c)
    ensures Project(pk, a) == Project(pk, b)
  {
    assert forall j :: 0 <= j < |pk| ==> At(a, pk[j].0) == At(b, pk[j].0);
  }

  /** Every entry's key is among `ks` exactly when every key of the array is. */
  lemma AllKeysIn<V>(a: seq<(string, V)>, ks: seq<string>)
    ensures (forall j :: 0 <= j < |a| ==> a[j].0 in ks) <==> (forall c :: c in Keys(a) ==> c in ks)
  {
    assert forall j :: 0 <= j < |a| ==> Keys(a)[j] == a[j].0;
  }

  /** Two arrays with the same entries map every key alike. */
  lemma SameGet(a: PhpArray<Value>, b: PhpArray<Value>, k: string)
    requires forall p :: p in a <==> p in b
    ensures Get(a, k) == Get(b, k)
  {
    if Get(a, k).Some? {
      GetIffIn(a, k, Get(a, k).value);
      GetIffIn(b, k, Get(a, k).value);
    } else if Get(b, k).Some? {
      GetIffIn(b, k, Get(b, k).value);
      GetIffIn(a, k, Get(b, k).value);
    }
  }

  /** With the default key, a single value is the id itself, unless it is null. */
  lemma ScalarIdDefaultKey(cls: string, v: Value)
    ensures CanonicalId(cls, DefaultPrimary, IdArray(Scalar(v))) ==
      if v == Null then Err(MissingPrimaryKey(cls, "id")) else Ok([("id", v)])
  {
    var id := IdArray(Scalar(v));
    assert Get(id, "id") == Some(v);
    assert Keys(DefaultPrimary) == ["id"] && Keys(id) == ["id"];
    if v != Null {
      assert IsSet(id, DefaultPrimary[0].0);
      var r := CanonicalId(cls, DefaultPrimary, id);
      assert r.Ok?;
      assert Keys(r.value) == ["id"];
      assert r.value == [("id", v)];
    }
  }

  /** A single value meets a composite key as a missing first column. */
  lemma ScalarIdCompositeKey(cls: string, pk: PhpArray<bool>, v: Value)
    requires |pk| >= 2
    ensures CanonicalId(cls, pk, IdArray(Scalar(v))).Err?
  {
    var id := IdArray(Scalar(v));
    if pk[0].0 != "id" {
      assert !IsSet(id, pk[0].0);
    } else {
      assert pk[1].0 != "id";
      assert !IsSet(id, pk[1].0);
    }
  }

  /**
   * The identity map keys ids by their values alone: a string holding a
   * space can make two different composite ids share one entry, and
   * `1`, `"1"` and `true` share one too.
   */
  lemma IdentityKeyCollisions()
    ensures IdentityKey([("a", Str("x y")), ("b", Str("z"))]) == IdentityKey([("a", Str("x")), ("b", Str("y z"))])
    ensures IdentityKey([("id", Int(1))]) == IdentityKey([("id", Str("1"))]) == IdentityKey([("id", Bool(true))]) == "1"
  {
    assert ValuesOf([("a", Str("x y")), ("b", Str("z"))]) == [Str("x y"), Str("z")];
    assert ValuesOf([("a", Str("x")), ("b", Str("y z"))]) == [Str("x"), Str("y z")];
    assert Implode([Str("z")]) == "z";
    assert Implode([Str("y z")]) == "y z";
    assert DecimalString(1) == "1";
  }

  // ---------------------------------------------------------------------
  // What find and getEntityState come to
  // ---------------------------------------------------------------------

  /** The position of the first row meeting the criteria, or |rows| when none does. */
  function FirstMatch(rows: seq<Row>, criteria: seq<(string, Value)>): (k: nat)
    ensures k <= |rows|
    ensures forall j :: 0 <= j < k ==> !Satisfies(rows[j], criteria)
    ensures k < |rows| ==> Satisfies(rows[k], criteria)
  {
    if rows == [] then 0
    else if Satisfies(rows[0], criteria) then 0
    else
      var k := 1 + FirstMatch(rows[1..], criteria);
      assert forall j :: 1 <= j < k ==> rows[j] == rows[1..][j - 1];
      k
  }

  /** The first matching row is the one no earlier row precedes. */
  lemma FirstMatchIs(rows: seq<Row>, criteria: seq<(string, Value)>, k: nat)
    requires k < |rows| && Satisfies(rows[k], criteria)
    requires forall j :: 0 <= j < k ==> !Satisfies(rows[j], criteria)
    ensures FirstMatch(rows, criteria) == k
  {
  }

  lemma FirstMatchExists(rows: seq<Row>, criteria: seq<(string, Value)>)
    ensures FirstMatch(rows, criteria) < |rows| <==> exists j :: 0 <= j < |rows| && Satisfies(rows[j], criteria)
  {
  }

  /** How `find` ends: an error, an entity already in the identity map, no row, or a loaded row. */
  datatype Resolution =
    | Failed(error: Error)
    | Cached(entity: Entity)
    | Missing
    | Loaded(canon: PhpArray<Value>, row: Row)

  class EntityManager {
    const connection: Connection
    /** The entity classes known to the program, by name (class loading is not modelled). */
    const classes: map<string, EntityClass>
    /** class name => identity key => entity */
    var identityMap: map<string, map<string, Entity>>
    var entityIdentifiers: map<Entity, PhpArray<Value>>
    var entityStates: map<Entity, State>
    var metadataCache: map<string, EntityMeta>
    var persisters: map<string, EntityPersister>

    /**
     * The caches hold one metadata object and one persister per class,
     * built over that class and this connection; every identity-map entry
     * is a managed entity of that class whose id hashes to the entry's key.
     */
    ghost predicate Valid()
      reads this
    {
      && CachesAgree(classes, metadataCache, persisters, connection)
      && Consistent(identityMap, entityStates, entityIdentifiers)
    }

    /** Entity tracking is untouched (the caches may have grown). */
    twostate predicate TrackingUnchanged()
      reads this
    {
      && identityMap == old(identityMap)
      && entityIdentifiers == old(entityIdentifiers)
      && entityStates == old(entityStates)
    }

    /** Every cached metadata object and persister is still cached, under the same class. */
    twostate predicate CachesKept()
      reads this
    {
      && (forall c :: c in old(metadataCache) ==> c in metadataCache && metadataCache[c] == old(metadataCache)[c])
      && (forall c :: c in old(persisters) ==> c in persisters && persisters[c] == old(persisters)[c])
    }

    constructor (connection: Connection, classes: map<string, EntityClass>)
      requires forall c :: c in classes ==> classes[c].name == c
      ensures this.connection == connection && this.classes == classes
      ensures identityMap == map[] && entityIdentifiers == map[] && entityStates == map[]
      ensures metadataCache == map[] && persisters == map[]
      ensures Valid()
    {
      this.connection := connection;
      this.classes := classes;
      identityMap := map[];
      entityIdentifiers := map[];
      entityStates := map[];
      metadataCache := map[];
      persisters := map[];
    }

    /** The entity stored under the id's identity key for that class, if any. */
    function GetById(id: seq<(string, Value)>, cls: string): Option<Entity>
      reads this`identityMap
    {
      var h := IdentityKey(id);
      if cls in identityMap && h in identityMap[cls] then Some(identityMap[cls][h]) else None
    }

    /** What the identity map returns is managed, of that class, and registered under an equal key. */
    lemma GetByIdRegistered(id: seq<(string, Value)>, cls: string)
      requires Valid()
      ensures GetById(id, cls).Some? ==>
        Registered(entityStates, entityIdentifiers, GetById(id, cls).value, cls, IdentityKey(id))
    {
    }

    /** One metadata object per class, made on first use and returned again afterwards. */
    method GetEntityMeta(cls: string) returns (m: EntityMeta)
      requires Valid() && cls in classes
      modifies this
      ensures Valid() && TrackingUnchanged() && persisters == old(persisters) && CachesKept()
      ensures cls in metadataCache && m == metadataCache[cls]
      ensures m.decl == classes[cls] && m.tableName == TableName(cls)
      ensures cls in old(metadataCache) ==> m == old(metadataCache)[cls] && metadataCache == old(metadataCache)
      ensures cls !in old(metadataCache) ==> fresh(m) && metadataCache == old(metadataCache)[cls := m]
    {
      if cls !in metadataCache {
        var made := new EntityMeta(classes[cls]);
        metadataCache := metadataCache[cls := made];
      }
      m := metadataCache[cls];
    }

    /** One persister per class, over the class's metadata and this connection. */
    method GetEntityPersister(cls: string) returns (p: EntityPersister)
      requires Valid() && cls in classes
      modifies this
      ensures Valid() && TrackingUnchanged()
      ensures cls in persisters && p == persisters[cls]
      ensures p.meta.decl == classes[cls] && p.meta.tableName == TableName(cls) && p.conn == connection
      ensures cls in old(persisters) ==>
        p == old(persisters)[cls] && persisters == old(persisters) && metadataCache == old(metadataCache)
      ensures cls !in old(persisters) ==> fresh(p) && persisters == old(persisters)[cls := p]
      ensures cls !in old(persisters) ==>
        metadataCache == if cls in old(metadataCache) then old(metadataCache) else old(metadataCache)[cls := p.meta]
      ensures CachesKept()
    {
      if cls !in persisters {
        var m := GetEntityMeta(cls);
        var made := new EntityPersister(m, connection);
        AddPersisterAgrees(classes, metadataCache, persisters, connection, cls, made);
        persisters := persisters[cls := made];
      }
      p := persisters[cls];
    }

    /**
     * What `find` comes to in the current state: the class's key, then the
     * canonical id, then the lookup by that id.
     */
    function Resolve(cls: string, id: IdArg): Resolution
      requires cls in classes
      reads this`identityMap, connection`db
    {
      match PrimaryKeyColumns(classes[cls])
      case Err(err) => Failed(err)
      case Ok(pk) =>
        match CanonicalId(cls, pk, IdArray(id))
        case Err(err) => Failed(err)
        case Ok(canon) => ResolveCanonical(cls, canon)
    }

    /** The identity map first, then the first row of the class's table meeting the id. */
    function ResolveCanonical(cls: string, canon: PhpArray<Value>): Resolution
      reads this`identityMap, connection`db
    {
      if GetById(canon, cls).Some? then Cached(GetById(canon, cls).value)
      else LoadOutcome(connection.db, TableName(cls), canon)
    }

    /**
     * Looks an entity up by id. Errors, an identity-map hit and a missing
     * row leave tracking as it was; a loaded row becomes a new entity that
     * is registered as managed under the canonical id.
     */
    method Find(cls: string, id: IdArg) returns (r: Result<Option<Entity>>)
      requires Valid() && cls in classes
      modifies this
      ensures Valid() && CachesKept()
      ensures var res := old(Resolve(cls, id));
        && (res.Failed? ==> r == Err(res.error) && TrackingUnchanged())
        && (res.Cached? ==> r == Ok(Some(res.entity)) && TrackingUnchanged())
        && (res.Missing? ==> r == Ok(None) && TrackingUnchanged())
        && (res.Loaded? ==> r.Ok? && r.value.Some? && Admitted(r.value.value, cls, res.canon, res.row))
    {
      var meta := GetEntityMeta(cls);
      var pk := PrimaryKeyColumns(meta.decl);
      if pk.Err? {
        return Err(pk.error);
      }
      var sorted := SortId(cls, pk.value, IdArray(id));
      if sorted.Err? {
        return Err(sorted.error);
      }
      r := FindCanonical(cls, sorted.value);
    }

    /** The part of `find` after the id is sorted: the identity map, then the persister. */
    method FindCanonical(cls: string, canon: PhpArray<Value>) returns (r: Result<Option<Entity>>)
      requires Valid() && cls in classes
      modifies this
      ensures Valid() && CachesKept()
      ensures var res := old(ResolveCanonical(cls, canon));
        && (res.Failed? ==> r == Err(res.error) && TrackingUnchanged())
        && (res.Cached? ==> r == Ok(Some(res.entity)) && TrackingUnchanged())
        && (res.Missing? ==> r == Ok(None) && TrackingUnchanged())
        && (res.Loaded? ==> r.Ok? && r.value.Some? && Admitted(r.value.value, cls, res.canon, res.row))
    {
      var hit := GetById(canon, cls);
      if hit.Some? {
        return Ok(hit);
      }
      var persister := GetEntityPersister(cls);
      r := LoadManaged(persister, cls, canon);
    }

    /** Loads the entity through the class's persister and registers what it finds. */
    method LoadManaged(persister: EntityPersister, cls: string, canon: PhpArray<Value>)
      returns (r: Result<Option<Entity>>)
      requires Valid()
      requires persister.conn == connection && persister.meta.tableName == TableName(cls)
      requires persister.meta.decl.name == cls
      modifies this`entityStates, this`entityIdentifiers, this`identityMap
      ensures Valid()
      ensures var res := old(LoadOutcome(connection.db, TableName(cls), canon));
        && (res.Failed? ==> r == Err(res.error) && TrackingUnchanged())
        && (res.Missing? ==> r == Ok(None) && TrackingUnchanged())
        && (res.Loaded? ==> r.Ok? && r.value.Some? && Admitted(r.value.value, cls, res.canon, res.row))
        && !res.Cached?
    {
      var loaded := persister.Load(canon);
      ghost var rows := TableRows(connection.db, TableName(cls));
      if loaded.Err? {
        return Err(loaded.error);
      }
      if loaded.value.None? {
        return Ok(None);
      }
      var e := loaded.value.value;
      ghost var k :| 0 <= k < |rows| && e.props == rows[k] && Satisfies(rows[k], canon) &&
                     forall j :: 0 <= j < k ==> !Satisfies(rows[j], canon);
      FirstMatchIs(rows, canon, k);
      RegisterManaged(e, canon);
      return Ok(Some(e));
    }

    /** A new entity holding the row, now managed under the canonical id and found there. */
    twostate predicate Admitted(new e: Entity, cls: string, canon: PhpArray<Value>, row: Row)
      reads this, e
    {
      && fresh(e) && e.cls == cls && e.props == row
      && entityStates == old(entityStates)[e := Managed]
      && entityIdentifiers == old(entityIdentifiers)[e := canon]
      && identityMap == old(identityMap)[cls := ClassEntries(old(identityMap), cls)[IdentityKey(canon) := e]]
      && GetById(canon, cls) == Some(e)
    }

    /**
     * What `getEntityState` answers in the current state: the recorded
     * state of a tracked entity; otherwise NEW for an empty key, and
     * DETACHED when the key definition itself, taken as an id, is found
     * in the identity map or matches a row.
     */
    function EntityState(e: Entity): Result<State>
      requires e.cls in classes
      reads this`entityStates, this`identityMap, connection`db
    {
      if e in entityStates then Ok(entityStates[e])
      else match PrimaryKeyColumns(classes[e.cls])
        case Err(err) => Err(err)
        case Ok(pk) => if pk == [] then Ok(New) else ProbeState(e.cls, pk)
    }

    /** The key definition as a probe: the identity map first, then the table. */
    function ProbeState(cls: string, pk: PhpArray<bool>): Result<State>
      reads this`identityMap, connection`db
    {
      if GetById(Probe(pk), cls).Some? then Ok(Detached)
      else ExistsState(connection.db, TableName(cls), Probe(pk))
    }

    /** The state of an entity: as recorded, or worked out from its class's key. */
    method GetEntityState(e: Entity) returns (r: Result<State>)
      requires Valid() && e.cls in classes
      modifies this
      ensures Valid() && TrackingUnchanged() && CachesKept()
      ensures r == EntityState(e)
    {
      if e in entityStates {
        return Ok(entityStates[e]);
      }
      var meta := GetEntityMeta(e.cls);
      var pk := PrimaryKeyColumns(meta.decl);
      if pk.Err? {
        return Err(pk.error);
      }
      if pk.value == [] {
        return Ok(New);
      }
      r := GetProbeState(e.cls, pk.value);
    }

    method GetProbeState(cls: string, pk: PhpArray<bool>) returns (r: Result<State>)
      requires Valid() && cls in classes
      modifies this
      ensures Valid() && TrackingUnchanged() && CachesKept()
      ensures r == ProbeState(cls, pk)
    {
      var probe := Probe(pk);
      if GetById(probe, cls).Some? {
        return Ok(Detached);
      }
      var persister := GetEntityPersister(cls);
      r := ProbeTable(persister, cls, probe);
    }

    /** Asks the persister whether a row matches the probe. */
    method ProbeTable(persister: EntityPersister, cls: string, probe: PhpArray<Value>) returns (r: Result<State>)
      requires persister.conn == connection && persister.meta.tableName == TableName(cls)
      ensures r == ExistsState(connection.db, TableName(cls), probe)
    {
      var found := persister.Exists(probe);
      FirstMatchExists(TableRows(connection.db, TableName(cls)), probe);
      if found.Err? {
        return Err(found.error);
      }
      r := Ok(if found.value then Detached else New);
    }

    /** Persisting fails for a detached entity (and when its state cannot be worked out); otherwise nothing happens yet. */
    method Persist(e: Entity) returns (r: Outcome)
      requires Valid() && e.cls in classes
      modifies this
      ensures Valid() && TrackingUnchanged() && CachesKept()
      ensures EntityState(e).Err? ==> r == Fail(EntityState(e).error)
      ensures EntityState(e) == Ok(Detached) ==> r == Fail(DetachedPersist)
      ensures EntityState(e).Ok? && EntityState(e).value != Detached ==> r == Pass
    {
      var state := GetEntityState(e);
      if state.Err? {
        return Fail(state.error);
      }
      match state.value
      case Managed => r := Pass;
      case New => r := Pass;
      case Removed => r := Pass;
      case Detached => r := Fail(DetachedPersist);
    }

    // -------------------------------------------------------------------
    // Properties of find and getEntityState
    // -------------------------------------------------------------------

    /** Once an entity is registered under the canonical id, finding that id again returns the same object. */
    lemma FindAgainIsCached(cls: string, id: IdArg, canon: PhpArray<Value>, e: Entity)
      requires cls in classes && PrimaryKeyColumns(classes[cls]).Ok?
      requires CanonicalId(cls, PrimaryKeyColumns(classes[cls]).value, IdArray(id)) == Ok(canon)
      requires GetById(canon, cls) == Some(e)
      ensures Resolve(cls, id) == Cached(e)
    {
    }

    /**
     * Loading one id leaves every other identity-map entry where it was, so
     * finding an id that was already cached still returns the same object.
     */
    twostate lemma AdmittedKeepsOthers(new e: Entity, cls: string, canon: PhpArray<Value>, row: Row,
                                       other: seq<(string, Value)>, otherCls: string)
      requires Admitted(e, cls, canon, row)
      requires otherCls != cls || IdentityKey(other) != IdentityKey(canon)
      ensures GetById(other, otherCls) == old(GetById(other, otherCls))
    {
    }

    /** The order in which a composite id lists its columns does not change what `find` does with it. */
    lemma ResolveReorder(cls: string, a: PhpArray<Value>, b: PhpArray<Value>)
      requires cls in classes
      requires forall p :: p in a <==> p in b
      ensures Resolve(cls, Keyed(a)).Failed? <==> Resolve(cls, Keyed(b)).Failed?
      ensures !Resolve(cls, Keyed(a)).Failed? ==> Resolve(cls, Keyed(a)) == Resolve(cls, Keyed(b))
    {
      if PrimaryKeyColumns(classes[cls]).Ok? {
        CanonicalIdReorder(cls, PrimaryKeyColumns(classes[cls]).value, a, b);
      }
    }

    /** With the default key, a single non-null value is looked up as `['id' => value]`. */
    lemma ResolveScalar(cls: string, v: Value)
      requires cls in classes && classes[cls].primary.Undeclared?
      ensures Resolve(cls, Scalar(v)) ==
        if v == Null then Failed(MissingPrimaryKey(cls, "id")) else ResolveCanonical(cls, [("id", v)])
    {
      ScalarIdDefaultKey(cls, v);
    }

    /** Only managed entities are ever recorded, so a tracked entity is always MANAGED and persists. */
    lemma TrackedIsManaged(e: Entity)
      requires Valid() && e.cls in classes && e in entityStates
      ensures EntityState(e) == Ok(Managed)
    {
    }

    /**
     * The state of an untracked entity never looks at the entity's own
     * values: two untracked entities of one class always share a state.
     */
    lemma UntrackedStateIgnoresValues(e1: Entity, e2: Entity)
      requires e1.cls in classes && e1.cls == e2.cls
      requires e1 !in entityStates && e2 !in entityStates
      ensures EntityState(e1) == EntityState(e2)
    {
    }

    /**
     * With the default key the probe is `['id' => true]`, whose identity
     * key is "1": once the entity with id 1 is in the identity map, every
     * untracked entity of the class is DETACHED.
     */
    lemma IdentityMapDetachesAll(e: Entity)
      requires e.cls in classes && classes[e.cls].primary.Undeclared?
      requires e !in entityStates
      requires GetById([("id", Int(1))], e.cls).Some?
      ensures EntityState(e) == Ok(Detached)
    {
      IdentityKeyCollisions();
      assert Probe(DefaultPrimary) == [("id", Bool(true))];
    }

    /**
     * With the default key the table probe is `id = TRUE`, which a row
     * with id 1 meets: while such a row exists, every untracked entity of
     * the class is DETACHED.
     */
    lemma TableRowDetachesAll(e: Entity, j: nat)
      requires e.cls in classes && classes[e.cls].primary.Undeclared?
      requires e !in entityStates
      requires Run(connection.db, SelectSql(TableName(e.cls), [("id", Bool(true))])).Ok?
      requires j < |TableRows(connection.db, TableName(e.cls))|
      requires Cell(TableRows(connection.db, TableName(e.cls))[j], "id") == Int(1)
      ensures EntityState(e) == Ok(Detached)
    {
      var probe := Probe(DefaultPrimary);
      assert probe == [("id", Bool(true))];
      var rows := TableRows(connection.db, TableName(e.cls));
      assert Satisfies(rows[j], probe);
    }

    /** Stores the entity under its class and the hash of its recorded identifiers. */
    method AddToIdentityMap(e: Entity)
      requires Valid() && e in entityStates
      modifies this`identityMap
      ensures Valid()
      ensures var h := IdentityKey(entityIdentifiers[e]);
        identityMap == old(identityMap)[e.cls := ClassEntries(old(identityMap), e.cls)[h := e]]
      ensures GetById(entityIdentifiers[e], e.cls) == Some(e)
    {
      var h := IdentityKey(entityIdentifiers[e]);
      AddKeepsConsistent(identityMap, entityStates, entityIdentifiers, e);
      identityMap := identityMap[e.cls := ClassEntries(identityMap, e.cls)[h := e]];
    }

    /**
     * Records a newly loaded entity as managed under its id. The only
     * caller passes an entity it has just loaded, which nothing tracks yet.
     */
    method RegisterManaged(e: Entity, id: PhpArray<Value>)
      requires Valid() && e !in entityStates
      modifies this`entityStates, this`entityIdentifiers, this`identityMap
      ensures Valid()
      ensures entityStates == old(entityStates)[e := Managed]
      ensures entityIdentifiers == old(entityIdentifiers)[e := id]
      ensures identityMap == old(identityMap)[e.cls := ClassEntries(old(identityMap), e.cls)[IdentityKey(id) := e]]
      ensures GetById(id, e.cls) == Some(e)
    {
      TrackKeepsConsistent(identityMap, entityStates, entityIdentifiers, e, id);
      entityStates := entityStates[e := Managed];
      entityIdentifiers := entityIdentifiers[e := id];
      AddToIdentityMap(e);
    }
  }

  /** The identity-map entries of one class (none when the class has none yet). */
  function ClassEntries(identityMap: map<string, map<string, Entity>>, cls: string): map<string, Entity>
  {
    if cls in identityMap then identityMap[cls] else map[]
  }

  /** Each cached metadata object describes its class; each persister uses it and the connection. */
  ghost predicate CachesAgree(classes: map<string, EntityClass>, metadataCache: map<string, EntityMeta>,
                              persisters: map<string, EntityPersister>, connection: Connection)
  {
    && (forall c :: c in classes ==> classes[c].name == c)
    && MetaCached(classes, metadataCache)
    && (forall c :: c in persisters ==>
          c in metadataCache && persisters[c].meta == metadataCache[c] && persisters[c].conn == connection)
  }

  /** Each cached metadata object describes its declared class and that class's table. */
  ghost predicate MetaCached(classes: map<string, EntityClass>, metadataCache: map<string, EntityMeta>)
  {
    forall c :: c in metadataCache ==>
      c in classes && metadataCache[c].decl == classes[c] && metadataCache[c].tableName == TableName(c)
  }

  /** Caching a persister built over the class's cached metadata and the connection keeps the caches in agreement. */
  lemma AddPersisterAgrees(classes: map<string, EntityClass>, metadataCache: map<string, EntityMeta>,
                           persisters: map<string, EntityPersister>, connection: Connection, cls: string, p: EntityPersister)
    requires CachesAgree(classes, metadataCache, persisters, connection)
    requires cls in metadataCache && p.meta == metadataCache[cls] && p.conn == connection
    ensures CachesAgree(classes, metadataCache, persisters[cls := p], connection)
  {
    var ps := persisters[cls := p];
    forall c | c in ps
      ensures c in metadataCache && ps[c].meta == metadataCache[c] && ps[c].conn == connection
    {
      if c != cls {
        assert c in persisters && ps[c] == persisters[c];
      }
    }
  }

  /** An identity-map entry: a managed entity of that class whose identifiers hash to the key. */
  ghost predicate Registered(entityStates: map<Entity, State>, entityIdentifiers: map<Entity, PhpArray<Value>>,
                             e: Entity, c: string, h: string)
  {
    && e.cls == c
    && e in entityStates && entityStates[e] == Managed
    && e in entityIdentifiers && IdentityKey(entityIdentifiers[e]) == h
  }

  /** Only managed entities are tracked, each with its identifiers; the identity map holds only those. */
  ghost predicate Consistent(identityMap: map<string, map<string, Entity>>, entityStates: map<Entity, State>,
                             entityIdentifiers: map<Entity, PhpArray<Value>>)
  {
    && (forall e :: e in entityStates ==> e in entityIdentifiers && entityStates[e] == Managed)
    && (forall c, h :: c in identityMap && h in identityMap[c] ==>
          Registered(entityStates, entityIdentifiers, identityMap[c][h], c, h))
  }

  /** Storing a managed entity under the hash of its identifiers keeps the identity map consistent. */
  lemma AddKeepsConsistent(identityMap: map<string, map<string, Entity>>, entityStates: map<Entity, State>,
                           entityIdentifiers: map<Entity, PhpArray<Value>>, e: Entity)
    requires Consistent(identityMap, entityStates, entityIdentifiers) && e in entityStates
    ensures var h := IdentityKey(entityIdentifiers[e]);
      Consistent(identityMap[e.cls := ClassEntries(identityMap, e.cls)[h := e]], entityStates, entityIdentifiers)
  {
  }

  /** Tracking an entity nothing tracked yet disturbs no existing entry. */
  lemma TrackKeepsConsistent(identityMap: map<string, map<string, Entity>>, entityStates: map<Entity, State>,
                             entityIdentifiers: map<Entity, PhpArray<Value>>, e: Entity, id: PhpArray<Value>)
    requires Consistent(identityMap, entityStates, entityIdentifiers) && e !in entityStates
    ensures Consistent(identityMap, entityStates[e := Managed], entityIdentifiers[e := id])
  {
  }

  /** What the persister's `load` by an id finds in the table. */
  function LoadOutcome(db: Db, table: string, canon: PhpArray<Value>): Resolution
  {
    match Run(db, SelectSql(table, canon))
    case Err(err) => Failed(err)
    case Ok(_) =>
      var rows := TableRows(db, table);
      var k := FirstMatch(rows, canon);
      if k < |rows| then Loaded(canon, rows[k]) else Missing
  }

  /** What the persister's `exists` on the probe makes of the entity's state. */
  function ExistsState(db: Db, table: string, probe: PhpArray<Value>): Result<State>
  {
    match Run(db, SelectSql(table, probe))
    case Err(err) => Err(err)
    case Ok(_) =>
      var rows := TableRows(db, table);
      Ok(if FirstMatch(rows, probe) < |rows| then Detached else New)
  }
}
