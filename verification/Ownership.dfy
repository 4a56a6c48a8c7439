/**
 The ownership revision as a function on databases: every primary key named in
 COMPOSITE_PK, every unique constraint, every foreign key and every index of every
 processed table is prefixed with owner_id.

 The main result is that the prefixed constraints say, about a database shared by
 many owners, exactly what the unprefixed ones say about each owner alone.
 */
module Ownership {
  import opened Relational

  // The loop's TABLES, and those of them whose primary key is prefixed.
  const OWNED_TABLES: seq<TableName> := [
    Conversations, ConversationDeleteIntents, WorkMemories, PendingClarifications,
    ResultSnapshots, ReportArtifacts, ReportPresentations, ReportDeleteIntents]

  predicate CompositePrimary(n: TableName) {
    n in {Conversations, ConversationDeleteIntents, ReportArtifacts, ReportPresentations, ReportDeleteIntents}
  }

  function Prefixed(columns: seq<Column>): seq<Column> {
    [OwnerId] + columns
  }

  function PrefixedKey(k: Key): Key {
    Key(Prefixed(k.columns), k.filter)
  }

  function ScopedForeign(f: Foreign): Foreign {
    Foreign(Prefixed(f.columns), f.parent, Prefixed(f.parentColumns))
  }

  const OWNER_FOREIGN := Foreign([OwnerId], ResourceOwners, [OwnerId])

  function ScopedIndex(x: Index): Index {
    Index(Prefixed(x.columns), x.unique, x.filter)
  }

  function ScopedRow(r: Row): Row {
    r[OwnerId := Text(LEGACY_OWNER)]
  }

  function ScopedRows(rows: Rows): Rows {
    map i | i in rows :: ScopedRow(rows[i])
  }

  // One iteration of the revision's loop.
  function ScopedTable(n: TableName, t: Table): Table {
    Table(
      t.columns + {OwnerId},
      t.required + {OwnerId},
      if CompositePrimary(n) then Prefixed(t.primary) else t.primary,
      set u | u in t.uniques :: Prefixed(u),
      (set f | f in t.foreigns :: ScopedForeign(f)) + {OWNER_FOREIGN},
      set x | x in t.indexes :: ScopedIndex(x),
      t.check,
      ScopedRows(t.rows))
  }

  const LEGACY_OWNER_ROW: Row := map[
    OwnerId := Text(LEGACY_OWNER), IdentityMode := Text("LOCAL_DEV"),
    TenantId := Text("local"), PrincipalId := Text("legacy")]

  const OWNERS_TABLE := Table(
    {OwnerId, IdentityMode, TenantId, PrincipalId},
    {OwnerId, IdentityMode, TenantId, PrincipalId},
    [OwnerId],
    {[IdentityMode, TenantId, PrincipalId]},
    {}, {}, OwnerIdentity,
    map[0 := LEGACY_OWNER_ROW])

  // The whole revision before its final check.
  function Scoped(db: Tables): Tables {
    map n | n in db.Keys + {ResourceOwners} ::
      if n == ResourceOwners then OWNERS_TABLE else ScopedTable(n, db[n])
  }

  // ----- owner slices -----

  predicate OwnedBy(r: Row, owner: Value) {
    At(r, OwnerId) == owner
  }

  // The rows of one owner, without the owner column.
  function SliceRows(rows: Rows, owner: Value): Rows {
    map i | i in rows && OwnedBy(rows[i], owner) :: rows[i] - {OwnerId}
  }

  // The pre-migration database that one owner sees: the old schema over its rows.
  function Slice(schema: Tables, db: Tables, owner: Value): Tables
    requires schema.Keys <= db.Keys
  {
    map n | n in schema :: schema[n].(rows := SliceRows(db[n].rows, owner))
  }

  // A schema the loop can process: it knows no owners and its foreign keys stay inside.
  ghost predicate PreOwnership(schema: Tables) {
    && ResourceOwners !in schema
    && (forall n :: n in schema ==> OwnerFree(schema[n]))
    && (forall n, f :: n in schema && f in schema[n].foreigns ==> f.parent in schema)
  }

  ghost predicate OwnerFree(t: Table) {
    && OwnerId !in t.columns
    && OwnerId !in t.required
    && OwnerId !in t.primary
    && t.check == NoCheck
    && (forall u :: u in t.uniques ==> OwnerId !in u)
    && (forall x :: x in t.indexes ==> OwnerFreeKey(Key(x.columns, x.filter)))
    && (forall f :: f in t.foreigns ==> OwnerId !in f.columns && OwnerId !in f.parentColumns)
  }

  predicate OwnerFreeKey(k: Key) {
    OwnerId !in k.columns && (k.filter.Where? ==> k.filter.column != OwnerId)
  }

  // A database in the migrated schema, with the rows of any number of owners.
  ghost predicate InScopedSchema(schema: Tables, db: Tables) {
    && db.Keys == schema.Keys + {ResourceOwners}
    && db[ResourceOwners] == OWNERS_TABLE.(rows := db[ResourceOwners].rows)
    && forall n :: n in schema ==> db[n] == ScopedTable(n, schema[n]).(rows := db[n].rows)
  }

  predicate Registered(db: Tables, owner: Value)
    requires ResourceOwners in db
  {
    owner != Null && exists j :: j in db[ResourceOwners].rows && At(db[ResourceOwners].rows[j], OwnerId) == owner
  }

  ghost predicate OwnersRegistered(schema: Tables, db: Tables)
    requires schema.Keys <= db.Keys && ResourceOwners in db
  {
    forall n, i :: n in schema && i in db[n].rows ==> Registered(db, At(db[n].rows[i], OwnerId))
  }

  // Primary keys outside COMPOSITE_PK are surrogates and stay global.
  ghost predicate SurrogatesGlobal(schema: Tables, db: Tables)
    requires schema.Keys <= db.Keys
  {
    forall n :: n in schema && !CompositePrimary(n) ==> Unique(db[n].rows, Key(schema[n].primary, Everything))
  }

  ghost predicate SlicesValid(schema: Tables, db: Tables)
    requires schema.Keys <= db.Keys
  {
    forall owner: Value :: owner != Null ==> Valid(Slice(schema, db, owner))
  }

  // ----- one key, one reference -----

  lemma ProjectPrefixed(r: Row, columns: seq<Column>)
    ensures Project(r, Prefixed(columns)) == [At(r, OwnerId)] + Project(r, columns)
  {
  }

  lemma ProjectWithoutOwner(r: Row, columns: seq<Column>)
    requires OwnerId !in columns
    ensures Project(r - {OwnerId}, columns) == Project(r, columns)
  {
  }

  lemma NullPrefixed(r: Row, columns: seq<Column>)
    ensures Null !in Project(r, Prefixed(columns)) <==> At(r, OwnerId) != Null && Null !in Project(r, columns)
  {
    ProjectPrefixed(r, columns);
  }

  lemma CoversWithoutOwner(k: Key, r: Row)
    requires OwnerFreeKey(k)
    ensures Covers(k, r - {OwnerId}) <==> Covers(k, r)
    ensures Covers(PrefixedKey(k), r) <==> At(r, OwnerId) != Null && Covers(k, r)
  {
    ProjectWithoutOwner(r, k.columns);
    NullPrefixed(r, k.columns);
  }

  lemma PrefixedEqual(r: Row, r': Row, columns: seq<Column>, columns': seq<Column>)
    ensures Project(r, Prefixed(columns)) == Project(r', Prefixed(columns')) <==>
              At(r, OwnerId) == At(r', OwnerId) && Project(r, columns) == Project(r', columns')
  {
    ProjectPrefixed(r, columns);
    ProjectPrefixed(r', columns');
    var p, p' := Project(r, Prefixed(columns)), Project(r', Prefixed(columns'));
    assert p[0] == At(r, OwnerId) && p[1..] == Project(r, columns);
    assert p'[0] == At(r', OwnerId) && p'[1..] == Project(r', columns');
  }

  // A prefixed key holds of everybody's rows exactly when the plain key holds of each owner's rows.
  lemma KeyFactors(rows: Rows, k: Key)
    requires OwnerFreeKey(k)
    ensures Unique(rows, PrefixedKey(k)) <==>
              forall owner: Value :: owner != Null ==> Unique(SliceRows(rows, owner), k)
  {
    var scoped := PrefixedKey(k);
    if Unique(rows, scoped) {
      forall owner: Value | owner != Null ensures Unique(SliceRows(rows, owner), k) {
        KeyRestricts(rows, k, owner);
      }
    }
    if forall owner: Value :: owner != Null ==> Unique(SliceRows(rows, owner), k) {
      forall i, j | i in rows && j in rows && i != j && Covers(scoped, rows[i]) && Covers(scoped, rows[j])
        ensures Project(rows[i], scoped.columns) != Project(rows[j], scoped.columns)
      {
        PrefixedEqual(rows[i], rows[j], k.columns, k.columns);
        CoversWithoutOwner(k, rows[i]);
        CoversWithoutOwner(k, rows[j]);
        var owner := At(rows[i], OwnerId);
        if owner == At(rows[j], OwnerId) {
          var slice := SliceRows(rows, owner);
          assert i in slice && j in slice && Unique(slice, k);
          ProjectWithoutOwner(rows[i], k.columns);
          ProjectWithoutOwner(rows[j], k.columns);
        }
      }
    }
  }

  lemma KeyRestricts(rows: Rows, k: Key, owner: Value)
    requires OwnerFreeKey(k) && owner != Null
    requires Unique(rows, PrefixedKey(k))
    ensures Unique(SliceRows(rows, owner), k)
  {
    var slice := SliceRows(rows, owner);
    forall i, j | i in slice && j in slice && i != j && Covers(k, slice[i]) && Covers(k, slice[j])
      ensures Project(slice[i], k.columns) != Project(slice[j], k.columns)
    {
      PrefixedEqual(rows[i], rows[j], k.columns, k.columns);
      CoversWithoutOwner(k, rows[i]);
      CoversWithoutOwner(k, rows[j]);
      ProjectWithoutOwner(rows[i], k.columns);
      ProjectWithoutOwner(rows[j], k.columns);
    }
  }

  // A global surrogate key holds in particular of each owner's rows.
  lemma GlobalKeyRestricts(rows: Rows, k: Key, owner: Value)
    requires OwnerFreeKey(k) && Unique(rows, k)
    ensures Unique(SliceRows(rows, owner), k)
  {
    var slice := SliceRows(rows, owner);
    forall i, j | i in slice && j in slice && i != j && Covers(k, slice[i]) && Covers(k, slice[j])
      ensures Project(slice[i], k.columns) != Project(slice[j], k.columns)
    {
      CoversWithoutOwner(k, rows[i]);
      CoversWithoutOwner(k, rows[j]);
      ProjectWithoutOwner(rows[i], k.columns);
      ProjectWithoutOwner(rows[j], k.columns);
    }
  }

  // A prefixed reference holds exactly when each owner's rows refer to that owner's parents.
  lemma ForeignFactors(rows: Rows, columns: seq<Column>, parents: Rows, parentColumns: seq<Column>)
    requires OwnerId !in columns && OwnerId !in parentColumns
    ensures Refers(rows, Prefixed(columns), parents, Prefixed(parentColumns)) <==>
              forall owner: Value :: owner != Null ==>
                Refers(SliceRows(rows, owner), columns, SliceRows(parents, owner), parentColumns)
  {
    if Refers(rows, Prefixed(columns), parents, Prefixed(parentColumns)) {
      forall owner: Value | owner != Null
        ensures Refers(SliceRows(rows, owner), columns, SliceRows(parents, owner), parentColumns)
      {
        var slice, above := SliceRows(rows, owner), SliceRows(parents, owner);
        forall i | i in slice && Null !in Project(slice[i], columns)
          ensures exists j :: j in above && Project(above[j], parentColumns) == Project(slice[i], columns)
        {
          ProjectWithoutOwner(rows[i], columns);
          NullPrefixed(rows[i], columns);
          var j :| j in parents && Project(parents[j], Prefixed(parentColumns)) == Project(rows[i], Prefixed(columns));
          PrefixedEqual(parents[j], rows[i], parentColumns, columns);
          ProjectWithoutOwner(parents[j], parentColumns);
          assert j in above;
        }
      }
    }
    if forall owner: Value :: owner != Null ==>
        Refers(SliceRows(rows, owner), columns, SliceRows(parents, owner), parentColumns) {
      forall i | i in rows && Null !in Project(rows[i], Prefixed(columns))
        ensures exists j :: j in parents &&
                  Project(parents[j], Prefixed(parentColumns)) == Project(rows[i], Prefixed(columns))
      {
        NullPrefixed(rows[i], columns);
        ProjectWithoutOwner(rows[i], columns);
        var owner := At(rows[i], OwnerId);
        var slice, above := SliceRows(rows, owner), SliceRows(parents, owner);
        assert i in slice && Refers(slice, columns, above, parentColumns);
        var j :| j in above && Project(above[j], parentColumns) == Project(slice[i], columns);
        ProjectWithoutOwner(parents[j], parentColumns);
        PrefixedEqual(parents[j], rows[i], parentColumns, columns);
      }
    }
  }

  // ----- the factorisation -----

  lemma TypedWithoutOwner(r: Row, columns: set<Column>, required: set<Column>)
    requires OwnerId !in columns && OwnerId !in required && At(r, OwnerId) != Null
    ensures TypedRow(r, columns + {OwnerId}, required + {OwnerId}, NoCheck) <==>
              TypedRow(r - {OwnerId}, columns, required, NoCheck)
  {
    assert r.Keys == (r - {OwnerId}).Keys + {OwnerId};
    assert forall c :: c != OwnerId ==> At(r - {OwnerId}, c) == At(r, c);
  }

  lemma SlicesTyped(rows: Rows, columns: set<Column>, required: set<Column>)
    requires OwnerId !in columns && OwnerId !in required
    requires forall i :: i in rows ==> At(rows[i], OwnerId) != Null
    ensures (forall i :: i in rows ==> TypedRow(rows[i], columns + {OwnerId}, required + {OwnerId}, NoCheck)) <==>
            (forall owner: Value, i :: owner != Null && i in SliceRows(rows, owner) ==>
              TypedRow(SliceRows(rows, owner)[i], columns, required, NoCheck))
  {
    forall i | i in rows
      ensures TypedRow(rows[i], columns + {OwnerId}, required + {OwnerId}, NoCheck) <==>
                TypedRow(rows[i] - {OwnerId}, columns, required, NoCheck)
      ensures i in SliceRows(rows, At(rows[i], OwnerId))
    {
      TypedWithoutOwner(rows[i], columns, required);
    }
  }

  // Every key of a table is prefixed, except a surrogate primary key.
  lemma KeyScoped(n: TableName, t: Table, k: Key)
    requires OwnerFree(t) && HasKey(t, k)
    ensures OwnerFreeKey(k)
    ensures (k == Key(t.primary, Everything) && !CompositePrimary(n)) || HasKey(ScopedTable(n, t), PrefixedKey(k))
  {
    if k.filter == Everything && k.columns in t.uniques {
      assert Prefixed(k.columns) in ScopedTable(n, t).uniques;
    } else if Index(k.columns, true, k.filter) in t.indexes {
      var x := Index(k.columns, true, k.filter);
      assert OwnerFreeKey(Key(x.columns, x.filter));
      assert ScopedIndex(x) in ScopedTable(n, t).indexes;
    }
  }

  lemma ScopedKeyComesFrom(n: TableName, t: Table, k': Key) returns (k: Key)
    requires OwnerFree(t) && HasKey(ScopedTable(n, t), k')
    ensures HasKey(t, k) && OwnerFreeKey(k)
    ensures k' == PrefixedKey(k) || (k' == k == Key(t.primary, Everything) && !CompositePrimary(n))
  {
    var s := ScopedTable(n, t);
    if k' == Key(s.primary, Everything) {
      k := Key(t.primary, Everything);
    } else if k'.filter == Everything && k'.columns in s.uniques {
      var u :| u in t.uniques && k'.columns == Prefixed(u);
      k := Key(u, Everything);
    } else {
      var x :| x in t.indexes && Index(k'.columns, true, k'.filter) == ScopedIndex(x);
      k := Key(x.columns, x.filter);
      assert x == Index(k.columns, true, k.filter);
    }
    KeyScoped(n, t, k);
  }

  lemma KeysHoldInSlices(schema: Tables, db: Tables, n: TableName, owner: Value)
    requires PreOwnership(schema) && InScopedSchema(schema, db) && n in schema && owner != Null
    requires KeysHold(db[n])
    ensures KeysHold(Slice(schema, db, owner)[n])
  {
    var slice := Slice(schema, db, owner)[n];
    KeysHoldMeans(slice);
    KeysHoldMeans(db[n]);
    forall k | HasKey(slice, k) ensures Unique(slice.rows, k) {
      assert HasKey(schema[n], k);
      KeyScoped(n, schema[n], k);
      if HasKey(ScopedTable(n, schema[n]), PrefixedKey(k)) {
        assert HasKey(db[n], PrefixedKey(k));
        KeyRestricts(db[n].rows, k, owner);
      } else {
        assert HasKey(db[n], k);
        GlobalKeyRestricts(db[n].rows, k, owner);
      }
    }
  }

  lemma KeysHoldFromSlices(schema: Tables, db: Tables, n: TableName)
    requires PreOwnership(schema) && InScopedSchema(schema, db) && n in schema
    requires forall owner: Value :: owner != Null ==> KeysHold(Slice(schema, db, owner)[n])
    requires !CompositePrimary(n) ==> Unique(db[n].rows, Key(schema[n].primary, Everything))
    ensures KeysHold(db[n])
  {
    var rows := db[n].rows;
    KeysHoldMeans(db[n]);
    forall k' | HasKey(db[n], k') ensures Unique(rows, k') {
      assert HasKey(ScopedTable(n, schema[n]), k');
      var k := ScopedKeyComesFrom(n, schema[n], k');
      if k' == PrefixedKey(k) {
        forall owner: Value | owner != Null ensures Unique(SliceRows(rows, owner), k) {
          KeysHoldMeans(Slice(schema, db, owner)[n]);
          assert HasKey(Slice(schema, db, owner)[n], k);
        }
        KeyFactors(rows, k);
      }
    }
  }

  lemma ForeignsHoldInSlice(schema: Tables, db: Tables, owner: Value)
    requires PreOwnership(schema) && InScopedSchema(schema, db) && owner != Null
    requires ForeignsHold(db)
    ensures ForeignsHold(Slice(schema, db, owner))
  {
    var slice := Slice(schema, db, owner);
    forall n, f | n in slice && f in slice[n].foreigns ensures ForeignHolds(slice, n, f) {
      assert f in schema[n].foreigns && f.parent in schema;
      assert ScopedForeign(f) in db[n].foreigns;
      assert ForeignHolds(db, n, ScopedForeign(f));
      ForeignFactors(db[n].rows, f.columns, db[f.parent].rows, f.parentColumns);
    }
  }

  lemma ForeignsHoldFromSlices(schema: Tables, db: Tables)
    requires PreOwnership(schema) && InScopedSchema(schema, db) && OwnersRegistered(schema, db)
    requires forall owner: Value :: owner != Null ==> ForeignsHold(Slice(schema, db, owner))
    ensures ForeignsHold(db)
  {
    forall n, f' | n in db && f' in db[n].foreigns ensures ForeignHolds(db, n, f') {
      assert n != ResourceOwners;
      if f' == OWNER_FOREIGN {
        RegisteredRefers(schema, db, n);
      } else {
        var f :| f in schema[n].foreigns && f' == ScopedForeign(f);
        assert f.parent in schema;
        forall owner: Value | owner != Null
          ensures Refers(SliceRows(db[n].rows, owner), f.columns, SliceRows(db[f.parent].rows, owner), f.parentColumns)
        {
          var slice := Slice(schema, db, owner);
          assert n in slice && f in slice[n].foreigns;
          assert ForeignHolds(slice, n, f);
        }
        ForeignFactors(db[n].rows, f.columns, db[f.parent].rows, f.parentColumns);
      }
    }
  }

  lemma SameOwner(r: Row, r': Row)
    requires At(r, OwnerId) == At(r', OwnerId)
    ensures Project(r, [OwnerId]) == Project(r', [OwnerId])
  {
  }

  lemma RegisteredRefers(schema: Tables, db: Tables, n: TableName)
    requires InScopedSchema(schema, db) && n in schema && OwnersRegistered(schema, db)
    ensures ForeignHolds(db, n, OWNER_FOREIGN)
  {
    var rows, owners := db[n].rows, db[ResourceOwners].rows;
    forall i | i in rows && Null !in Project(rows[i], [OwnerId])
      ensures exists j :: j in owners && Project(owners[j], [OwnerId]) == Project(rows[i], [OwnerId])
    {
      assert Registered(db, At(rows[i], OwnerId));
      hide Project;
      var j :| j in owners && At(owners[j], OwnerId) == At(rows[i], OwnerId);
      SameOwner(owners[j], rows[i]);
    }
  }

  lemma OwnerReferred(rows: Rows, owners: Rows, i: int)
    requires Refers(rows, [OwnerId], owners, [OwnerId])
    requires i in rows && At(rows[i], OwnerId) != Null
    ensures exists j :: j in owners && At(owners[j], OwnerId) == At(rows[i], OwnerId)
  {
    assert Project(rows[i], [OwnerId]) == [At(rows[i], OwnerId)];
    var j :| j in owners && Project(owners[j], [OwnerId]) == Project(rows[i], [OwnerId]);
    assert Project(owners[j], [OwnerId])[0] == At(owners[j], OwnerId);
  }

  lemma RequiredPresent(t: Table, i: int, c: Column)
    requires Typed(t) && i in t.rows && c in t.required
    ensures At(t.rows[i], c) != Null
  {
    assert TypedRow(t.rows[i], t.columns, t.required, t.check);
  }

  lemma ValidRegisters(schema: Tables, db: Tables)
    requires PreOwnership(schema) && InScopedSchema(schema, db) && Valid(db)
    ensures OwnersRegistered(schema, db)
  {
    forall n, i | n in schema && i in db[n].rows ensures Registered(db, At(db[n].rows[i], OwnerId)) {
      assert LocallyValid(db[n]);
      RequiredPresent(db[n], i, OwnerId);
      assert OWNER_FOREIGN in db[n].foreigns;
      assert ForeignHolds(db, n, OWNER_FOREIGN);
      OwnerReferred(db[n].rows, db[ResourceOwners].rows, i);
    }
  }

  lemma LocallyValidFactors(schema: Tables, db: Tables, n: TableName)
    requires PreOwnership(schema) && InScopedSchema(schema, db) && n in schema && OwnersRegistered(schema, db)
    ensures LocallyValid(db[n]) <==>
              && (forall owner: Value :: owner != Null ==> LocallyValid(Slice(schema, db, owner)[n]))
              && (!CompositePrimary(n) ==> Unique(db[n].rows, Key(schema[n].primary, Everything)))
  {
    forall i | i in db[n].rows ensures At(db[n].rows[i], OwnerId) != Null {
      assert Registered(db, At(db[n].rows[i], OwnerId));
    }
    SlicesTyped(db[n].rows, schema[n].columns, schema[n].required);
    if LocallyValid(db[n]) {
      forall owner: Value | owner != Null ensures LocallyValid(Slice(schema, db, owner)[n]) {
        KeysHoldInSlices(schema, db, n, owner);
      }
    }
    if && (forall owner: Value :: owner != Null ==> LocallyValid(Slice(schema, db, owner)[n]))
       && (!CompositePrimary(n) ==> Unique(db[n].rows, Key(schema[n].primary, Everything))) {
      forall owner: Value, i | owner != Null && i in SliceRows(db[n].rows, owner)
        ensures TypedRow(SliceRows(db[n].rows, owner)[i], schema[n].columns, schema[n].required, NoCheck)
      {
        assert LocallyValid(Slice(schema, db, owner)[n]);
      }
      KeysHoldFromSlices(schema, db, n);
    }
  }

  /** The migrated constraints hold of a database shared by any owners if and only if the
      original constraints hold of every owner's own database, every row's owner is
      registered, and the surrogate keys that were not prefixed are unique across owners. */
  lemma OwnershipFactors(schema: Tables, db: Tables)
    requires PreOwnership(schema) && InScopedSchema(schema, db)
    ensures Valid(db) <==>
              && SlicesValid(schema, db)
              && OwnersRegistered(schema, db)
              && SurrogatesGlobal(schema, db)
              && LocallyValid(db[ResourceOwners])
  {
    if Valid(db) {
      ValidRegisters(schema, db);
      forall n | n in schema
        ensures !CompositePrimary(n) ==> Unique(db[n].rows, Key(schema[n].primary, Everything))
        ensures forall owner: Value :: owner != Null ==> LocallyValid(Slice(schema, db, owner)[n])
      {
        assert LocallyValid(db[n]);
        LocallyValidFactors(schema, db, n);
      }
      forall owner: Value | owner != Null ensures Valid(Slice(schema, db, owner)) {
        ForeignsHoldInSlice(schema, db, owner);
      }
    }
    if SlicesValid(schema, db) && OwnersRegistered(schema, db) && SurrogatesGlobal(schema, db)
        && LocallyValid(db[ResourceOwners]) {
      forall n | n in schema ensures LocallyValid(db[n]) {
        forall owner: Value | owner != Null ensures LocallyValid(Slice(schema, db, owner)[n]) {
          assert Valid(Slice(schema, db, owner));
        }
        LocallyValidFactors(schema, db, n);
      }
      forall owner: Value | owner != Null ensures ForeignsHold(Slice(schema, db, owner)) {
        assert Valid(Slice(schema, db, owner));
      }
      ForeignsHoldFromSlices(schema, db);
    }
  }

  // ----- the migrated database itself -----

  lemma LegacySliceRows(rows: Rows, owner: Value)
    requires forall i :: i in rows ==> OwnerId !in rows[i]
    ensures SliceRows(ScopedRows(rows), Text(LEGACY_OWNER)) == rows
    ensures owner != Text(LEGACY_OWNER) ==> SliceRows(ScopedRows(rows), owner) == map[]
  {
    var scoped := ScopedRows(rows);
    forall i | i in scoped
      ensures scoped[i] - {OwnerId} == rows[i] && At(scoped[i], OwnerId) == Text(LEGACY_OWNER)
      ensures OwnedBy(scoped[i], Text(LEGACY_OWNER))
    {
      assert (scoped[i] - {OwnerId}).Keys == rows[i].Keys;
    }
    var slice := SliceRows(scoped, Text(LEGACY_OWNER));
    assert forall i :: i in rows ==> i in scoped && i in slice;
    if owner != Text(LEGACY_OWNER) {
      assert forall i :: i in SliceRows(scoped, owner) ==> OwnedBy(scoped[i], owner);
    }
  }

  lemma MigrationInSchema(db: Tables)
    requires ResourceOwners !in db
    ensures InScopedSchema(db, Scoped(db))
  {
  }

  /** The migration puts every existing row into the local:legacy slice, unchanged,
      and gives every other owner an empty database. */
  lemma MigrationIsLegacySlice(db: Tables, owner: Value)
    requires PreOwnership(db) && forall n :: n in db ==> Typed(db[n])
    ensures Slice(db, Scoped(db), Text(LEGACY_OWNER)) == db
    ensures owner != Text(LEGACY_OWNER) ==>
              forall n :: n in db ==> Slice(db, Scoped(db), owner)[n].rows == map[]
  {
    var slice := Slice(db, Scoped(db), Text(LEGACY_OWNER));
    forall n | n in db
      ensures slice[n] == db[n]
      ensures owner != Text(LEGACY_OWNER) ==> Slice(db, Scoped(db), owner)[n].rows == map[]
    {
      var t := db[n];
      NoOwnerColumn(t);
      LegacySliceRows(t.rows, owner);
      assert Scoped(db)[n].rows == ScopedRows(t.rows);
      assert slice[n] == t.(rows := t.rows);
    }
    assert slice.Keys == db.Keys;
  }

  lemma NoOwnerColumn(t: Table)
    requires OwnerFree(t) && Typed(t)
    ensures forall i :: i in t.rows ==> OwnerId !in t.rows[i]
  {
    forall i | i in t.rows ensures OwnerId !in t.rows[i] {
      assert TypedRow(t.rows[i], t.columns, t.required, t.check);
      assert OwnerId !in t.rows[i].Keys;
    }
  }

  lemma OwnersTableValid()
    ensures LocallyValid(OWNERS_TABLE)
  {
    assert Checked(OwnerIdentity, LEGACY_OWNER_ROW);
  }

  lemma EmptyIsValid(db: Tables)
    requires forall n :: n in db ==> db[n].rows == map[]
    requires forall n, f :: n in db && f in db[n].foreigns ==> f.parent in db
    ensures Valid(db)
  {
    forall n, f | n in db && f in db[n].foreigns ensures ForeignHolds(db, n, f) {
    }
  }

  lemma LegacyRegistered(db: Tables)
    ensures Registered(Scoped(db), Text(LEGACY_OWNER))
  {
    var owners := Scoped(db)[ResourceOwners].rows;
    assert 0 in owners && At(owners[0], OwnerId) == Text(LEGACY_OWNER);
  }

  lemma MigrationRegisters(db: Tables)
    requires PreOwnership(db)
    ensures OwnersRegistered(db, Scoped(db))
  {
    LegacyRegistered(db);
    forall n, i | n in db && i in Scoped(db)[n].rows
      ensures At(Scoped(db)[n].rows[i], OwnerId) == Text(LEGACY_OWNER)
    {
    }
  }

  lemma MigratedSurrogateUnique(db: Tables, n: TableName)
    requires PreOwnership(db) && n in db && LocallyValid(db[n])
    ensures Unique(ScopedRows(db[n].rows), Key(db[n].primary, Everything))
  {
    var rows, k := db[n].rows, Key(db[n].primary, Everything);
    assert HasKey(db[n], k) && OwnerId !in k.columns;
    forall i | i in rows ensures Project(ScopedRow(rows[i]), k.columns) == Project(rows[i], k.columns) {
    }
  }

  // Each slice of the migrated database is either the original one or empty.
  lemma MigratedSliceInherits(db: Tables, owner: Value)
    requires PreOwnership(db) && forall n :: n in db ==> Typed(db[n])
    ensures ForeignsHold(db) ==> ForeignsHold(Slice(db, Scoped(db), owner))
    ensures forall n :: n in db && LocallyValid(db[n]) ==> LocallyValid(Slice(db, Scoped(db), owner)[n])
  {
    MigrationIsLegacySlice(db, owner);
    if owner != Text(LEGACY_OWNER) {
      var slice := Slice(db, Scoped(db), owner);
      forall n, f | n in slice && f in slice[n].foreigns ensures f.parent in slice {
        assert f in db[n].foreigns;
      }
      EmptyIsValid(slice);
    }
  }

  /** The final PRAGMA foreign_key_check passes exactly when the foreign keys held before. */
  lemma MigrationCheckPasses(db: Tables)
    requires PreOwnership(db) && forall n :: n in db ==> Typed(db[n])
    ensures ForeignsHold(Scoped(db)) <==> ForeignsHold(db)
  {
    var after := Scoped(db);
    MigrationInSchema(db);
    if ForeignsHold(after) {
      ForeignsHoldInSlice(db, after, Text(LEGACY_OWNER));
      MigrationIsLegacySlice(db, Text(LEGACY_OWNER));
    } else if ForeignsHold(db) {
      MigrationRegisters(db);
      forall owner: Value | owner != Null ensures ForeignsHold(Slice(db, after, owner)) {
        MigratedSliceInherits(db, owner);
      }
      ForeignsHoldFromSlices(db, after);
      assert false;
    }
  }

  lemma MigratedLocallyValid(db: Tables, n: TableName)
    requires PreOwnership(db) && n in db && forall m :: m in db ==> Typed(db[m])
    ensures LocallyValid(Scoped(db)[n]) <==> LocallyValid(db[n])
  {
    var after := Scoped(db);
    MigrationInSchema(db);
    MigrationRegisters(db);
    LocallyValidFactors(db, after, n);
    if LocallyValid(after[n]) {
      assert LocallyValid(Slice(db, after, Text(LEGACY_OWNER))[n]);
      MigrationIsLegacySlice(db, Text(LEGACY_OWNER));
    } else if LocallyValid(db[n]) {
      forall owner: Value | owner != Null ensures LocallyValid(Slice(db, after, owner)[n]) {
        MigratedSliceInherits(db, owner);
      }
      MigratedSurrogateUnique(db, n);
    }
  }

  /** The migrated database is valid exactly when the original one was. */
  lemma MigrationKeepsValidity(db: Tables)
    requires PreOwnership(db) && forall n :: n in db ==> Typed(db[n])
    ensures Valid(Scoped(db)) <==> Valid(db)
  {
    OwnersTableValid();
    MigrationCheckPasses(db);
    forall n | n in db ensures LocallyValid(Scoped(db)[n]) <==> LocallyValid(db[n]) {
      MigratedLocallyValid(db, n);
    }
  }

  // A key that survives prefixing, as opposed to a surrogate primary key.
  predicate PrefixedByMigration(n: TableName, t: Table, columns: seq<Column>) {
    || (CompositePrimary(n) && columns == t.primary)
    || columns in t.uniques
    || Index(columns, true, Everything) in t.indexes
  }

  lemma TargetScoped(n: TableName, t: Table, columns: seq<Column>)
    requires OwnerFree(t) && OwnerId !in columns
    ensures HasKey(ScopedTable(n, t), Key(Prefixed(columns), Everything)) <==> PrefixedByMigration(n, t, columns)
  {
    var k' := Key(Prefixed(columns), Everything);
    if HasKey(ScopedTable(n, t), k') {
      assert OwnerId in k'.columns;
      var k := ScopedKeyComesFrom(n, t, k');
      assert k.columns == Prefixed(k.columns)[1..] == k'.columns[1..] == columns;
      if k == Key(t.primary, Everything) && !CompositePrimary(n) {
        var s := ScopedTable(n, t);
        if k'.columns in s.uniques {
          var u :| u in t.uniques && Prefixed(u) == k'.columns;
          assert u == Prefixed(u)[1..];
        } else if Index(k'.columns, true, Everything) in s.indexes {
          var x :| x in t.indexes && ScopedIndex(x) == Index(k'.columns, true, Everything);
          assert x.columns == Prefixed(x.columns)[1..];
          assert x == Index(columns, true, Everything);
        }
      }
    }
    if PrefixedByMigration(n, t, columns) {
      if Index(columns, true, Everything) in t.indexes {
        assert ScopedIndex(Index(columns, true, Everything)) in ScopedTable(n, t).indexes;
      }
    }
  }

  /** Prefixed foreign keys still refer to keys exactly when none of them referred to a
      surrogate primary key that the loop leaves alone. */
  lemma TargetsStayKeyed(db: Tables)
    requires PreOwnership(db) && TargetsKeyed(db)
    ensures TargetsKeyed(Scoped(db)) <==>
              forall n, f :: n in db && f in db[n].foreigns ==>
                PrefixedByMigration(f.parent, db[f.parent], f.parentColumns)
  {
    var after := Scoped(db);
    assert TargetKeyed(after, OWNER_FOREIGN);
    forall n | n in db
      ensures after[n].foreigns == (set f | f in db[n].foreigns :: ScopedForeign(f)) + {OWNER_FOREIGN}
    {
    }
    hide HasKey, PrefixedByMigration;
    forall n, f | n in db && f in db[n].foreigns
      ensures TargetKeyed(after, ScopedForeign(f)) <==> PrefixedByMigration(f.parent, db[f.parent], f.parentColumns)
    {
      TargetScoped(f.parent, db[f.parent], f.parentColumns);
    }
    if TargetsKeyed(after) {
      forall n, f | n in db && f in db[n].foreigns ensures TargetKeyed(after, ScopedForeign(f)) {
        assert ScopedForeign(f) in after[n].foreigns;
      }
    }
  }

  // ----- why the revision is forward-only -----

  function MergedRows(rows: Rows): Rows {
    map i | i in rows :: rows[i] - {OwnerId}
  }

  // What a downgrade would have to produce: the old schema over everybody's rows.
  function WithoutOwners(schema: Tables, db: Tables): Tables
    requires schema.Keys <= db.Keys
  {
    map n | n in schema :: schema[n].(rows := MergedRows(db[n].rows))
  }

  // No two owners use the same value of this key.
  ghost predicate Unshared(rows: Rows, k: Key) {
    forall i, j :: i in rows && j in rows && At(rows[i], OwnerId) != At(rows[j], OwnerId)
      && Covers(k, rows[i]) && Covers(k, rows[j])
      ==> Project(rows[i], k.columns) != Project(rows[j], k.columns)
  }

  ghost predicate TableDisjoint(t: Table, rows: Rows) {
    forall k :: HasKey(t, k) ==> Unshared(rows, k)
  }

  ghost predicate OwnersDisjoint(schema: Tables, db: Tables)
    requires schema.Keys <= db.Keys
  {
    forall n :: n in schema ==> TableDisjoint(schema[n], db[n].rows)
  }

  lemma MergedKey(rows: Rows, k: Key)
    requires OwnerFreeKey(k)
    requires forall i :: i in rows ==> At(rows[i], OwnerId) != Null
    requires forall owner: Value :: owner != Null ==> Unique(SliceRows(rows, owner), k)
    ensures Unique(MergedRows(rows), k) <==> Unshared(rows, k)
  {
    forall i | i in rows
      ensures Covers(k, rows[i] - {OwnerId}) <==> Covers(k, rows[i])
      ensures Project(rows[i] - {OwnerId}, k.columns) == Project(rows[i], k.columns)
    {
      CoversWithoutOwner(k, rows[i]);
      ProjectWithoutOwner(rows[i], k.columns);
    }
    forall i, j | i in rows && j in rows && i != j && At(rows[i], OwnerId) == At(rows[j], OwnerId)
        && Covers(k, rows[i]) && Covers(k, rows[j])
      ensures Project(rows[i], k.columns) != Project(rows[j], k.columns)
    {
      var slice := SliceRows(rows, At(rows[i], OwnerId));
      assert i in slice && j in slice && Unique(slice, k);
    }
    var merged := MergedRows(rows);
    if Unique(merged, k) {
      forall i, j | i in rows && j in rows && At(rows[i], OwnerId) != At(rows[j], OwnerId)
          && Covers(k, rows[i]) && Covers(k, rows[j])
        ensures Project(rows[i], k.columns) != Project(rows[j], k.columns)
      {
        assert i in merged && j in merged && i != j;
      }
    }
  }

  lemma MergedReference(rows: Rows, columns: seq<Column>, parents: Rows, parentColumns: seq<Column>)
    requires OwnerId !in columns && OwnerId !in parentColumns
    requires forall i :: i in rows ==> At(rows[i], OwnerId) != Null
    requires Refers(rows, Prefixed(columns), parents, Prefixed(parentColumns))
    ensures Refers(MergedRows(rows), columns, MergedRows(parents), parentColumns)
  {
    var merged, above := MergedRows(rows), MergedRows(parents);
    forall i | i in merged && Null !in Project(merged[i], columns)
      ensures exists j :: j in above && Project(above[j], parentColumns) == Project(merged[i], columns)
    {
      ProjectWithoutOwner(rows[i], columns);
      NullPrefixed(rows[i], columns);
      var j :| j in parents && Project(parents[j], Prefixed(parentColumns)) == Project(rows[i], Prefixed(columns));
      PrefixedEqual(parents[j], rows[i], parentColumns, columns);
      ProjectWithoutOwner(parents[j], parentColumns);
      assert j in above;
    }
  }

  lemma MergedTyped(schema: Tables, db: Tables, n: TableName)
    requires PreOwnership(schema) && InScopedSchema(schema, db) && n in schema && Typed(db[n])
    ensures Typed(WithoutOwners(schema, db)[n])
  {
    forall i | i in db[n].rows
      ensures TypedRow(db[n].rows[i] - {OwnerId}, schema[n].columns, schema[n].required, NoCheck)
    {
      RequiredPresent(db[n], i, OwnerId);
      TypedWithoutOwner(db[n].rows[i], schema[n].columns, schema[n].required);
    }
  }

  lemma MergedKeyOf(schema: Tables, db: Tables, n: TableName, k: Key)
    requires PreOwnership(schema) && InScopedSchema(schema, db) && n in schema
    requires LocallyValid(db[n]) && HasKey(schema[n], k)
    ensures Unique(MergedRows(db[n].rows), k) <==> Unshared(db[n].rows, k)
  {
    var rows := db[n].rows;
    KeyScoped(n, schema[n], k);
    forall i | i in rows ensures At(rows[i], OwnerId) != Null {
      RequiredPresent(db[n], i, OwnerId);
    }
    forall owner: Value | owner != Null ensures Unique(SliceRows(rows, owner), k) {
      KeysHoldInSlices(schema, db, n, owner);
      KeysHoldMeans(Slice(schema, db, owner)[n]);
      assert HasKey(Slice(schema, db, owner)[n], k);
    }
    MergedKey(rows, k);
  }

  lemma MergedTable(schema: Tables, db: Tables, n: TableName)
    requires PreOwnership(schema) && InScopedSchema(schema, db) && n in schema && LocallyValid(db[n])
    ensures LocallyValid(WithoutOwners(schema, db)[n]) <==> TableDisjoint(schema[n], db[n].rows)
  {
    var merged := WithoutOwners(schema, db)[n];
    MergedTyped(schema, db, n);
    KeysHoldMeans(merged);
    forall k | HasKey(schema[n], k) ensures HasKey(merged, k) && (Unique(merged.rows, k) <==> Unshared(db[n].rows, k)) {
      MergedKeyOf(schema, db, n, k);
    }
    forall k | HasKey(merged, k) ensures HasKey(schema[n], k) {
    }
  }

  lemma MergedForeigns(schema: Tables, db: Tables)
    requires PreOwnership(schema) && InScopedSchema(schema, db) && Valid(db)
    ensures ForeignsHold(WithoutOwners(schema, db))
  {
    var merged := WithoutOwners(schema, db);
    forall n, f | n in merged && f in merged[n].foreigns ensures ForeignHolds(merged, n, f) {
      assert LocallyValid(db[n]);
      assert f in schema[n].foreigns && f.parent in schema && ScopedForeign(f) in db[n].foreigns;
      assert ForeignHolds(db, n, ScopedForeign(f));
      forall i | i in db[n].rows ensures At(db[n].rows[i], OwnerId) != Null {
        RequiredPresent(db[n], i, OwnerId);
      }
      MergedReference(db[n].rows, f.columns, db[f.parent].rows, f.parentColumns);
    }
  }

  /** Dropping owner_id from a valid database leaves a valid one exactly when no two owners
      share a key value; so no downgrade can merge independent principals in general. */
  lemma MergeIsSafeIffDisjoint(schema: Tables, db: Tables)
    requires PreOwnership(schema) && InScopedSchema(schema, db) && Valid(db)
    ensures Valid(WithoutOwners(schema, db)) <==> OwnersDisjoint(schema, db)
  {
    forall n | n in schema
      ensures LocallyValid(WithoutOwners(schema, db)[n]) <==> TableDisjoint(schema[n], db[n].rows)
    {
      assert LocallyValid(db[n]);
      MergedTable(schema, db, n);
    }
    MergedForeigns(schema, db);
  }
}
