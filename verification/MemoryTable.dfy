/**
 The memory store as rows of work_memories: what the protocol asks of the index is what the
 migrated partial unique index says about the table.
 */
module MemoryTable {
  import opened Relational
  import opened Ownership
  import opened Revisions
  import opened Schemas
  import opened DeclaredSchema
  import opened MemoryStore

  function ModeText(m: Mode): string {
    match m
    case Mock => "mock"
    case Real => "real"
  }

  function StatusText(s: Status): string {
    match s
    case Pending => "pending"
    case Committed => "committed"
    case Failed => "failed"
  }

  function RowOf(key: RequestKey, m: Memory): Row {
    map[OwnerId := Text(key.owner), RuntimeMode := Text(ModeText(key.mode)), RequestId := Text(key.request),
        ConversationId := Text(m.conversation), StateStatus := Text(StatusText(m.status)),
        BaseMemoryVersion := Int(m.base), MemoryVersion := Int(m.version), PayloadJson := Text(m.payload)]
  }

  // The rows are exactly the store's memories, one row each; surrogate ids are free.
  ghost predicate Tabulates(rows: Rows, keys: map<int, RequestKey>, store: Store) {
    && keys.Keys == rows.Keys
    && (forall i :: i in rows ==> keys[i] in store && rows[i] == RowOf(keys[i], store[keys[i]]))
    && (forall i, j :: i in rows && j in rows && i != j ==> keys[i] != keys[j])
    && (forall k :: k in store ==> exists i :: i in rows && keys[i] == k)
  }

  lemma TextsDiffer()
    ensures forall m, m': Mode :: ModeText(m) == ModeText(m') ==> m == m'
    ensures forall s, s': Status :: StatusText(s) == StatusText(s') ==> s == s'
  {
    assert "mock"[0] != "real"[0];
    assert |"pending"| != |"committed"| && |"failed"| != |"pending"| && |"failed"| != |"committed"|;
  }

  lemma CoveredRow(key: RequestKey, m: Memory)
    ensures Covers(PrefixedKey(COMMITTED_KEY), RowOf(key, m)) <==> m.status == Committed
  {
    TextsDiffer();
    var r := RowOf(key, m);
    NullPrefixed(r, VERSION_COLUMNS);
    VersionTriple(r, r);
  }

  lemma SameIndexEntry(key: RequestKey, m: Memory, key': RequestKey, m': Memory)
    ensures Project(RowOf(key, m), Prefixed(VERSION_COLUMNS)) ==
              Project(RowOf(key', m'), Prefixed(VERSION_COLUMNS)) <==>
              ScopeOf(key, m.conversation) == ScopeOf(key', m'.conversation) && m.version == m'.version
  {
    TextsDiffer();
    PrefixedEqual(RowOf(key, m), RowOf(key', m'), VERSION_COLUMNS, VERSION_COLUMNS);
    VersionTriple(RowOf(key, m), RowOf(key', m'));
  }

  /** The owner-prefixed partial unique index holds of the table exactly when no version of an
      owner's conversation is committed twice in the store. */
  lemma IndexIsDistinctVersions(rows: Rows, keys: map<int, RequestKey>, store: Store)
    requires Tabulates(rows, keys, store)
    ensures Unique(rows, PrefixedKey(COMMITTED_KEY)) <==> DistinctVersions(store)
  {
    forall i | i in rows
      ensures Covers(PrefixedKey(COMMITTED_KEY), rows[i]) <==> store[keys[i]].status == Committed
    {
      CoveredRow(keys[i], store[keys[i]]);
    }
    forall i, j | i in rows && j in rows
      ensures Project(rows[i], Prefixed(VERSION_COLUMNS)) == Project(rows[j], Prefixed(VERSION_COLUMNS)) <==>
                ScopeOf(keys[i], store[keys[i]].conversation) == ScopeOf(keys[j], store[keys[j]].conversation)
                && store[keys[i]].version == store[keys[j]].version
    {
      SameIndexEntry(keys[i], store[keys[i]], keys[j], store[keys[j]]);
    }
    if Unique(rows, PrefixedKey(COMMITTED_KEY)) {
      forall j, k | j in store && k in store && j != k
          && store[j].status == Committed && store[k].status == Committed
          && ScopeOf(j, store[j].conversation) == ScopeOf(k, store[k].conversation)
        ensures store[j].version != store[k].version
      {
        var i :| i in rows && keys[i] == j;
        var i' :| i' in rows && keys[i'] == k;
        var columns := PrefixedKey(COMMITTED_KEY).columns;
        assert Project(rows[i], columns) != Project(rows[i'], columns);
      }
    }
  }

  lemma UpdatedRow(rows: Rows, keys: map<int, RequestKey>, store: Store, i: int, m: Memory)
    requires Tabulates(rows, keys, store) && i in rows
    ensures Tabulates(rows[i := RowOf(keys[i], m)], keys, store[keys[i] := m])
  {
    hide RowOf;
    var after, updated := store[keys[i] := m], rows[i := RowOf(keys[i], m)];
    forall k | k in after ensures exists j :: j in updated && keys[j] == k {
      assert k in store;
      var j :| j in rows && keys[j] == k;
      assert j in updated;
    }
  }

  /** The UPDATE of a commit violates the index exactly when the protocol finds its version taken. */
  lemma IndexDecidesWrite(rows: Rows, keys: map<int, RequestKey>, store: Store, i: int, m: Memory)
    requires Tabulates(rows, keys, store) && i in rows && m.status == Committed
    requires Unique(rows, PrefixedKey(COMMITTED_KEY))
    ensures Unique(rows[i := RowOf(keys[i], m)], PrefixedKey(COMMITTED_KEY)) <==>
              !Taken(store, keys[i], ScopeOf(keys[i], m.conversation), m.version)
  {
    UpdatedRow(rows, keys, store, i, m);
    hide Unique, Tabulates, RowOf, DistinctVersions, Taken;
    IndexIsDistinctVersions(rows, keys, store);
    IndexIsDistinctVersions(rows[i := RowOf(keys[i], m)], keys, store[keys[i] := m]);
    TakenIsTheIndex(store, keys[i], m);
  }

  /** Had the index lost its WHERE clause when it was prefixed, two turns of one conversation
      could not even be pending together. */
  lemma UnfilteredIndexForbidsPendingPairs(
      rows: Rows, keys: map<int, RequestKey>, store: Store, j: RequestKey, k: RequestKey)
    requires Tabulates(rows, keys, store) && j in store && k in store && j != k
    requires store[j].status == Pending && store[k].status == Pending && store[j].version == store[k].version
    requires ScopeOf(j, store[j].conversation) == ScopeOf(k, store[k].conversation)
    ensures !Unique(rows, Key(Prefixed(VERSION_COLUMNS), Everything))
  {
    var i :| i in rows && keys[i] == j;
    var i' :| i' in rows && keys[i'] == k;
    assert rows[i] == RowOf(j, store[j]) && rows[i'] == RowOf(k, store[k]) && i != i';
    hide Tabulates;
    SameIndexEntry(j, store[j], k, store[k]);
    NullPrefixed(rows[i], VERSION_COLUMNS);
    NullPrefixed(rows[i'], VERSION_COLUMNS);
    VersionTriple(rows[i], rows[i']);
    var unfiltered := Key(Prefixed(VERSION_COLUMNS), Everything);
    hide RowOf, Prefixed, Project;
    assert Covers(unfiltered, rows[i]) && Covers(unfiltered, rows[i']);
  }

  lemma SameRequest(key: RequestKey, m: Memory, key': RequestKey, m': Memory)
    requires Project(RowOf(key, m), [OwnerId, RuntimeMode, RequestId]) ==
               Project(RowOf(key', m'), [OwnerId, RuntimeMode, RequestId])
    ensures key == key'
  {
    TextsDiffer();
    var columns := [OwnerId, RuntimeMode, RequestId];
    var p, q := Project(RowOf(key, m), columns), Project(RowOf(key', m'), columns);
    assert p[0] == Text(key.owner) && p[1] == Text(ModeText(key.mode)) && p[2] == Text(key.request);
    assert q[0] == Text(key'.owner) && q[1] == Text(ModeText(key'.mode)) && q[2] == Text(key'.request);
  }

  lemma RequestsDistinct(rows: Rows, keys: map<int, RequestKey>, store: Store)
    requires Tabulates(rows, keys, store)
    ensures Unique(rows, Key([OwnerId, RuntimeMode, RequestId], Everything))
  {
    hide RowOf, Project;
    var columns := [OwnerId, RuntimeMode, RequestId];
    forall i, j | i in rows && j in rows && i != j ensures Project(rows[i], columns) != Project(rows[j], columns) {
      if Project(rows[i], columns) == Project(rows[j], columns) {
        SameRequest(keys[i], store[keys[i]], keys[j], store[keys[j]]);
      }
    }
  }

  lemma Unnumbered(rows: Rows, keys: map<int, RequestKey>, store: Store)
    requires Tabulates(rows, keys, store)
    ensures Unique(rows, Key([Id], Everything))
  {
    forall i | i in rows ensures !Covers(Key([Id], Everything), rows[i]) {
      assert Project(rows[i], [Id])[0] == Null;
    }
  }

  lemma CommittedKeyPrefixed()
    ensures PrefixedKey(COMMITTED_KEY) == DECLARED_COMMITTED
  {
  }

  /** The table that the chain of revisions leaves behind takes the store's memories as its rows
      exactly when no version is committed twice. */
  lemma MigratedTableDecides(t: Table, keys: map<int, RequestKey>, store: Store)
    requires AsMigrated(WorkMemories, t) && Tabulates(t.rows, keys, store)
    ensures KeysHold(t) <==> DistinctVersions(store)
  {
    RequestsDistinct(t.rows, keys, store);
    Unnumbered(t.rows, keys, store);
    IndexIsDistinctVersions(t.rows, keys, store);
    CommittedKeyPrefixed();
    CommittedVersionsKeyed(t, DECLARED_COMMITTED);
    KeysHoldMeans(t);
    hide Unique, Tabulates, DistinctVersions, KeysHold, RowOf;
    forall k | HasKey(t, k) ensures Unique(t.rows, k) || k == DECLARED_COMMITTED {
      if k.filter != Everything {
        CommittedVersionsKeyed(t, k);
      } else {
        PlainKeys(t, k);
      }
    }
  }

  lemma PlainKeys(t: Table, k: Key)
    requires AsMigrated(WorkMemories, t) && HasKey(t, k) && k.filter == Everything
    ensures k.columns == [Id] || k.columns == [OwnerId, RuntimeMode, RequestId]
  {
    if Index(k.columns, true, Everything) in t.indexes {
      MigratedUniqueIndexes(WorkMemories, Index(k.columns, true, Everything));
    }
  }
}
