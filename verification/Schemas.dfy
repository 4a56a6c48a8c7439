/**
 The tables of the M4.0 schema, in their single-column and composite-key forms, and the
 composite-key revision in both directions.
 */
module Schemas {
  import opened Options
  import opened Relational

  const CONVERSATION_COLUMNS: set<Column> := {ConversationId, RuntimeMode, CreatedAt, UpdatedAt}

  const MEMORY_COLUMNS: set<Column> := {
    Id, RequestId, ConversationId, RuntimeMode, StateStatus, BaseMemoryVersion, MemoryVersion,
    SemanticModelKey, ReportTemplateKey, CurrentIntent, AnalysisGoal, PayloadJson,
    FailureReason, FailureStage, CreatedAt, UpdatedAt}

  const MEMORY_REQUIRED: set<Column> := {
    Id, RequestId, ConversationId, RuntimeMode, StateStatus, BaseMemoryVersion, MemoryVersion,
    CreatedAt, UpdatedAt}

  const SNAPSHOT_COLUMNS: set<Column> := {
    Id, RequestId, RuntimeMode, ConversationId, RequestFingerprintHash, TerminalState,
    ResponseType, PayloadJson, CreatedAt}

  const CLARIFICATION_COLUMNS: set<Column> := {
    Id, ConversationId, RuntimeMode, ChainId, SemanticModelKey, SchemaFingerprint, PayloadJson,
    CreatedAt, UpdatedAt}

  const ARTIFACT_COLUMNS: set<Column> := {
    ReportId, ConversationId, RequestId, TemplateKey, SemanticModelKey, SchemaFingerprint,
    SourceMode, ContentHash, RelativePath, PayloadJson, CreatedAt}

  const ARTIFACT_REQUIRED: set<Column> := {
    ReportId, TemplateKey, SemanticModelKey, SchemaFingerprint, SourceMode, ContentHash,
    RelativePath, CreatedAt}

  const SINGLE_FOREIGN := Foreign([ConversationId], Conversations, [ConversationId])

  const CONVERSATION_KEY: seq<Column> := [RuntimeMode, ConversationId]
  const COMPOSITE_FOREIGN := Foreign(CONVERSATION_KEY, Conversations, CONVERSATION_KEY)

  function Plain(columns: seq<Column>): Index {
    Index(columns, false, Everything)
  }

  function ConversationsTable(rows: Rows): Table {
    Table(CONVERSATION_COLUMNS, CONVERSATION_COLUMNS, [ConversationId], {}, {}, {}, NoCheck, rows)
  }

  function MemoriesTable(rows: Rows): Table {
    Table(MEMORY_COLUMNS, MEMORY_REQUIRED, [Id], {[RuntimeMode, RequestId]}, {SINGLE_FOREIGN},
          {Plain([RequestId]), Plain([ConversationId])}, NoCheck, rows)
  }

  function SnapshotsTable(rows: Rows): Table {
    Table(SNAPSHOT_COLUMNS, SNAPSHOT_COLUMNS, [Id], {[RuntimeMode, RequestId]}, {SINGLE_FOREIGN},
          {Plain([RequestId]), Plain([ConversationId])}, NoCheck, rows)
  }

  function ClarificationsTable(rows: Rows): Table {
    Table(CLARIFICATION_COLUMNS, CLARIFICATION_COLUMNS, [Id], {CONVERSATION_KEY}, {},
          {Plain([ConversationId])}, NoCheck, rows)
  }

  function ArtifactsTable(rows: Rows): Table {
    Table(ARTIFACT_COLUMNS, ARTIFACT_REQUIRED, [ReportId], {}, {}, {Plain([ConversationId])}, NoCheck, rows)
  }

  const BASE_TABLES: set<TableName> :=
    {Conversations, WorkMemories, PendingClarifications, ResultSnapshots, ReportArtifacts}

  const CHILD_TABLES: set<TableName> := {WorkMemories, PendingClarifications, ResultSnapshots}

  // The schema of the initial revision.
  function SingleKeyTable(n: TableName, rows: Rows): Table
    requires n in BASE_TABLES
  {
    match n
    case Conversations => ConversationsTable(rows)
    case WorkMemories => MemoriesTable(rows)
    case PendingClarifications => ClarificationsTable(rows)
    case ResultSnapshots => SnapshotsTable(rows)
    case ReportArtifacts => ArtifactsTable(rows)
  }

  // The schema of the composite-key revision.
  function CompositeKeyTable(n: TableName, rows: Rows): Table
    requires n in BASE_TABLES
  {
    var t := SingleKeyTable(n, rows);
    if n == Conversations then t.(primary := CONVERSATION_KEY)
    else if n in CHILD_TABLES then t.(foreigns := {COMPOSITE_FOREIGN})
    else t
  }

  predicate InSingleKeySchema(db: Tables) {
    db.Keys == BASE_TABLES && forall n :: n in BASE_TABLES ==> db[n] == SingleKeyTable(n, db[n].rows)
  }

  predicate InCompositeKeySchema(db: Tables) {
    db.Keys == BASE_TABLES && forall n :: n in BASE_TABLES ==> db[n] == CompositeKeyTable(n, db[n].rows)
  }

  predicate AllLocallyValid(db: Tables) {
    forall n :: n in db ==> LocallyValid(db[n])
  }

  // INSERT INTO new (columns) SELECT columns FROM old.
  function Recopied(rows: Rows, columns: set<Column>): Rows {
    map i | i in rows :: map c | c in columns :: At(rows[i], c)
  }

  // The four tables that the revision rebuilds, as they stand after the copy.
  function Rekeyed(db: Tables): Tables
    requires db.Keys == BASE_TABLES
  {
    map n | n in BASE_TABLES ::
      if n == Conversations then db[n].(primary := CONVERSATION_KEY)
      else if n in CHILD_TABLES then CompositeKeyTable(n, Recopied(db[n].rows, db[n].columns))
      else db[n]
  }

  function Unkeyed(db: Tables): Tables
    requires db.Keys == BASE_TABLES
  {
    map n | n in BASE_TABLES ::
      if n == Conversations then db[n].(primary := [ConversationId])
      else if n in CHILD_TABLES then SingleKeyTable(n, Recopied(db[n].rows, db[n].columns))
      else db[n]
  }

  // Foreign keys are switched off; only the constraints of the new tables can fail the copy.
  function CompositeUpgrade(db: Tables): Option<Tables>
    requires db.Keys == BASE_TABLES
  {
    if AllLocallyValid(Rekeyed(db)) then Some(Rekeyed(db)) else None
  }

  function CompositeDowngrade(db: Tables): Option<Tables>
    requires db.Keys == BASE_TABLES
  {
    if AllLocallyValid(Unkeyed(db)) then Some(Unkeyed(db)) else None
  }

  // ----- what the revision needs of the data -----

  predicate SameConversation(r: Row, parent: Row) {
    At(r, RuntimeMode) == At(parent, RuntimeMode) && At(r, ConversationId) == At(parent, ConversationId)
  }

  // Every memory, snapshot and clarification row has a conversation in its own runtime mode.
  predicate SameModeParents(db: Tables)
    requires BASE_TABLES <= db.Keys
  {
    forall n :: n in CHILD_TABLES ==> HasSameModeParents(db[n].rows, db[Conversations].rows)
  }

  predicate HasSameModeParents(rows: Rows, conversations: Rows) {
    forall i :: i in rows ==> exists j :: j in conversations && SameConversation(rows[i], conversations[j])
  }

  // No conversation_id is used in two modes.
  predicate ModesDisjoint(db: Tables)
    requires Conversations in db
  {
    IdsDistinct(db[Conversations].rows)
  }

  predicate IdsDistinct(conversations: Rows) {
    forall i, j :: i in conversations && j in conversations && i != j ==>
      At(conversations[i], ConversationId) != At(conversations[j], ConversationId)
  }

  lemma RecopiedIsIdentity(t: Table)
    requires Typed(t)
    ensures Recopied(t.rows, t.columns) == t.rows
  {
    forall i | i in t.rows ensures Recopied(t.rows, t.columns)[i] == t.rows[i] {
      assert TypedRow(t.rows[i], t.columns, t.required, t.check);
      assert Recopied(t.rows, t.columns)[i].Keys == t.rows[i].Keys;
    }
  }

  lemma LocallyValidIsTyped(t: Table)
    requires LocallyValid(t)
    ensures Typed(t)
  {
  }

  lemma RekeyedTable(db: Tables, n: TableName)
    requires db.Keys == BASE_TABLES && n in BASE_TABLES
    requires db[n] == SingleKeyTable(n, db[n].rows) && Typed(db[n])
    ensures Rekeyed(db)[n] == CompositeKeyTable(n, db[n].rows) && Rekeyed(db)[n].rows == db[n].rows
  {
    RecopiedIsIdentity(db[n]);
  }

  lemma RekeyedRows(db: Tables)
    requires InSingleKeySchema(db) && AllLocallyValid(db)
    ensures InCompositeKeySchema(Rekeyed(db))
    ensures forall n :: n in db ==> Rekeyed(db)[n].rows == db[n].rows
  {
    hide LocallyValid, SingleKeyTable, CompositeKeyTable, Recopied;
    assert Rekeyed(db).Keys == BASE_TABLES;
    hide Rekeyed;
    forall n | n in BASE_TABLES
      ensures Rekeyed(db)[n] == CompositeKeyTable(n, db[n].rows)
      ensures Rekeyed(db)[n].rows == db[n].rows
    {
      LocallyValidIsTyped(db[n]);
      RekeyedTable(db, n);
    }
  }

  lemma ConversationPair(r: Row)
    ensures Project(r, CONVERSATION_KEY) == [At(r, RuntimeMode), At(r, ConversationId)]
    ensures Project(r, [ConversationId]) == [At(r, ConversationId)]
  {
  }

  // Two projections onto the composite key agree exactly when both columns do.
  lemma SamePair(r: Row, parent: Row)
    ensures Project(r, CONVERSATION_KEY) == Project(parent, CONVERSATION_KEY) <==> SameConversation(r, parent)
  {
    ConversationPair(r);
    ConversationPair(parent);
    var p, q := Project(r, CONVERSATION_KEY), Project(parent, CONVERSATION_KEY);
    assert p[0] == At(r, RuntimeMode) && p[1] == At(r, ConversationId);
    assert q[0] == At(parent, RuntimeMode) && q[1] == At(parent, ConversationId);
  }

  lemma SingleKeyGivesComposite(rows: Rows)
    requires Unique(rows, Key([ConversationId], Everything))
    ensures Unique(rows, Key(CONVERSATION_KEY, Everything))
  {
    var single, pair := Key([ConversationId], Everything), Key(CONVERSATION_KEY, Everything);
    forall i, j | i in rows && j in rows && i != j && Covers(pair, rows[i]) && Covers(pair, rows[j])
      ensures Project(rows[i], pair.columns) != Project(rows[j], pair.columns)
    {
      ConversationPair(rows[i]);
      ConversationPair(rows[j]);
      assert Project(rows[i], pair.columns)[1] != Null && Project(rows[j], pair.columns)[1] != Null;
      SamePair(rows[i], rows[j]);
      assert Covers(single, rows[i]) && Covers(single, rows[j]);
    }
  }

  lemma CompositeTableValid(n: TableName, rows: Rows)
    requires n in BASE_TABLES && LocallyValid(SingleKeyTable(n, rows))
    ensures LocallyValid(CompositeKeyTable(n, rows))
  {
    if n == Conversations {
      SingleKeyGivesComposite(rows);
    }
  }

  lemma RekeyedValid(db: Tables)
    requires InSingleKeySchema(db) && AllLocallyValid(db)
    ensures AllLocallyValid(Rekeyed(db))
  {
    forall n | n in BASE_TABLES ensures LocallyValid(Rekeyed(db)[n]) {
      assert LocallyValid(db[n]);
      RekeyedTable(db, n);
      CompositeTableValid(n, db[n].rows);
    }
  }

  /** The composite-key upgrade never fails on a database that satisfies the old primary
      keys: all rows are kept, and the new keys hold. */
  lemma UpgradeKeepsRows(db: Tables)
    requires InSingleKeySchema(db) && AllLocallyValid(db)
    ensures CompositeUpgrade(db) == Some(Rekeyed(db))
    ensures InCompositeKeySchema(Rekeyed(db)) && AllLocallyValid(Rekeyed(db))
    ensures forall n :: n in db ==> Rekeyed(db)[n].rows == db[n].rows
  {
    RekeyedRows(db);
    RekeyedValid(db);
  }

  lemma PairRefers(rows: Rows, parents: Rows)
    requires forall i :: i in rows ==> At(rows[i], RuntimeMode) != Null && At(rows[i], ConversationId) != Null
    ensures Refers(rows, CONVERSATION_KEY, parents, CONVERSATION_KEY) <==> HasSameModeParents(rows, parents)
  {
    forall i | i in rows
      ensures Null !in Project(rows[i], CONVERSATION_KEY)
      ensures forall j :: j in parents ==>
                (Project(parents[j], CONVERSATION_KEY) == Project(rows[i], CONVERSATION_KEY) <==>
                  SameConversation(rows[i], parents[j]))
    {
      ConversationPair(rows[i]);
      forall j | j in parents {
        SamePair(rows[i], parents[j]);
      }
    }
  }

  lemma ChildColumns(t: Table)
    requires Typed(t) && {RuntimeMode, ConversationId} <= t.required
    ensures forall i :: i in t.rows ==> At(t.rows[i], RuntimeMode) != Null && At(t.rows[i], ConversationId) != Null
  {
    forall i | i in t.rows
      ensures At(t.rows[i], RuntimeMode) != Null && At(t.rows[i], ConversationId) != Null
    {
      assert TypedRow(t.rows[i], t.columns, t.required, t.check);
      assert RuntimeMode in t.required && ConversationId in t.required;
    }
  }

  lemma ChildRefers(db: Tables, n: TableName)
    requires db.Keys == BASE_TABLES && n in CHILD_TABLES
    requires db[n] == CompositeKeyTable(n, db[n].rows) && Typed(db[n])
    ensures (forall f :: f in db[n].foreigns ==> ForeignHolds(db, n, f)) <==>
              HasSameModeParents(db[n].rows, db[Conversations].rows)
  {
    ChildColumns(db[n]);
    PairRefers(db[n].rows, db[Conversations].rows);
    assert db[n].foreigns == {COMPOSITE_FOREIGN};
    assert COMPOSITE_FOREIGN in db[n].foreigns;
  }

  lemma CompositeForeigns(db: Tables)
    requires InCompositeKeySchema(db) && AllLocallyValid(db)
    ensures ForeignsHold(db) <==> SameModeParents(db)
  {
    forall n | n in BASE_TABLES
      ensures n in CHILD_TABLES ==>
                ((forall f :: f in db[n].foreigns ==> ForeignHolds(db, n, f)) <==>
                  HasSameModeParents(db[n].rows, db[Conversations].rows))
      ensures n !in CHILD_TABLES ==> db[n].foreigns == {}
    {
      LocallyValidIsTyped(db[n]);
      if n in CHILD_TABLES {
        hide LocallyValid, ForeignHolds, HasSameModeParents, CompositeKeyTable;
        ChildRefers(db, n);
      }
    }
  }

  /** The upgraded foreign keys hold exactly when every child row has a parent in its own
      runtime mode. */
  lemma UpgradeForeignsIff(db: Tables, after: Tables)
    requires InSingleKeySchema(db) && AllLocallyValid(db)
    requires CompositeUpgrade(db) == Some(after)
    ensures ForeignsHold(after) <==> SameModeParents(db)
  {
    UpgradeKeepsRows(db);
    CompositeForeigns(after);
    SameParents(db, after);
  }

  lemma SameParents(db: Tables, after: Tables)
    requires db.Keys == after.Keys == BASE_TABLES
    requires forall n :: n in db ==> after[n].rows == db[n].rows
    ensures SameModeParents(after) <==> SameModeParents(db)
  {
  }

  const MOCK_CONVERSATION: Row := map[
    ConversationId := Text("c"), RuntimeMode := Text("mock"), CreatedAt := Int(0), UpdatedAt := Int(0)]

  const REAL_SNAPSHOT: Row := map[
    Id := Int(1), RequestId := Text("r"), RuntimeMode := Text("real"), ConversationId := Text("c"),
    RequestFingerprintHash := Text(""), TerminalState := Text(""), ResponseType := Text(""),
    PayloadJson := Text(""), CreatedAt := Int(0)]

  // A mock conversation with a snapshot that claims to be real.
  function CrossModeSnapshot(): Tables {
    map n | n in BASE_TABLES :: SingleKeyTable(n,
      if n == Conversations then map[0 := MOCK_CONVERSATION]
      else if n == ResultSnapshots then map[0 := REAL_SNAPSHOT]
      else map[])
  }

  lemma AtMostOneRow(t: Table)
    requires forall i :: i in t.rows ==> i == 0 && TypedRow(t.rows[i], t.columns, t.required, t.check)
    ensures LocallyValid(t)
  {
  }

  lemma CrossModeTyped()
    ensures TypedRow(MOCK_CONVERSATION, CONVERSATION_COLUMNS, CONVERSATION_COLUMNS, NoCheck)
    ensures TypedRow(REAL_SNAPSHOT, SNAPSHOT_COLUMNS, SNAPSHOT_COLUMNS, NoCheck)
    ensures !SameConversation(REAL_SNAPSHOT, MOCK_CONVERSATION)
    ensures Project(MOCK_CONVERSATION, [ConversationId]) == Project(REAL_SNAPSHOT, [ConversationId])
  {
    assert MOCK_CONVERSATION.Keys == CONVERSATION_COLUMNS;
    assert REAL_SNAPSHOT.Keys == SNAPSHOT_COLUMNS;
    assert "real"[0] != "mock"[0];
    ConversationPair(MOCK_CONVERSATION);
    ConversationPair(REAL_SNAPSHOT);
  }

  lemma CrossModeTableValid(n: TableName)
    requires n in BASE_TABLES
    ensures LocallyValid(CrossModeSnapshot()[n])
  {
    CrossModeTyped();
    AtMostOneRow(CrossModeSnapshot()[n]);
  }

  lemma CrossModeForeigns()
    ensures ForeignsHold(CrossModeSnapshot())
  {
    var db := CrossModeSnapshot();
    CrossModeTyped();
    forall n, f | n in db && f in db[n].foreigns ensures ForeignHolds(db, n, f) {
      assert f == SINGLE_FOREIGN && (n == WorkMemories || n == ResultSnapshots);
      var conversations := db[Conversations].rows;
      assert 0 in conversations && conversations[0] == MOCK_CONVERSATION;
      assert forall i :: i in db[n].rows ==> db[n].rows[i] == REAL_SNAPSHOT;
    }
  }

  lemma CrossModeOrphan()
    ensures !SameModeParents(CrossModeSnapshot())
  {
    CrossModeTyped();
    var snapshots, conversations := CrossModeSnapshot()[ResultSnapshots].rows, CrossModeSnapshot()[Conversations].rows;
    hide SingleKeyTable, SameConversation;
    assert 0 in snapshots && snapshots[0] == REAL_SNAPSHOT;
    assert forall j :: j in conversations ==> conversations[j] == MOCK_CONVERSATION;
    assert !HasSameModeParents(snapshots, conversations);
  }

  /** The old single-column foreign key accepts a database that the composite one rejects. */
  lemma SingleKeyAllowsCrossMode()
    ensures InSingleKeySchema(CrossModeSnapshot()) && Valid(CrossModeSnapshot())
    ensures !SameModeParents(CrossModeSnapshot())
  {
    hide LocallyValid, ForeignsHold, SameModeParents;
    CrossModeForeigns();
    CrossModeOrphan();
    forall n | n in BASE_TABLES ensures LocallyValid(CrossModeSnapshot()[n]) {
      CrossModeTableValid(n);
    }
  }

  // ----- the downgrade -----

  lemma UnkeyedTable(db: Tables, n: TableName)
    requires db.Keys == BASE_TABLES && n in BASE_TABLES
    requires db[n] == CompositeKeyTable(n, db[n].rows) && Typed(db[n])
    ensures Unkeyed(db)[n] == SingleKeyTable(n, db[n].rows) && Unkeyed(db)[n].rows == db[n].rows
  {
    RecopiedIsIdentity(db[n]);
  }

  lemma UnkeyedRows(db: Tables)
    requires InCompositeKeySchema(db) && AllLocallyValid(db)
    ensures InSingleKeySchema(Unkeyed(db))
    ensures forall n :: n in db ==> Unkeyed(db)[n].rows == db[n].rows
  {
    hide LocallyValid, SingleKeyTable, CompositeKeyTable, Recopied;
    assert Unkeyed(db).Keys == BASE_TABLES;
    hide Unkeyed;
    forall n | n in BASE_TABLES
      ensures Unkeyed(db)[n] == SingleKeyTable(n, db[n].rows)
      ensures Unkeyed(db)[n].rows == db[n].rows
    {
      LocallyValidIsTyped(db[n]);
      UnkeyedTable(db, n);
    }
  }

  lemma SingleTableValid(n: TableName, rows: Rows)
    requires n in BASE_TABLES && LocallyValid(CompositeKeyTable(n, rows))
    ensures LocallyValid(SingleKeyTable(n, rows)) <==> (n == Conversations ==> IdsDistinct(rows))
  {
    if n == Conversations {
      SingleKeyIff(CompositeKeyTable(n, rows));
    }
  }

  lemma SingleKeyIff(t: Table)
    requires Typed(t) && ConversationId in t.required
    ensures Unique(t.rows, Key([ConversationId], Everything)) <==> IdsDistinct(t.rows)
  {
    var k := Key([ConversationId], Everything);
    forall i | i in t.rows
      ensures Covers(k, t.rows[i]) && Project(t.rows[i], k.columns) == [At(t.rows[i], ConversationId)]
    {
      assert TypedRow(t.rows[i], t.columns, t.required, t.check);
      ConversationPair(t.rows[i]);
    }
    if Unique(t.rows, k) {
      forall i, j | i in t.rows && j in t.rows && i != j
        ensures At(t.rows[i], ConversationId) != At(t.rows[j], ConversationId)
      {
        assert Covers(k, t.rows[i]) && Covers(k, t.rows[j]);
        assert Project(t.rows[i], k.columns) != Project(t.rows[j], k.columns);
      }
    }
    if IdsDistinct(t.rows) {
      forall i, j | i in t.rows && j in t.rows && i != j
        ensures Project(t.rows[i], k.columns) != Project(t.rows[j], k.columns)
      {
        assert Project(t.rows[i], k.columns)[0] != Project(t.rows[j], k.columns)[0];
      }
    }
  }

  /** The downgrade succeeds exactly when no conversation_id is used in two modes, and then
      it keeps every row. */
  lemma DowngradeIff(db: Tables)
    requires InCompositeKeySchema(db) && AllLocallyValid(db)
    ensures CompositeDowngrade(db) == if ModesDisjoint(db) then Some(Unkeyed(db)) else None
    ensures InSingleKeySchema(Unkeyed(db))
    ensures forall n :: n in db ==> Unkeyed(db)[n].rows == db[n].rows
  {
    UnkeyedRows(db);
    forall n | n in BASE_TABLES
      ensures LocallyValid(Unkeyed(db)[n]) <==> (n == Conversations ==> IdsDistinct(db[n].rows))
    {
      assert LocallyValid(db[n]);
      UnkeyedTable(db, n);
      SingleTableValid(n, db[n].rows);
    }
  }

  /** A downgrade that succeeds on a valid database leaves a valid one. */
  lemma DowngradeKeepsValidity(db: Tables)
    requires InCompositeKeySchema(db) && Valid(db) && ModesDisjoint(db)
    ensures CompositeDowngrade(db) == Some(Unkeyed(db)) && Valid(Unkeyed(db))
  {
    DowngradeIff(db);
    CompositeForeigns(db);
    SameParents(db, Unkeyed(db));
    SameModeGivesSingleForeigns(Unkeyed(db));
  }

  lemma SameModeGivesSingleForeigns(db: Tables)
    requires InSingleKeySchema(db) && SameModeParents(db)
    ensures ForeignsHold(db)
  {
    forall n, f | n in db && f in db[n].foreigns ensures ForeignHolds(db, n, f) {
      assert db[n] == SingleKeyTable(n, db[n].rows);
      assert n in CHILD_TABLES && f == SINGLE_FOREIGN;
      forall i | i in db[n].rows
        ensures exists j :: j in db[Conversations].rows
                  && Project(db[Conversations].rows[j], [ConversationId]) == Project(db[n].rows[i], [ConversationId])
      {
        var j :| j in db[Conversations].rows && SameConversation(db[n].rows[i], db[Conversations].rows[j]);
        ConversationPair(db[n].rows[i]);
        ConversationPair(db[Conversations].rows[j]);
      }
    }
  }

  /** Downgrading right after upgrading restores the database, schema and rows alike. */
  lemma DowngradeUndoesUpgrade(db: Tables)
    requires InSingleKeySchema(db) && AllLocallyValid(db)
    ensures CompositeUpgrade(db) == Some(Rekeyed(db))
    ensures CompositeDowngrade(Rekeyed(db)) == Some(db)
  {
    UpgradeKeepsRows(db);
    assert LocallyValid(db[Conversations]);
    SingleKeyIff(db[Conversations]);
    assert ModesDisjoint(Rekeyed(db));
    DowngradeIff(Rekeyed(db));
    SameSchemaSameRows(Unkeyed(Rekeyed(db)), db);
  }

  lemma SameSchemaSameRows(db: Tables, db': Tables)
    requires InSingleKeySchema(db) && InSingleKeySchema(db')
    requires forall n :: n in db ==> db[n].rows == db'[n].rows
    ensures db == db'
  {
    forall n | n in db ensures db[n] == db'[n] {
      assert db[n] == SingleKeyTable(n, db[n].rows) && db'[n] == SingleKeyTable(n, db'[n].rows);
    }
  }
}
