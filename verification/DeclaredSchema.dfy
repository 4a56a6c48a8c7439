/**
 The tables as the ORM models declare them, and how far the migrated database agrees.
 */
module DeclaredSchema {
  import opened Options
  import opened Relational
  import opened Ownership
  import opened Schemas
  import opened Revisions
  import opened UpgradeChain

  const OWNER_REFERENCE := Foreign([OwnerId], ResourceOwners, [OwnerId])

  const PARENT_COLUMNS: seq<Column> := [OwnerId, RuntimeMode, ConversationId]
  const PARENT_REFERENCE := Foreign(PARENT_COLUMNS, Conversations, PARENT_COLUMNS)

  const DECLARED_COMMITTED := Key([OwnerId, RuntimeMode, ConversationId, MemoryVersion],
                                  Where(StateStatus, Text("committed")))

  // A model class: its columns, those of them that may be NULL, its constraints and its indexes.
  function Model(columns: set<Column>, nullable: set<Column>, primary: seq<Column>, uniques: set<seq<Column>>,
                 foreigns: set<Foreign>, indexes: set<Index>): Table {
    Table(columns, columns - nullable, primary, uniques, foreigns, indexes, NoCheck, map[])
  }

  function Declared(n: TableName): Table {
    match n
    case ResourceOwners => DeclaredOwners()
    case Conversations => DeclaredConversations()
    case ConversationDeleteIntents =>
      Model({OwnerId, ConversationId, RuntimeMode, ReportIdsJson, DeletedCountsJson, CreatedAt}, {},
            [OwnerId, ConversationId, RuntimeMode], {}, {OWNER_REFERENCE}, {})
    case WorkMemories => DeclaredMemories()
    case PendingClarifications => DeclaredClarifications()
    case ResultSnapshots => DeclaredSnapshots()
    case ReportArtifacts => DeclaredArtifacts()
    case ReportPresentations => DeclaredPresentations()
    case ReportDeleteIntents =>
      Model({OwnerId, ReportId, SourceMode, ConversationId, RequestId, PayloadJson, CreatedAt},
            {ConversationId, RequestId}, [OwnerId, ReportId], {}, {OWNER_REFERENCE}, {})
  }

  function DeclaredOwners(): Table {
    Table({OwnerId, IdentityMode, TenantId, PrincipalId}, {OwnerId, IdentityMode, TenantId, PrincipalId},
          [OwnerId], {[IdentityMode, TenantId, PrincipalId]}, {}, {}, OwnerIdentity, map[])
  }

  function DeclaredConversations(): Table {
    Model({OwnerId, ConversationId, RuntimeMode, CreatedAt, UpdatedAt, ArchivedAt, Title, ResourceStatus,
           LastErrorType},
          {ArchivedAt, Title, LastErrorType}, [OwnerId, ConversationId, RuntimeMode], {}, {OWNER_REFERENCE},
          {Plain([OwnerId, RuntimeMode, ArchivedAt, UpdatedAt, CreatedAt, ConversationId])})
  }

  function DeclaredMemories(): Table {
    Model({OwnerId, Id, RequestId, ConversationId, RuntimeMode, StateStatus, BaseMemoryVersion, MemoryVersion,
           SemanticModelKey, ReportTemplateKey, CurrentIntent, AnalysisGoal, PayloadJson, FailureReason,
           FailureStage, CreatedAt, UpdatedAt},
          {SemanticModelKey, ReportTemplateKey, CurrentIntent, AnalysisGoal, PayloadJson, FailureReason, FailureStage},
          [Id], {[OwnerId, RuntimeMode, RequestId]}, {OWNER_REFERENCE, PARENT_REFERENCE},
          {Plain([RequestId]), Plain([ConversationId]),
           Index(DECLARED_COMMITTED.columns, true, DECLARED_COMMITTED.filter),
           Plain([OwnerId, RuntimeMode, ConversationId, StateStatus, CreatedAt])})
  }

  function DeclaredClarifications(): Table {
    Model({OwnerId, Id, ConversationId, RuntimeMode, ChainId, SemanticModelKey, SchemaFingerprint, PayloadJson,
           CreatedAt, UpdatedAt}, {},
          [Id], {[OwnerId, RuntimeMode, ConversationId]}, {OWNER_REFERENCE, PARENT_REFERENCE},
          {Plain([ConversationId])})
  }

  function DeclaredSnapshots(): Table {
    Model({OwnerId, Id, RequestId, RuntimeMode, ConversationId, RequestFingerprintHash, TerminalState, ResponseType,
           PayloadJson, CreatedAt}, {},
          [Id], {[OwnerId, RuntimeMode, RequestId]}, {OWNER_REFERENCE, PARENT_REFERENCE},
          {Plain([RequestId]), Plain([ConversationId]),
           Plain([OwnerId, RuntimeMode, ConversationId, CreatedAt, Id])})
  }

  function DeclaredArtifacts(): Table {
    Model({OwnerId, ReportId, ConversationId, RequestId, TemplateKey, SemanticModelKey, SchemaFingerprint,
           SourceMode, ContentHash, RelativePath, PayloadJson, CreatedAt},
          {ConversationId, RequestId, PayloadJson}, [OwnerId, ReportId], {}, {OWNER_REFERENCE},
          {Plain([ConversationId]),
           Plain([OwnerId, SourceMode, ConversationId, CreatedAt, ReportId]),
           Plain([OwnerId, SourceMode, CreatedAt, ReportId])})
  }

  function DeclaredPresentations(): Table {
    Model({OwnerId, ReportId, SourceMode, ConversationId, RequestId, DisplayTitle, AvailabilityStatus, DeletedAt,
           ArchivedAt, CreatedAt, UpdatedAt},
          {ConversationId, RequestId, DeletedAt, ArchivedAt}, [OwnerId, ReportId], {}, {OWNER_REFERENCE},
          {Plain([OwnerId, SourceMode, ConversationId, RequestId, ReportId]),
           Plain([OwnerId, SourceMode, ArchivedAt, UpdatedAt, ReportId])})
  }

  // The two ways in which the migrated tables differ from the models: the order of one
  // primary key, and the owner column in front of the single-column indexes.
  function Migrated(n: TableName): Table {
    Declared(n).(primary := MigratedPrimary(n), indexes := MigratedIndexes(Declared(n).indexes))
  }

  function MigratedPrimary(n: TableName): seq<Column> {
    if n == Conversations then [OwnerId, RuntimeMode, ConversationId] else Declared(n).primary
  }

  function MigratedIndexes(indexes: set<Index>): set<Index> {
    set x | x in indexes :: MigratedIndex(x)
  }

  function MigratedIndex(x: Index): Index {
    if |x.columns| == 1 then Plain([OwnerId] + x.columns) else x
  }

  predicate AsMigrated(n: TableName, t: Table) {
    t == Migrated(n).(rows := t.rows)
  }

  // ----- the tables just before the ownership revision -----

  function Rowless(t: Table): Table {
    t.(rows := map[])
  }

  function WidenedConversations(t: Table): Table {
    var archived := WithIndexes(WithColumn(t, ArchivedAt, Null, false), {RECENT});
    WithFailureColumns(WithIndexes(WithColumn(archived, Title, Null, false), {}))
  }

  function WidenedMemories(t: Table): Table {
    WithIndexes(t, {Plain([RuntimeMode, ConversationId, StateStatus, CreatedAt])})
  }

  function WidenedSnapshots(t: Table): Table {
    WithIndexes(t, {Plain([RuntimeMode, ConversationId, CreatedAt, Id])})
  }

  function WidenedArtifacts(t: Table): Table {
    WithIndexes(WithIndexes(t, {Plain([SourceMode, ConversationId, CreatedAt, ReportId])}),
                {Plain([SourceMode, CreatedAt, ReportId])})
  }

  function WidenedPresentations(t: Table): Table {
    WithIndexes(WithColumn(t, ArchivedAt, Null, false), {Plain([SourceMode, ArchivedAt, UpdatedAt, ReportId])})
  }

  lemma ArchivedTables(db: Tables)
    requires db.Keys == BASE_TABLES
    ensures var a := ArchiveUpgrade(db);
            && a.Keys == BASE_TABLES
            && a[Conversations] == WithIndexes(WithColumn(db[Conversations], ArchivedAt, Null, false), {RECENT})
            && a[WorkMemories] == WidenedMemories(db[WorkMemories])
            && a[PendingClarifications] == db[PendingClarifications]
            && a[ResultSnapshots] == WidenedSnapshots(db[ResultSnapshots])
            && a[ReportArtifacts] ==
                 WithIndexes(db[ReportArtifacts], {Plain([SourceMode, ConversationId, CreatedAt, ReportId])})
  {
    hide WithColumn, WithIndexes;
  }

  // What the revisions between the archive columns and ownership make of each table.
  lemma WidenedTables(db: Tables)
    requires db.Keys == BASE_TABLES
    ensures
      var wide := Widened(db);
      && wide.Keys == BASE_TABLES + {ConversationDeleteIntents, ReportPresentations, ReportDeleteIntents}
      && wide[Conversations].(rows := map[]) == Rowless(WidenedConversations(db[Conversations]))
      && wide[Conversations].rows == MarkedRows(db[ResultSnapshots].rows, WidenedConversations(db[Conversations]).rows)
      && wide[ConversationDeleteIntents] == CONVERSATION_INTENTS
      && wide[WorkMemories] == WidenedMemories(db[WorkMemories])
      && wide[PendingClarifications] == db[PendingClarifications]
      && wide[ResultSnapshots] == WidenedSnapshots(db[ResultSnapshots])
      && wide[ReportArtifacts] == WidenedArtifacts(db[ReportArtifacts])
      && wide[ReportPresentations] == WidenedPresentations(PresentationsTable(db[ReportArtifacts].rows))
      && wide[ReportDeleteIntents] == REPORT_INTENTS
  {
    ArchivedTables(db);
    var archived := ArchiveUpgrade(db);
    assert archived[ReportArtifacts].rows == db[ReportArtifacts].rows;
    assert archived[ResultSnapshots].rows == db[ResultSnapshots].rows;
    hide ArchiveUpgrade, WithColumn, WithIndexes, MarkedRows, PresentationsTable, WithFailureColumns;
    TitledTables(archived);
  }

  lemma TitledTables(archived: Tables)
    requires archived.Keys == BASE_TABLES
    ensures
      var wide := FromTitle(ConversationIntentsUpgrade(archived));
      var titled := WithIndexes(WithColumn(archived[Conversations], Title, Null, false), {});
      && wide.Keys == BASE_TABLES + {ConversationDeleteIntents, ReportPresentations, ReportDeleteIntents}
      && wide[Conversations] ==
           WithFailureColumns(titled).(rows := MarkedRows(archived[ResultSnapshots].rows,
                                                          WithFailureColumns(titled).rows))
      && wide[ConversationDeleteIntents] == CONVERSATION_INTENTS
      && wide[WorkMemories] == archived[WorkMemories]
      && wide[PendingClarifications] == archived[PendingClarifications]
      && wide[ResultSnapshots] == archived[ResultSnapshots]
      && wide[ReportArtifacts] == WithIndexes(archived[ReportArtifacts], {Plain([SourceMode, CreatedAt, ReportId])})
      && wide[ReportPresentations] == WidenedPresentations(PresentationsTable(archived[ReportArtifacts].rows))
      && wide[ReportDeleteIntents] == REPORT_INTENTS
  {
    hide WithColumn, WithIndexes, MarkedRows, PresentationsTable, WithFailureColumns;
  }

  lemma WidenedIsRowless(t: Table, t': Table)
    requires Rowless(t) == Rowless(t')
    ensures Rowless(WidenedConversations(t)) == Rowless(WidenedConversations(t'))
    ensures Rowless(WidenedPresentations(t)) == Rowless(WidenedPresentations(t'))
    ensures forall n :: Rowless(ScopedTable(n, t)) == Rowless(ScopedTable(n, t'))
  {
  }

  lemma ImagesOfIndexes(a: Index, b: Index, c: Index, d: Index)
    ensures (set x | x in {a, b, c, d} :: ScopedIndex(x)) ==
              {ScopedIndex(a), ScopedIndex(b), ScopedIndex(c), ScopedIndex(d)}
    ensures MigratedIndexes({a, b, c, d}) == {MigratedIndex(a), MigratedIndex(b), MigratedIndex(c), MigratedIndex(d)}
  {
    var all := {a, b, c, d};
    assert a in all && b in all && c in all && d in all;
    assert forall x :: x in all ==> x == a || x == b || x == c || x == d;
  }

  // A migrated index for every index that was there, four at most.
  lemma IndexesMatch(a: Index, b: Index, c: Index, d: Index, a': Index, b': Index, c': Index, d': Index)
    requires ScopedIndex(a) == MigratedIndex(a') && ScopedIndex(b) == MigratedIndex(b')
    requires ScopedIndex(c) == MigratedIndex(c') && ScopedIndex(d) == MigratedIndex(d')
    ensures (set x | x in {a, b, c, d} :: ScopedIndex(x)) == MigratedIndexes({a', b', c', d'})
  {
    hide ScopedIndex, MigratedIndex, MigratedIndexes;
    ImagesOfIndexes(a, b, c, d);
    ImagesOfIndexes(a', b', c', d');
  }

  lemma SingleColumnIndex(c: Column)
    ensures ScopedIndex(Plain([c])) == MigratedIndex(Plain([c]))
  {
  }

  lemma SeveralColumnIndex(columns: seq<Column>, prefixed: seq<Column>, unique: bool, filter: Filter)
    requires |columns| > 0 && prefixed == [OwnerId] + columns
    ensures ScopedIndex(Index(columns, unique, filter)) == MigratedIndex(Index(prefixed, unique, filter))
  {
  }

  lemma ConversationsMigrated(t: Table)
    requires Rowless(t) == Rowless(WidenedConversations(CompositeKeyTable(Conversations, map[])))
    ensures AsMigrated(Conversations, ScopedTable(Conversations, t))
  {
    assert t.indexes == {RECENT_WITH_CREATION};
    var s, d := ScopedTable(Conversations, t), DeclaredConversations();
    assert s.columns == d.columns && s.required == d.required;
    assert s.foreigns == d.foreigns;
    var x := Plain([OwnerId, RuntimeMode, ArchivedAt, UpdatedAt, CreatedAt, ConversationId]);
    SeveralColumnIndex(RECENT_WITH_CREATION.columns, x.columns, false, Everything);
    IndexesMatch(RECENT_WITH_CREATION, RECENT_WITH_CREATION, RECENT_WITH_CREATION, RECENT_WITH_CREATION, x, x, x, x);
    assert d.indexes == {x, x, x, x};
    assert t.indexes == {RECENT_WITH_CREATION, RECENT_WITH_CREATION, RECENT_WITH_CREATION, RECENT_WITH_CREATION};
  }

  lemma IntentsMigrated()
    ensures AsMigrated(ConversationDeleteIntents, ScopedTable(ConversationDeleteIntents, CONVERSATION_INTENTS))
    ensures AsMigrated(ReportDeleteIntents, ScopedTable(ReportDeleteIntents, REPORT_INTENTS))
  {
    var s, d := ScopedTable(ConversationDeleteIntents, CONVERSATION_INTENTS), Declared(ConversationDeleteIntents);
    assert s.columns == d.columns && s.required == d.required;
    assert s.foreigns == d.foreigns;
    var s', d' := ScopedTable(ReportDeleteIntents, REPORT_INTENTS), Declared(ReportDeleteIntents);
    assert s'.columns == d'.columns && s'.required == d'.required;
    assert s'.foreigns == d'.foreigns;
  }

  lemma ChildConstraints(t: Table, key: seq<Column>, prefixed: seq<Column>)
    requires t.uniques == {key} && t.foreigns == {COMPOSITE_FOREIGN} && prefixed == [OwnerId] + key
    ensures forall n :: ScopedTable(n, t).uniques == {prefixed}
    ensures forall n :: ScopedTable(n, t).foreigns == {OWNER_REFERENCE, PARENT_REFERENCE}
  {
    assert key in t.uniques && COMPOSITE_FOREIGN in t.foreigns;
    assert ScopedForeign(COMPOSITE_FOREIGN) == PARENT_REFERENCE;
  }

  lemma MemoryIndexes(t: Table)
    requires t.indexes == {Plain([RequestId]), Plain([ConversationId])}
    ensures ScopedTable(WorkMemories, WidenedMemories(WithIndexes(t, {COMMITTED_INDEX}))).indexes ==
              MigratedIndexes(DeclaredMemories().indexes)
  {
    var history := Plain([RuntimeMode, ConversationId, StateStatus, CreatedAt]);
    var history' := Plain([OwnerId, RuntimeMode, ConversationId, StateStatus, CreatedAt]);
    var committed := Index(DECLARED_COMMITTED.columns, true, DECLARED_COMMITTED.filter);
    SingleColumnIndex(RequestId);
    SingleColumnIndex(ConversationId);
    SeveralColumnIndex(VERSION_COLUMNS, DECLARED_COMMITTED.columns, true, COMMITTED_FILTER);
    SeveralColumnIndex(history.columns, history'.columns, false, Everything);
    IndexesMatch(Plain([RequestId]), Plain([ConversationId]), COMMITTED_INDEX, history,
                 Plain([RequestId]), Plain([ConversationId]), committed, history');
    assert WidenedMemories(WithIndexes(t, {COMMITTED_INDEX})).indexes ==
           {Plain([RequestId]), Plain([ConversationId]), COMMITTED_INDEX, history};
  }

  lemma MemoryColumns()
    ensures MEMORY_COLUMNS + {OwnerId} == DeclaredMemories().columns
    ensures MEMORY_REQUIRED + {OwnerId} == DeclaredMemories().required
  {
  }

  lemma MemoriesMigrated(t: Table)
    requires Rowless(t) == Rowless(CompositeKeyTable(WorkMemories, map[]))
    ensures AsMigrated(WorkMemories, ScopedTable(WorkMemories, WidenedMemories(WithIndexes(t, {COMMITTED_INDEX}))))
  {
    var wide, d := WidenedMemories(WithIndexes(t, {COMMITTED_INDEX})), DeclaredMemories();
    var s := ScopedTable(WorkMemories, wide);
    MemoryIndexes(t);
    ChildConstraints(wide, [RuntimeMode, RequestId], [OwnerId, RuntimeMode, RequestId]);
    MemoryColumns();
    hide MigratedIndexes, ScopedIndex, ScopedForeign, MEMORY_COLUMNS, MEMORY_REQUIRED;
  }

  lemma ClarificationsMigrated(t: Table)
    requires Rowless(t) == Rowless(CompositeKeyTable(PendingClarifications, map[]))
    ensures AsMigrated(PendingClarifications, ScopedTable(PendingClarifications, t))
  {
    var s, d := ScopedTable(PendingClarifications, t), DeclaredClarifications();
    assert s.columns == d.columns && s.required == d.required;
    ChildConstraints(t, [RuntimeMode, ConversationId], [OwnerId, RuntimeMode, ConversationId]);
    var x := Plain([ConversationId]);
    SingleColumnIndex(ConversationId);
    IndexesMatch(x, x, x, x, x, x, x, x);
    assert t.indexes == {x, x, x, x} == d.indexes;
  }

  lemma SnapshotIndexes(t: Table)
    requires t.indexes == {Plain([RequestId]), Plain([ConversationId])}
    ensures ScopedTable(ResultSnapshots, WidenedSnapshots(t)).indexes == MigratedIndexes(DeclaredSnapshots().indexes)
  {
    var history := Plain([RuntimeMode, ConversationId, CreatedAt, Id]);
    var history' := Plain([OwnerId, RuntimeMode, ConversationId, CreatedAt, Id]);
    SingleColumnIndex(RequestId);
    SingleColumnIndex(ConversationId);
    SeveralColumnIndex(history.columns, history'.columns, false, Everything);
    IndexesMatch(Plain([RequestId]), Plain([ConversationId]), history, history,
                 Plain([RequestId]), Plain([ConversationId]), history', history');
    assert WidenedSnapshots(t).indexes == {Plain([RequestId]), Plain([ConversationId]), history, history};
    assert DeclaredSnapshots().indexes == {Plain([RequestId]), Plain([ConversationId]), history', history'};
  }

  lemma SnapshotsMigrated(t: Table)
    requires Rowless(t) == Rowless(CompositeKeyTable(ResultSnapshots, map[]))
    ensures AsMigrated(ResultSnapshots, ScopedTable(ResultSnapshots, WidenedSnapshots(t)))
  {
    var wide, d := WidenedSnapshots(t), DeclaredSnapshots();
    var s := ScopedTable(ResultSnapshots, wide);
    SnapshotIndexes(t);
    ChildConstraints(wide, [RuntimeMode, RequestId], [OwnerId, RuntimeMode, RequestId]);
    hide MigratedIndexes, ScopedIndex, ScopedForeign;
    assert s.columns == d.columns && s.required == d.required;
  }

  lemma ArtifactIndexes(t: Table)
    requires t.indexes == {Plain([ConversationId])}
    ensures ScopedTable(ReportArtifacts, WidenedArtifacts(t)).indexes == MigratedIndexes(DeclaredArtifacts().indexes)
  {
    var history := Plain([SourceMode, ConversationId, CreatedAt, ReportId]);
    var history' := Plain([OwnerId, SourceMode, ConversationId, CreatedAt, ReportId]);
    var recent, recent' := Plain([SourceMode, CreatedAt, ReportId]), Plain([OwnerId, SourceMode, CreatedAt, ReportId]);
    SingleColumnIndex(ConversationId);
    SeveralColumnIndex(history.columns, history'.columns, false, Everything);
    SeveralColumnIndex(recent.columns, recent'.columns, false, Everything);
    IndexesMatch(Plain([ConversationId]), history, recent, recent, Plain([ConversationId]), history', recent', recent');
    assert WidenedArtifacts(t).indexes == {Plain([ConversationId]), history, recent, recent};
    assert DeclaredArtifacts().indexes == {Plain([ConversationId]), history', recent', recent'};
  }

  lemma ArtifactsMigrated(t: Table)
    requires Rowless(t) == Rowless(CompositeKeyTable(ReportArtifacts, map[]))
    ensures AsMigrated(ReportArtifacts, ScopedTable(ReportArtifacts, WidenedArtifacts(t)))
  {
    var wide, d := WidenedArtifacts(t), DeclaredArtifacts();
    var s := ScopedTable(ReportArtifacts, wide);
    ArtifactIndexes(t);
    hide MigratedIndexes, ScopedIndex;
    assert s.columns == d.columns && s.required == d.required;
    assert s.foreigns == d.foreigns;
  }

  lemma PresentationColumns(t: Table)
    requires Rowless(t) == Rowless(PresentationsTable(map[]))
    ensures var s, d := ScopedTable(ReportPresentations, WidenedPresentations(t)), DeclaredPresentations();
            && s.columns == d.columns && s.required == d.required && s.primary == d.primary
            && s.uniques == d.uniques && s.foreigns == d.foreigns && s.check == d.check
  {
    var s := ScopedTable(ReportPresentations, WidenedPresentations(t));
    assert s.foreigns == {OWNER_REFERENCE};
    assert s.columns == PRESENTATION_COLUMNS + {ArchivedAt, OwnerId};
    assert s.required == PRESENTATION_COLUMNS - {ConversationId, RequestId, DeletedAt} + {OwnerId};
  }

  lemma PresentationIndexes(t: Table)
    requires t.indexes == {Plain([SourceMode, ConversationId, RequestId, ReportId])}
    ensures ScopedTable(ReportPresentations, WidenedPresentations(t)).indexes ==
              MigratedIndexes(DeclaredPresentations().indexes)
  {
    var history := Plain([SourceMode, ConversationId, RequestId, ReportId]);
    var history' := Plain([OwnerId, SourceMode, ConversationId, RequestId, ReportId]);
    var recent := Plain([SourceMode, ArchivedAt, UpdatedAt, ReportId]);
    var recent' := Plain([OwnerId, SourceMode, ArchivedAt, UpdatedAt, ReportId]);
    SeveralColumnIndex(history.columns, history'.columns, false, Everything);
    SeveralColumnIndex(recent.columns, recent'.columns, false, Everything);
    IndexesMatch(history, history, recent, recent, history', history', recent', recent');
    assert WidenedPresentations(t).indexes == {history, history, recent, recent};
    assert DeclaredPresentations().indexes == {history', history', recent', recent'};
  }

  lemma PresentationsMigrated(t: Table)
    requires Rowless(t) == Rowless(PresentationsTable(map[]))
    ensures AsMigrated(ReportPresentations, ScopedTable(ReportPresentations, WidenedPresentations(t)))
  {
    PresentationColumns(t);
    PresentationIndexes(t);
    hide ScopedTable, WidenedPresentations, DeclaredPresentations, PresentationsTable, MigratedIndexes;
  }

  lemma OwnersMigrated()
    ensures AsMigrated(ResourceOwners, OWNERS_TABLE)
  {
    assert MigratedIndexes({}) == {};
  }

  lemma CompositeRowless(keyed: Tables, n: TableName)
    requires InCompositeKeySchema(keyed) && n in BASE_TABLES
    ensures Rowless(keyed[n]) == Rowless(CompositeKeyTable(n, map[]))
  {
  }

  // The tables that the committed-version revision starts from and leaves behind.
  lemma IndexedTables(keyed: Tables)
    requires keyed.Keys == BASE_TABLES
    ensures var indexed := Indexed(keyed, WorkMemories, {COMMITTED_INDEX});
            && indexed.Keys == BASE_TABLES
            && indexed[WorkMemories] == WithIndexes(keyed[WorkMemories], {COMMITTED_INDEX})
            && forall n :: n in BASE_TABLES && n != WorkMemories ==> indexed[n] == keyed[n]
  {
    hide WithIndexes;
  }

  lemma ConversationsRowless(keyed: Tables, wide: Table)
    requires InCompositeKeySchema(keyed) && Rowless(wide) == Rowless(WidenedConversations(keyed[Conversations]))
    ensures Rowless(wide) == Rowless(WidenedConversations(CompositeKeyTable(Conversations, map[])))
  {
    var t, t' := keyed[Conversations], CompositeKeyTable(Conversations, map[]);
    CompositeRowless(keyed, Conversations);
    hide InCompositeKeySchema, WidenedConversations, CompositeKeyTable;
    WidenedIsRowless(t, t');
  }

  // What a base table has become when ownership is reached.
  lemma ConversationsOwned(keyed: Tables)
    requires InCompositeKeySchema(keyed)
    ensures var wide := Widened(Indexed(keyed, WorkMemories, {COMMITTED_INDEX}));
            Conversations in wide && AsMigrated(Conversations, ScopedTable(Conversations, wide[Conversations]))
  {
    var indexed := Indexed(keyed, WorkMemories, {COMMITTED_INDEX});
    assert keyed.Keys == BASE_TABLES;
    hide *;
    IndexedTables(keyed);
    WidenedTables(indexed);
    ConversationsRowless(keyed, Widened(indexed)[Conversations]);
    ConversationsMigrated(Widened(indexed)[Conversations]);
  }

  // What the revisions after the composite keys make of a table other than the conversations.
  function WidenedBase(n: TableName, t: Table): Table {
    match n
    case WorkMemories => WidenedMemories(WithIndexes(t, {COMMITTED_INDEX}))
    case ResultSnapshots => WidenedSnapshots(t)
    case ReportArtifacts => WidenedArtifacts(t)
    case _ => t
  }

  lemma WidenedBaseIs(keyed: Tables, n: TableName)
    requires keyed.Keys == BASE_TABLES && n in BASE_TABLES && n != Conversations
    ensures var wide := Widened(Indexed(keyed, WorkMemories, {COMMITTED_INDEX}));
            n in wide && wide[n] == WidenedBase(n, keyed[n])
  {
    hide WidenedMemories, WidenedSnapshots, WidenedArtifacts, Widened, Indexed, WithIndexes;
    IndexedTables(keyed);
    WidenedTables(Indexed(keyed, WorkMemories, {COMMITTED_INDEX}));
  }

  lemma WidenedBaseMigrated(n: TableName, t: Table)
    requires n in BASE_TABLES && n != Conversations && Rowless(t) == Rowless(CompositeKeyTable(n, map[]))
    ensures AsMigrated(n, ScopedTable(n, WidenedBase(n, t)))
  {
    hide AsMigrated, ScopedTable, CompositeKeyTable, Rowless, WidenedMemories, WidenedSnapshots, WidenedArtifacts;
    match n
    case WorkMemories => MemoriesMigrated(t);
    case PendingClarifications => ClarificationsMigrated(t);
    case ResultSnapshots => SnapshotsMigrated(t);
    case ReportArtifacts => ArtifactsMigrated(t);
  }

  lemma ChildIsMigrated(keyed: Tables, n: TableName)
    requires InCompositeKeySchema(keyed) && n in BASE_TABLES && n != Conversations
    ensures var wide := Widened(Indexed(keyed, WorkMemories, {COMMITTED_INDEX}));
            n in wide && AsMigrated(n, ScopedTable(n, wide[n]))
  {
    assert keyed.Keys == BASE_TABLES;
    hide *;
    CompositeRowless(keyed, n);
    WidenedBaseIs(keyed, n);
    WidenedBaseMigrated(n, keyed[n]);
  }

  lemma BaseIsMigrated(keyed: Tables, n: TableName)
    requires InCompositeKeySchema(keyed) && n in BASE_TABLES
    ensures var wide := Widened(Indexed(keyed, WorkMemories, {COMMITTED_INDEX}));
            n in wide && AsMigrated(n, ScopedTable(n, wide[n]))
  {
    assert keyed.Keys == BASE_TABLES;
    hide *;
    if n == Conversations {
      ConversationsOwned(keyed);
    } else {
      ChildIsMigrated(keyed, n);
    }
  }

  lemma AddedIsMigrated(keyed: Tables, n: TableName)
    requires keyed.Keys == BASE_TABLES && n !in BASE_TABLES && n != ResourceOwners
    ensures var wide := Widened(Indexed(keyed, WorkMemories, {COMMITTED_INDEX}));
            n in wide && AsMigrated(n, ScopedTable(n, wide[n]))
  {
    var indexed := Indexed(keyed, WorkMemories, {COMMITTED_INDEX});
    PresentationsRowless(indexed[ReportArtifacts].rows);
    hide *;
    IndexedTables(keyed);
    WidenedTables(indexed);
    IntentsMigrated();
    if n == ReportPresentations {
      PresentationsMigrated(PresentationsTable(indexed[ReportArtifacts].rows));
    }
  }

  lemma PresentationsRowless(artifacts: Rows)
    ensures Rowless(PresentationsTable(artifacts)) == Rowless(PresentationsTable(map[]))
  {
    hide PresentationOf;
  }

  // The whole database in its migrated form.
  predicate InMigratedSchema(db: Tables) {
    && (forall n: TableName :: n in db)
    && forall n :: n in db ==> AsMigrated(n, db[n])
  }

  lemma ScopedIn(db: Tables, n: TableName)
    requires n == ResourceOwners || n in db
    ensures n in Scoped(db)
    ensures Scoped(db)[n] == if n == ResourceOwners then OWNERS_TABLE else ScopedTable(n, db[n])
  {
  }

  // What the chain computes, in one expression.
  lemma ChainIs(db: Tables)
    requires InSingleKeySchema(db) && AllLocallyValid(db) && Chain(db).Some?
    ensures InCompositeKeySchema(Rekeyed(db))
    ensures Chain(db).value == Scoped(Widened(Indexed(Rekeyed(db), WorkMemories, {COMMITTED_INDEX})))
  {
    UpgradeKeepsRows(db);
    hide InSingleKeySchema, AllLocallyValid, CompositeUpgrade, ChainFrom, Rekeyed, Widened, Scoped, Indexed;
    ChainEndsIn(Rekeyed(db));
  }

  lemma MigratedTable(keyed: Tables, n: TableName)
    requires InCompositeKeySchema(keyed) && keyed.Keys == BASE_TABLES
    ensures var wide := Widened(Indexed(keyed, WorkMemories, {COMMITTED_INDEX}));
            n in Scoped(wide) && AsMigrated(n, Scoped(wide)[n])
  {
    assert WorkMemories in keyed;
    hide *;
    IndexedTables(keyed);
    var wide := Widened(Indexed(keyed, WorkMemories, {COMMITTED_INDEX}));
    if n in BASE_TABLES {
      BaseIsMigrated(keyed, n);
    } else if n != ResourceOwners {
      AddedIsMigrated(keyed, n);
    }
    OwnersMigrated();
    ScopedIn(wide, n);
  }

  lemma AllMigrated(after: Tables)
    requires forall n: TableName :: n in after && AsMigrated(n, after[n])
    ensures InMigratedSchema(after)
  {
    hide AsMigrated;
  }

  lemma MigratedTables(keyed: Tables)
    requires InCompositeKeySchema(keyed) && keyed.Keys == BASE_TABLES && WorkMemories in keyed
    ensures BASE_TABLES <= Indexed(keyed, WorkMemories, {COMMITTED_INDEX}).Keys
    ensures InMigratedSchema(Scoped(Widened(Indexed(keyed, WorkMemories, {COMMITTED_INDEX}))))
  {
    hide *;
    IndexedTables(keyed);
    var after := Scoped(Widened(Indexed(keyed, WorkMemories, {COMMITTED_INDEX})));
    forall n: TableName ensures n in after && AsMigrated(n, after[n]) {
      MigratedTable(keyed, n);
    }
    AllMigrated(after);
  }

  /** The database that the chain of revisions leaves behind is the one the ORM models declare:
      the same tables with the same columns, NOT NULLs, primary keys, uniques, indexes, foreign
      keys and CHECK. Only the column order of the conversations' primary key and the owner
      column in front of the single-column indexes differ. */
  lemma ChainEndsInDeclaredSchema(db: Tables)
    requires InSingleKeySchema(db) && AllLocallyValid(db) && Chain(db).Some?
    ensures InMigratedSchema(Chain(db).value)
    ensures Chain(db).value[ResourceOwners].rows ==
              map[0 := map[OwnerId := Text("local:legacy"), IdentityMode := Text("LOCAL_DEV"),
                           TenantId := Text("local"), PrincipalId := Text("legacy")]]
  {
    SingleKeyTables(db);
    ChainIs(db);
    assert WorkMemories in Rekeyed(db);
    MigratedTables(Rekeyed(db));
    var wide := Widened(Indexed(Rekeyed(db), WorkMemories, {COMMITTED_INDEX}));
    hide *;
    ScopedIn(wide, ResourceOwners);
  }

  lemma WidenedConversationDefaults(t: Table, i: int)
    requires i in t.rows
    ensures var rows := WidenedConversations(t).rows;
            i in rows && At(rows[i], ResourceStatus) == Text("ready") && At(rows[i], LastErrorType) == Null
  {
    var archived := WithIndexes(WithColumn(t, ArchivedAt, Null, false), {RECENT});
    var titled := WithIndexes(WithColumn(archived, Title, Null, false), {});
    assert i in archived.rows && i in titled.rows;
    hide WithColumn, WithIndexes;
    FailureColumnDefaults(titled, i);
  }

  lemma ScopedRowOf(db: Tables, n: TableName, i: int)
    requires n in db && n != ResourceOwners && i in db[n].rows
    ensures n in Scoped(db) && i in Scoped(db)[n].rows && Scoped(db)[n].rows[i] == ScopedRow(db[n].rows[i])
  {
  }

  lemma WidenedBackfills(db: Tables, i: int)
    requires db.Keys == BASE_TABLES && i in db[Conversations].rows
    ensures Conversations in Widened(db) && i in Widened(db)[Conversations].rows
    ensures Backfilled(db[ResultSnapshots].rows, Widened(db)[Conversations].rows[i])
  {
    WidenedTables(db);
    assert Conversations in BASE_TABLES;
    hide Widened, WidenedConversations, Backfilled, MarkedConversation;
    WidenedConversationDefaults(db[Conversations], i);
    MarkedIsBackfilled(db[ResultSnapshots].rows, WidenedConversations(db[Conversations]).rows[i]);
  }

  lemma IndexedRows(db: Tables)
    requires InSingleKeySchema(db) && AllLocallyValid(db)
    ensures db.Keys == BASE_TABLES == Rekeyed(db).Keys && ReportArtifacts in db
    ensures var indexed := Indexed(Rekeyed(db), WorkMemories, {COMMITTED_INDEX});
            && indexed.Keys == BASE_TABLES
            && indexed[Conversations].rows == db[Conversations].rows
            && indexed[ReportArtifacts].rows == db[ReportArtifacts].rows
            && indexed[ResultSnapshots].rows == db[ResultSnapshots].rows
  {
    SingleKeyTables(db);
    hide Rekeyed, AllLocallyValid, InSingleKeySchema, Indexed;
    UpgradeKeepsRows(db);
    IndexedKeepsRows(Rekeyed(db));
  }

  lemma SingleKeyTables(db: Tables)
    requires InSingleKeySchema(db)
    ensures db.Keys == BASE_TABLES == Rekeyed(db).Keys
    ensures Conversations in db && ReportArtifacts in db && ResultSnapshots in db
  {
    hide SingleKeyTable, CompositeKeyTable;
  }

  lemma IndexedKeepsRows(keyed: Tables)
    requires keyed.Keys == BASE_TABLES
    ensures Indexed(keyed, WorkMemories, {COMMITTED_INDEX}).Keys == BASE_TABLES
    ensures forall n :: n in keyed ==> Indexed(keyed, WorkMemories, {COMMITTED_INDEX})[n].rows == keyed[n].rows
  {
  }

  /** And its conversations say of themselves whether and how they failed last. */
  lemma ChainBackfills(db: Tables, i: int)
    requires InSingleKeySchema(db) && AllLocallyValid(db) && Chain(db).Some?
    requires Conversations in db && ResultSnapshots in db && i in db[Conversations].rows
    ensures Conversations in Chain(db).value && i in Chain(db).value[Conversations].rows
    ensures Backfilled(db[ResultSnapshots].rows, Chain(db).value[Conversations].rows[i])
  {
    var indexed := Indexed(Rekeyed(db), WorkMemories, {COMMITTED_INDEX});
    hide *;
    ChainIs(db);
    IndexedRows(db);
    WidenedBackfills(indexed, i);
    ScopedRowOf(Widened(indexed), Conversations, i);
    BackfilledByOwner(indexed[ResultSnapshots].rows, Widened(indexed)[Conversations].rows[i]);
  }

  lemma PresentedRow(artifact: Row)
    ensures FreshPresentation(artifact, ScopedRow(PresentationOf(artifact)[ArchivedAt := Null]))
  {
  }

  lemma WidenedPresentationRow(artifacts: Rows, i: int)
    requires i in artifacts
    ensures var rows := ScopedRows(WidenedPresentations(PresentationsTable(artifacts)).rows);
            i in rows && rows[i] == ScopedRow(PresentationOf(artifacts[i])[ArchivedAt := Null])
  {
  }

  lemma PresentedOwned(artifacts: Rows)
    ensures AllPresented(artifacts, ScopedRows(WidenedPresentations(PresentationsTable(artifacts)).rows))
  {
    var rows := ScopedRows(WidenedPresentations(PresentationsTable(artifacts)).rows);
    assert rows.Keys == artifacts.Keys;
    hide *;
    forall i | i in artifacts ensures FreshPresentation(artifacts[i], rows[i]) {
      WidenedPresentationRow(artifacts, i);
      PresentedRow(artifacts[i]);
    }
    PresentedByHandle(artifacts, rows);
  }

  lemma WidenedPresents(db: Tables)
    requires db.Keys == BASE_TABLES && ReportArtifacts in db
    ensures ReportPresentations in Widened(db)
    ensures AllPresented(db[ReportArtifacts].rows, ScopedRows(Widened(db)[ReportPresentations].rows))
  {
    WidenedTables(db);
    hide *;
    PresentedOwned(db[ReportArtifacts].rows);
  }

  lemma ScopedRowsOf(db: Tables, n: TableName)
    requires n in db && n != ResourceOwners
    ensures n in Scoped(db) && Scoped(db)[n].rows == ScopedRows(db[n].rows)
  {
  }

  /** And its reports have one presentation each. */
  lemma ChainPresents(db: Tables)
    requires InSingleKeySchema(db) && AllLocallyValid(db) && Chain(db).Some?
    ensures ReportArtifacts in db && ReportPresentations in Chain(db).value
    ensures AllPresented(db[ReportArtifacts].rows, Chain(db).value[ReportPresentations].rows)
  {
    var indexed := Indexed(Rekeyed(db), WorkMemories, {COMMITTED_INDEX});
    hide *;
    ChainIs(db);
    IndexedRows(db);
    WidenedPresents(indexed);
    ScopedRowsOf(Widened(indexed), ReportPresentations);
  }

  // ----- what the keys of the migrated tables allow -----

  // Tables whose primary key is an autoincrement number.
  const NUMBERED_TABLES: set<TableName> := {WorkMemories, PendingClarifications, ResultSnapshots}

  lemma MigratedUniqueIndexes(n: TableName, x: Index)
    requires x in Migrated(n).indexes && x.unique
    ensures n == WorkMemories && Key(x.columns, x.filter) == DECLARED_COMMITTED
  {
    var y :| y in Declared(n).indexes && x == MigratedIndex(y);
  }

  /** Every key of an owned table starts with the owner, but for the numbers of the three tables
      that count their rows. */
  lemma KeysStartWithOwner(n: TableName, t: Table, k: Key)
    requires AsMigrated(n, t) && n != ResourceOwners && HasKey(t, k)
    ensures [OwnerId] <= k.columns || (k == Key([Id], Everything) && n in NUMBERED_TABLES)
  {
    if Index(k.columns, true, k.filter) in t.indexes {
      MigratedUniqueIndexes(n, Index(k.columns, true, k.filter));
    }
  }

  /** So rows of two owners never stand in each other's way: whatever their other columns hold,
      no key is violated, as long as their row numbers differ. */
  lemma OwnersNeverCollide(n: TableName, t: Table, r: Row, r': Row)
    requires AsMigrated(n, t) && n != ResourceOwners && At(r, OwnerId) != At(r', OwnerId)
    requires n in NUMBERED_TABLES ==> At(r, Id) != At(r', Id)
    ensures KeysHold(t.(rows := map[0 := r, 1 := r']))
  {
    var both := t.(rows := map[0 := r, 1 := r']);
    hide AsMigrated, HasKey, KeysHold, Unique;
    forall k | HasKey(both, k) ensures Unique(both.rows, k) {
      SameTableOtherRows(n, t, both);
      KeysStartWithOwner(n, both, k);
      TwoRowsApart(r, r', k);
    }
    KeysHoldMeans(both);
  }

  lemma SameTableOtherRows(n: TableName, t: Table, t': Table)
    requires AsMigrated(n, t) && t' == t.(rows := t'.rows)
    ensures AsMigrated(n, t')
  {
  }

  lemma TwoRowsApart(r: Row, r': Row, k: Key)
    requires k.columns != [] && At(r, k.columns[0]) != At(r', k.columns[0])
    ensures Unique(map[0 := r, 1 := r'], k)
  {
    assert Project(r, k.columns)[0] != Project(r', k.columns)[0];
  }

  /** The committed-version index is there, unique, for committed rows only, within an owner. */
  lemma CommittedVersionsKeyed(t: Table, k: Key)
    requires AsMigrated(WorkMemories, t)
    ensures HasKey(t, DECLARED_COMMITTED)
    ensures HasKey(t, k) && k.filter != Everything ==> k == DECLARED_COMMITTED
  {
    var committed := Index(DECLARED_COMMITTED.columns, true, DECLARED_COMMITTED.filter);
    assert committed in DeclaredMemories().indexes && MigratedIndex(committed) == committed;
    if HasKey(t, k) && k.filter != Everything {
      MigratedUniqueIndexes(WorkMemories, Index(k.columns, true, k.filter));
    }
  }
}
