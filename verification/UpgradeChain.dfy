/**
 When the chain of revisions succeeds, and what it leaves behind.
 */
module UpgradeChain {
  import opened Options
  import opened Relational
  import opened Ownership
  import opened Schemas
  import opened Revisions

  predicate Within(columns: seq<Column>, all: set<Column>) {
    forall c :: c in columns ==> c in all
  }

  // Every constraint of the table mentions the table's own columns only.
  predicate ClosedTable(t: Table) {
    && t.required <= t.columns
    && Within(t.primary, t.columns)
    && (forall u :: u in t.uniques ==> Within(u, t.columns))
    && (forall x :: x in t.indexes ==>
         Within(x.columns, t.columns) && (x.filter.Where? ==> x.filter.column in t.columns))
    && (forall f :: f in t.foreigns ==> Within(f.columns, t.columns))
  }

  predicate ClosedForeign(db: Tables, f: Foreign) {
    f.parent in db && Within(f.parentColumns, db[f.parent].columns)
  }

  // A database before ownership whose constraints are closed.
  predicate Closed(db: Tables) {
    && ResourceOwners !in db
    && (forall n :: n in db ==> ClosedTable(db[n]) && OwnerId !in db[n].columns && db[n].check == NoCheck)
    && (forall n, f :: n in db && f in db[n].foreigns ==> ClosedForeign(db, f))
  }

  lemma ClosedIsPreOwnership(db: Tables)
    requires Closed(db)
    ensures PreOwnership(db)
  {
    forall n, f | n in db && f in db[n].foreigns ensures OwnerId !in f.parentColumns && f.parent in db {
      assert ClosedForeign(db, f);
    }
    forall n | n in db ensures OwnerFree(db[n]) {
      assert ClosedTable(db[n]);
    }
  }

  // The same rows under the same constraints, with room for more columns.
  predicate WidenedTable(t: Table, t': Table) {
    && t.columns <= t'.columns && t.required <= t'.required
    && t'.primary == t.primary && t'.uniques == t.uniques && t'.foreigns == t.foreigns && t'.check == t.check
    && (forall x :: x in t.indexes && x.unique ==> x in t'.indexes)
    && (forall x :: x in t'.indexes && x.unique ==> x in t.indexes)
    && SameValues(t.rows, t'.rows, t.columns)
  }

  predicate SameValues(rows: Rows, rows': Rows, columns: set<Column>) {
    rows'.Keys == rows.Keys && forall i, c :: i in rows && c in columns ==> At(rows'[i], c) == At(rows[i], c)
  }

  predicate Widens(db: Tables, db': Tables) {
    && (forall n :: n in db ==> n in db' && WidenedTable(db[n], db'[n]))
    && (forall n :: n in db' && n !in db ==> db'[n].foreigns == {})
  }

  predicate Progress(db: Tables, db': Tables) {
    Widens(db, db') && Closed(db') && (AllLocallyValid(db) ==> AllLocallyValid(db'))
  }

  lemma WidenedTableTransitive(t: Table, t': Table, t'': Table)
    requires WidenedTable(t, t') && WidenedTable(t', t'')
    ensures WidenedTable(t, t'')
  {
  }

  lemma ProgressTransitive(db: Tables, db': Tables, db'': Tables)
    requires Progress(db, db') && Progress(db', db'')
    ensures Progress(db, db'')
  {
    forall n | n in db ensures n in db'' && WidenedTable(db[n], db''[n]) {
      WidenedTableTransitive(db[n], db'[n], db''[n]);
    }
  }

  lemma SameProjection(r: Row, r': Row, columns: seq<Column>, all: set<Column>)
    requires Within(columns, all) && forall c :: c in all ==> At(r', c) == At(r, c)
    ensures Project(r', columns) == Project(r, columns)
  {
  }

  lemma SameUnique(rows: Rows, rows': Rows, k: Key, all: set<Column>)
    requires SameValues(rows, rows', all)
    requires Within(k.columns, all) && (k.filter.Where? ==> k.filter.column in all)
    ensures Unique(rows', k) <==> Unique(rows, k)
  {
    forall i | i in rows
      ensures Project(rows'[i], k.columns) == Project(rows[i], k.columns)
      ensures Covers(k, rows'[i]) <==> Covers(k, rows[i])
    {
      SameProjection(rows[i], rows'[i], k.columns, all);
    }
  }

  lemma WidenedKeys(t: Table, t': Table)
    requires ClosedTable(t) && WidenedTable(t, t')
    ensures KeysHold(t') <==> KeysHold(t)
  {
    SameUnique(t.rows, t'.rows, Key(t.primary, Everything), t.columns);
    forall u | u in t.uniques ensures Unique(t'.rows, Key(u, Everything)) <==> Unique(t.rows, Key(u, Everything)) {
      SameUnique(t.rows, t'.rows, Key(u, Everything), t.columns);
    }
    forall x | x in t.indexes
      ensures Unique(t'.rows, Key(x.columns, x.filter)) <==> Unique(t.rows, Key(x.columns, x.filter))
    {
      SameUnique(t.rows, t'.rows, Key(x.columns, x.filter), t.columns);
    }
  }

  lemma SameRefers(rows: Rows, rows': Rows, parents: Rows, parents': Rows, f: Foreign,
                   all: set<Column>, parentAll: set<Column>)
    requires SameValues(rows, rows', all) && SameValues(parents, parents', parentAll)
    requires Within(f.columns, all) && Within(f.parentColumns, parentAll)
    ensures Refers(rows', f.columns, parents', f.parentColumns) <==> Refers(rows, f.columns, parents, f.parentColumns)
  {
    forall i | i in rows ensures Project(rows'[i], f.columns) == Project(rows[i], f.columns) {
      SameProjection(rows[i], rows'[i], f.columns, all);
    }
    forall j | j in parents ensures Project(parents'[j], f.parentColumns) == Project(parents[j], f.parentColumns) {
      SameProjection(parents[j], parents'[j], f.parentColumns, parentAll);
    }
  }

  lemma WidenedForeigns(db: Tables, db': Tables)
    requires Closed(db) && Widens(db, db')
    ensures ForeignsHold(db') <==> ForeignsHold(db)
  {
    forall n, f | n in db && f in db[n].foreigns
      ensures ForeignHolds(db', n, f) <==> ForeignHolds(db, n, f)
    {
      assert ClosedTable(db[n]) && ClosedForeign(db, f);
      assert WidenedTable(db[n], db'[n]) && WidenedTable(db[f.parent], db'[f.parent]);
      SameRefers(db[n].rows, db'[n].rows, db[f.parent].rows, db'[f.parent].rows, f,
                 db[n].columns, db[f.parent].columns);
    }
    forall n | n in db' ensures n in db || db'[n].foreigns == {} {
    }
    forall n | n in db ensures db'[n].foreigns == db[n].foreigns {
      assert WidenedTable(db[n], db'[n]);
    }
  }

  // ----- steps -----

  lemma TableReplaced(db: Tables, n: TableName, t: Table)
    requires Closed(db) && n in db
    requires WidenedTable(db[n], t) && ClosedTable(t) && OwnerId !in t.columns
    requires LocallyValid(db[n]) ==> LocallyValid(t)
    ensures Progress(db, db[n := t])
  {
    var db' := db[n := t];
    forall m | m in db ensures WidenedTable(db[m], db'[m]) {
    }
    forall m, f | m in db' && f in db'[m].foreigns ensures ClosedForeign(db', f) {
      assert f in db[m].foreigns && ClosedForeign(db, f);
    }
  }

  lemma TableAdded(db: Tables, n: TableName, t: Table)
    requires Closed(db) && n !in db && n != ResourceOwners
    requires t.foreigns == {} && t.check == NoCheck && ClosedTable(t) && OwnerId !in t.columns
    requires AllLocallyValid(db) ==> LocallyValid(t)
    ensures Progress(db, db[n := t])
  {
    var db' := db[n := t];
    forall m, f | m in db' && f in db'[m].foreigns ensures ClosedForeign(db', f) {
      assert m in db && f in db[m].foreigns && ClosedForeign(db, f);
    }
  }

  lemma ColumnAdded(t: Table, c: Column, default: Value, required: bool)
    requires ClosedTable(t) && c !in t.columns && t.check == NoCheck && (required ==> default != Null)
    ensures WidenedTable(t, WithColumn(t, c, default, required))
    ensures ClosedTable(WithColumn(t, c, default, required))
    ensures LocallyValid(t) ==> LocallyValid(WithColumn(t, c, default, required))
  {
    var t' := WithColumn(t, c, default, required);
    assert SameValues(t.rows, t'.rows, t.columns);
    WidenedKeys(t, t');
    if Typed(t) {
      forall i | i in t'.rows ensures TypedRow(t'.rows[i], t'.columns, t'.required, t'.check) {
        assert TypedRow(t.rows[i], t.columns, t.required, t.check);
        assert t'.rows[i] == t.rows[i][c := default];
      }
    }
  }

  lemma IndexesAdded(t: Table, xs: set<Index>)
    requires ClosedTable(t)
    requires forall x :: x in xs ==> !x.unique && Within(x.columns, t.columns) && x.filter == Everything
    ensures WidenedTable(t, WithIndexes(t, xs))
    ensures ClosedTable(WithIndexes(t, xs))
    ensures LocallyValid(t) ==> LocallyValid(WithIndexes(t, xs))
  {
  }

  lemma ColumnAndIndexesAdded(t: Table, c: Column, xs: set<Index>)
    requires ClosedTable(t) && c !in t.columns && t.check == NoCheck
    requires forall x :: x in xs ==> !x.unique && Within(x.columns, t.columns + {c}) && x.filter == Everything
    ensures WidenedTable(t, WithIndexes(WithColumn(t, c, Null, false), xs))
    ensures ClosedTable(WithIndexes(WithColumn(t, c, Null, false), xs))
    ensures LocallyValid(t) ==> LocallyValid(WithIndexes(WithColumn(t, c, Null, false), xs))
  {
    ColumnAdded(t, c, Null, false);
    var wide := WithColumn(t, c, Null, false);
    IndexesAdded(wide, xs);
    WidenedTableTransitive(t, wide, WithIndexes(wide, xs));
  }

  lemma IndexesStep(db: Tables, n: TableName, xs: set<Index>)
    requires Closed(db) && n in db
    requires forall x :: x in xs ==> !x.unique && Within(x.columns, db[n].columns) && x.filter == Everything
    ensures Progress(db, Indexed(db, n, xs))
  {
    IndexesAdded(db[n], xs);
    TableReplaced(db, n, WithIndexes(db[n], xs));
  }

  lemma ColumnStep(db: Tables, n: TableName, c: Column, xs: set<Index>)
    requires Closed(db) && n in db && c !in db[n].columns && c != OwnerId
    requires forall x :: x in xs ==> !x.unique && Within(x.columns, db[n].columns + {c}) && x.filter == Everything
    ensures Progress(db, Extended(db, n, c, xs))
  {
    ColumnAndIndexesAdded(db[n], c, xs);
    TableReplaced(db, n, WithIndexes(WithColumn(db[n], c, Null, false), xs));
  }

  // ----- the revisions -----

  // The columns the later revisions count on.
  predicate BaseColumns(db: Tables) {
    && BASE_TABLES <= db.Keys
    && CONVERSATION_COLUMNS <= db[Conversations].columns
    && MEMORY_COLUMNS <= db[WorkMemories].columns
    && SNAPSHOT_COLUMNS <= db[ResultSnapshots].columns
    && ARTIFACT_COLUMNS <= db[ReportArtifacts].columns
    && ARTIFACT_REQUIRED <= db[ReportArtifacts].required
    && db[ReportArtifacts].primary == [ReportId]
  }

  lemma BaseColumnsKept(db: Tables, db': Tables)
    requires BaseColumns(db) && Progress(db, db')
    ensures BaseColumns(db') && Closed(db') && db.Keys <= db'.Keys
  {
    assert WidenedTable(db[Conversations], db'[Conversations]);
    assert WidenedTable(db[WorkMemories], db'[WorkMemories]);
    assert WidenedTable(db[ResultSnapshots], db'[ResultSnapshots]);
    assert WidenedTable(db[ReportArtifacts], db'[ReportArtifacts]);
  }

  lemma SnapshotIndexProgress(db: Tables)
    requires Closed(db) && BaseColumns(db)
    ensures Progress(db, Indexed(db, ResultSnapshots, {Plain([RuntimeMode, ConversationId, CreatedAt, Id])}))
  {
    IndexesStep(db, ResultSnapshots, {Plain([RuntimeMode, ConversationId, CreatedAt, Id])});
  }

  lemma ConversationArtifactsProgress(db: Tables)
    requires Closed(db) && BaseColumns(db)
    ensures Progress(db, Indexed(db, ReportArtifacts, {Plain([SourceMode, ConversationId, CreatedAt, ReportId])}))
  {
    IndexesStep(db, ReportArtifacts, {Plain([SourceMode, ConversationId, CreatedAt, ReportId])});
  }

  lemma ArchiveIndexesProgress(db: Tables)
    requires Closed(db) && BaseColumns(db)
    ensures Progress(db, ArchiveIndexes(db))
  {
    SnapshotIndexProgress(db);
    var a := Indexed(db, ResultSnapshots, {Plain([RuntimeMode, ConversationId, CreatedAt, Id])});
    hide Indexed, Progress, Closed;
    BaseColumnsKept(db, a);
    ConversationArtifactsProgress(a);
    ProgressTransitive(db, a, ArchiveIndexes(db));
  }

  lemma MemoryIndexProgress(db: Tables)
    requires Closed(db) && BaseColumns(db)
    ensures Progress(db, Indexed(db, WorkMemories, {Plain([RuntimeMode, ConversationId, StateStatus, CreatedAt])}))
  {
    IndexesStep(db, WorkMemories, {Plain([RuntimeMode, ConversationId, StateStatus, CreatedAt])});
  }

  lemma ArchiveColumnProgress(db: Tables)
    requires Closed(db) && BaseColumns(db) && ArchivedAt !in db[Conversations].columns
    ensures Progress(db, Extended(db, Conversations, ArchivedAt, {RECENT}))
  {
    ColumnStep(db, Conversations, ArchivedAt, {RECENT});
  }

  lemma ArchiveProgress(db: Tables)
    requires Closed(db) && BaseColumns(db) && ArchivedAt !in db[Conversations].columns
    ensures Progress(db, ArchiveUpgrade(db))
  {
    ArchiveColumnProgress(db);
    var a := Extended(db, Conversations, ArchivedAt, {RECENT});
    BaseColumnsKept(db, a);
    ArchiveRestProgress(a);
    ProgressTransitive(db, a, ArchiveUpgrade(db));
  }

  lemma ArchiveRestProgress(db: Tables)
    requires Closed(db) && BaseColumns(db)
    ensures var a := Indexed(db, WorkMemories, {Plain([RuntimeMode, ConversationId, StateStatus, CreatedAt])});
            Progress(db, ArchiveIndexes(a))
  {
    MemoryIndexProgress(db);
    var a := Indexed(db, WorkMemories, {Plain([RuntimeMode, ConversationId, StateStatus, CreatedAt])});
    BaseColumnsKept(db, a);
    ArchiveIndexesProgress(a);
    ProgressTransitive(db, a, ArchiveIndexes(a));
  }

  lemma IntentsProgress(db: Tables)
    requires Closed(db) && ConversationDeleteIntents !in db
    ensures Progress(db, ConversationIntentsUpgrade(db))
  {
    TableAdded(db, ConversationDeleteIntents, CONVERSATION_INTENTS);
  }

  lemma TitleProgress(db: Tables)
    requires Closed(db) && Conversations in db && Title !in db[Conversations].columns
    ensures Progress(db, TitleUpgrade(db))
  {
    ColumnStep(db, Conversations, Title, {});
  }

  lemma ReportIntentsProgress(db: Tables)
    requires Closed(db) && ReportDeleteIntents !in db
    ensures Progress(db, ReportIntentsUpgrade(db))
  {
    TableAdded(db, ReportDeleteIntents, REPORT_INTENTS);
  }

  lemma PresentationTyped(artifact: Row)
    requires forall c :: c in ARTIFACT_REQUIRED ==> At(artifact, c) != Null
    ensures TypedRow(PresentationOf(artifact), PRESENTATION_COLUMNS,
                     PRESENTATION_COLUMNS - {ConversationId, RequestId, DeletedAt}, NoCheck)
  {
    assert PresentationOf(artifact).Keys == PRESENTATION_COLUMNS;
  }

  lemma PresentationsUnique(artifacts: Rows)
    requires Unique(artifacts, Key([ReportId], Everything))
    ensures Unique(PresentationsTable(artifacts).rows, Key([ReportId], Everything))
  {
    forall i | i in artifacts
      ensures Project(PresentationOf(artifacts[i]), [ReportId]) == Project(artifacts[i], [ReportId])
    {
    }
  }

  lemma PresentationsValid(artifacts: Table)
    requires LocallyValid(artifacts) && ARTIFACT_REQUIRED <= artifacts.required && artifacts.primary == [ReportId]
    ensures LocallyValid(PresentationsTable(artifacts.rows))
  {
    var t := PresentationsTable(artifacts.rows);
    forall i | i in artifacts.rows ensures TypedRow(t.rows[i], t.columns, t.required, t.check) {
      assert TypedRow(artifacts.rows[i], artifacts.columns, artifacts.required, artifacts.check);
      PresentationTyped(artifacts.rows[i]);
    }
    PresentationsUnique(artifacts.rows);
  }

  lemma PresentationsProgress(db: Tables)
    requires Closed(db) && BaseColumns(db) && ReportPresentations !in db
    ensures Progress(db, PresentationsUpgrade(db))
  {
    var t := PresentationsTable(db[ReportArtifacts].rows);
    assert ClosedTable(t);
    if AllLocallyValid(db) {
      PresentationsValid(db[ReportArtifacts]);
    }
    hide Progress, Closed, BaseColumns, ClosedTable, LocallyValid, PresentationOf;
    TableAdded(db, ReportPresentations, t);
  }

  lemma ArtifactIndexProgress(db: Tables)
    requires Closed(db) && BaseColumns(db)
    ensures Progress(db, Indexed(db, ReportArtifacts, {Plain([SourceMode, CreatedAt, ReportId])}))
  {
    IndexesStep(db, ReportArtifacts, {Plain([SourceMode, CreatedAt, ReportId])});
  }

  lemma PresentationColumnProgress(db: Tables)
    requires Closed(db) && ReportPresentations in db && db[ReportPresentations].columns == PRESENTATION_COLUMNS
    ensures var xs := {Plain([SourceMode, ArchivedAt, UpdatedAt, ReportId])};
            Progress(db, Extended(db, ReportPresentations, ArchivedAt, xs))
  {
    ColumnStep(db, ReportPresentations, ArchivedAt, {Plain([SourceMode, ArchivedAt, UpdatedAt, ReportId])});
  }

  lemma PaginationProgress(db: Tables)
    requires Closed(db) && BaseColumns(db) && ReportPresentations in db
    requires db[ReportPresentations].columns == PRESENTATION_COLUMNS
    ensures Progress(db, PaginationUpgrade(db))
  {
    PresentationColumnProgress(db);
    var a := Extended(db, ReportPresentations, ArchivedAt, {Plain([SourceMode, ArchivedAt, UpdatedAt, ReportId])});
    BaseColumnsKept(db, a);
    ArtifactIndexProgress(a);
    ProgressTransitive(db, a, PaginationUpgrade(db));
  }

  lemma FailureColumnsAdded(t: Table)
    requires ClosedTable(t) && t.check == NoCheck && ResourceStatus !in t.columns && LastErrorType !in t.columns
    requires Within(RECENT_WITH_CREATION.columns, t.columns)
    ensures WidenedTable(t, WithFailureColumns(t)) && ClosedTable(WithFailureColumns(t))
    ensures LocallyValid(t) ==> LocallyValid(WithFailureColumns(t))
  {
    ColumnAdded(t, ResourceStatus, Text("ready"), true);
    var a := WithColumn(t, ResourceStatus, Text("ready"), true);
    ColumnAdded(a, LastErrorType, Null, false);
    var b := WithColumn(a, LastErrorType, Null, false);
    WidenedTableTransitive(t, a, b);
  }

  lemma MarkedRowTyped(snapshots: Rows, r: Row, columns: set<Column>, required: set<Column>)
    requires TypedRow(r, columns, required, NoCheck) && ResourceStatus in columns && LastErrorType in columns
    requires LastErrorType !in required
    ensures TypedRow(MarkedConversation(snapshots, r), columns, required, NoCheck)
  {
    var marked := MarkedConversation(snapshots, r);
    assert marked.Keys == columns;
    forall c | c in required ensures At(marked, c) != Null {
      assert At(r, c) != Null;
    }
  }

  lemma MarkedSameValues(snapshots: Rows, rows: Rows, columns: set<Column>)
    requires ResourceStatus !in columns && LastErrorType !in columns
    ensures SameValues(rows, MarkedRows(snapshots, rows), columns)
  {
  }

  lemma FailureProgress(db: Tables)
    requires Closed(db) && BaseColumns(db) && ArchivedAt in db[Conversations].columns
    requires ResourceStatus !in db[Conversations].columns && LastErrorType !in db[Conversations].columns
    ensures Progress(db, FailureUpgrade(db))
  {
    var t := db[Conversations];
    FailureColumnsAdded(t);
    var wide := WithFailureColumns(t);
    var marked := wide.(rows := MarkedRows(db[ResultSnapshots].rows, wide.rows));
    MarkedSameValues(db[ResultSnapshots].rows, wide.rows, t.columns);
    assert WidenedTable(t, marked);
    WidenedKeys(t, marked);
    if LocallyValid(t) {
      forall i | i in marked.rows ensures TypedRow(marked.rows[i], marked.columns, marked.required, marked.check) {
        assert TypedRow(wide.rows[i], wide.columns, wide.required, wide.check);
        assert LastErrorType !in wide.required;
        MarkedRowTyped(db[ResultSnapshots].rows, wide.rows[i], wide.columns, wide.required);
      }
    }
    TableReplaced(db, Conversations, marked);
  }

  // The tables of the composite-key revision, in columns and constraints.
  predicate ReadyToWiden(db: Tables) {
    && Closed(db) && BaseColumns(db) && db.Keys == BASE_TABLES
    && db[Conversations].columns == CONVERSATION_COLUMNS
  }

  // Nothing the next revisions add is there yet.
  predicate UnusedTables(db: Tables) {
    ReportDeleteIntents !in db && ReportPresentations !in db
  }

  predicate UnusedColumns(db: Tables)
    requires Conversations in db
  {
    && ArchivedAt in db[Conversations].columns && Title !in db[Conversations].columns
    && ResourceStatus !in db[Conversations].columns && LastErrorType !in db[Conversations].columns
  }

  lemma ArchiveShape(db: Tables)
    requires ReadyToWiden(db)
    ensures ArchiveUpgrade(db).Keys == db.Keys
    ensures ArchiveUpgrade(db)[Conversations].columns == CONVERSATION_COLUMNS + {ArchivedAt}
  {
  }

  lemma ArchiveLeavesUnused(a: Tables)
    requires a.Keys == BASE_TABLES && a[Conversations].columns == CONVERSATION_COLUMNS + {ArchivedAt}
    ensures UnusedTables(a) && UnusedColumns(a) && ConversationDeleteIntents !in a
  {
  }

  lemma WidenFromArchive(db: Tables, a: Tables)
    requires BaseColumns(db) && Progress(db, a) && Conversations in a
    requires UnusedTables(a) && UnusedColumns(a) && ConversationDeleteIntents !in a
    ensures BASE_TABLES <= a.Keys && Progress(db, FromTitle(ConversationIntentsUpgrade(a)))
  {
    BaseColumnsKept(db, a);
    WidenFromIntents(a);
    ProgressTransitive(db, a, FromTitle(ConversationIntentsUpgrade(a)));
  }

  lemma WidenedProgress(db: Tables)
    requires ReadyToWiden(db)
    ensures Progress(db, Widened(db))
  {
    ArchiveProgress(db);
    ArchiveShape(db);
    ArchiveLeavesUnused(ArchiveUpgrade(db));
    WidenFromArchive(db, ArchiveUpgrade(db));
  }

  lemma WidenFromIntents(db: Tables)
    requires Closed(db) && BaseColumns(db) && UnusedTables(db) && UnusedColumns(db)
    requires ConversationDeleteIntents !in db
    ensures Progress(db, FromTitle(ConversationIntentsUpgrade(db)))
  {
    IntentsProgress(db);
    var a := ConversationIntentsUpgrade(db);
    BaseColumnsKept(db, a);
    WidenFromTitle(a);
    ProgressTransitive(db, a, FromTitle(a));
  }

  lemma WidenFromTitle(db: Tables)
    requires Closed(db) && BaseColumns(db) && UnusedTables(db) && UnusedColumns(db)
    ensures Progress(db, FromTitle(db))
  {
    TitleProgress(db);
    var a := TitleUpgrade(db);
    BaseColumnsKept(db, a);
    WidenFromReportIntents(a);
    ProgressTransitive(db, a, FromTitle(db));
  }

  lemma WidenFromReportIntents(db: Tables)
    requires Closed(db) && BaseColumns(db) && UnusedTables(db)
    requires ArchivedAt in db[Conversations].columns
    requires ResourceStatus !in db[Conversations].columns && LastErrorType !in db[Conversations].columns
    ensures Progress(db, FromPresentations(ReportIntentsUpgrade(db)))
  {
    ReportIntentsProgress(db);
    var a := ReportIntentsUpgrade(db);
    BaseColumnsKept(db, a);
    WidenFromPresentations(a);
    ProgressTransitive(db, a, FromPresentations(a));
  }

  lemma WidenFromPresentations(db: Tables)
    requires Closed(db) && BaseColumns(db) && ReportPresentations !in db
    requires ArchivedAt in db[Conversations].columns
    requires ResourceStatus !in db[Conversations].columns && LastErrorType !in db[Conversations].columns
    ensures Progress(db, FromPresentations(db))
  {
    PresentationsProgress(db);
    var a := PresentationsUpgrade(db);
    BaseColumnsKept(db, a);
    WidenFromPagination(a);
    ProgressTransitive(db, a, FromPresentations(db));
  }

  lemma PaginationLeavesConversations(db: Tables)
    requires Conversations in db && ReportPresentations in db && ReportArtifacts in db
    ensures Conversations in PaginationUpgrade(db) && PaginationUpgrade(db)[Conversations] == db[Conversations]
    ensures db.Keys <= PaginationUpgrade(db).Keys
  {
  }

  lemma WidenFromPagination(db: Tables)
    requires Closed(db) && BaseColumns(db) && ReportPresentations in db
    requires db[ReportPresentations].columns == PRESENTATION_COLUMNS
    requires ArchivedAt in db[Conversations].columns
    requires ResourceStatus !in db[Conversations].columns && LastErrorType !in db[Conversations].columns
    ensures Progress(db, FailureUpgrade(PaginationUpgrade(db)))
  {
    PaginationProgress(db);
    PaginationLeavesConversations(db);
    var a := PaginationUpgrade(db);
    hide PaginationUpgrade, FailureUpgrade, Progress, BaseColumns, Closed;
    BaseColumnsKept(db, a);
    FailureProgress(a);
    ProgressTransitive(db, a, FailureUpgrade(a));
  }

  // ----- the chain -----

  lemma CompositeTableClosed(n: TableName, rows: Rows)
    requires n in BASE_TABLES
    ensures ClosedTable(CompositeKeyTable(n, rows))
    ensures OwnerId !in CompositeKeyTable(n, rows).columns && CompositeKeyTable(n, rows).check == NoCheck
    ensures forall f :: f in CompositeKeyTable(n, rows).foreigns ==> f == COMPOSITE_FOREIGN
  {
  }

  lemma KeyedClosed(db: Tables)
    requires InCompositeKeySchema(db)
    ensures Closed(db)
  {
    hide ClosedTable, Within;
    forall n | n in db
      ensures ClosedTable(db[n]) && OwnerId !in db[n].columns && db[n].check == NoCheck
      ensures forall f :: f in db[n].foreigns ==> f == COMPOSITE_FOREIGN
    {
      CompositeTableClosed(n, db[n].rows);
    }
    KeyedTarget(db);
    hide CompositeKeyTable, SingleKeyTable;
  }

  lemma KeyedTarget(db: Tables)
    requires InCompositeKeySchema(db)
    ensures ClosedForeign(db, COMPOSITE_FOREIGN)
  {
    assert db[Conversations] == CompositeKeyTable(Conversations, db[Conversations].rows);
  }

  lemma KeyedColumns(db: Tables)
    requires InCompositeKeySchema(db)
    ensures BaseColumns(db) && db[Conversations].columns == CONVERSATION_COLUMNS
    ensures db[WorkMemories].required == MEMORY_REQUIRED
  {
    assert db[Conversations] == CompositeKeyTable(Conversations, db[Conversations].rows);
    assert db[WorkMemories] == CompositeKeyTable(WorkMemories, db[WorkMemories].rows);
    assert db[ResultSnapshots] == CompositeKeyTable(ResultSnapshots, db[ResultSnapshots].rows);
    assert db[ReportArtifacts] == CompositeKeyTable(ReportArtifacts, db[ReportArtifacts].rows);
  }

  lemma KeyedReady(db: Tables)
    requires InCompositeKeySchema(db)
    ensures ReadyToWiden(db) && db[WorkMemories].required == MEMORY_REQUIRED
  {
    hide Closed, BaseColumns, CompositeKeyTable, SingleKeyTable;
    KeyedClosed(db);
    KeyedColumns(db);
  }

  lemma CommittedIndexTable(t: Table)
    requires ClosedTable(t) && MEMORY_COLUMNS <= t.columns && LocallyValid(t) && Unique(t.rows, COMMITTED_KEY)
    ensures ClosedTable(WithIndexes(t, {COMMITTED_INDEX})) && LocallyValid(WithIndexes(t, {COMMITTED_INDEX}))
  {
    assert {RuntimeMode, ConversationId, MemoryVersion, StateStatus} <= MEMORY_COLUMNS;
  }

  lemma IndexedReady(db: Tables)
    requires ReadyToWiden(db) && LocallyValid(db[WorkMemories]) && Unique(db[WorkMemories].rows, COMMITTED_KEY)
    ensures ReadyToWiden(Indexed(db, WorkMemories, {COMMITTED_INDEX}))
  {
    var after := Indexed(db, WorkMemories, {COMMITTED_INDEX});
    CommittedIndexTable(db[WorkMemories]);
    forall n, f | n in after && f in after[n].foreigns ensures ClosedForeign(after, f) {
      assert f in db[n].foreigns && ClosedForeign(db, f);
    }
  }

  lemma IndexedForeigns(db: Tables)
    requires ReadyToWiden(db)
    ensures ForeignsHold(Indexed(db, WorkMemories, {COMMITTED_INDEX})) <==> ForeignsHold(db)
  {
    var after := Indexed(db, WorkMemories, {COMMITTED_INDEX});
    forall n | n in db ensures after[n].foreigns == db[n].foreigns && after[n].rows == db[n].rows {
    }
    forall n, f | n in db && f in db[n].foreigns
      ensures ForeignHolds(after, n, f) <==> ForeignHolds(db, n, f)
    {
      assert ClosedForeign(db, f);
    }
  }

  lemma IndexedValid(db: Tables)
    requires ReadyToWiden(db) && AllLocallyValid(db) && Unique(db[WorkMemories].rows, COMMITTED_KEY)
    ensures AllLocallyValid(Indexed(db, WorkMemories, {COMMITTED_INDEX}))
  {
    CommittedIndexTable(db[WorkMemories]);
  }

  // What the last check of the chain decides.
  lemma WidenedThenOwned(indexed: Tables)
    requires ReadyToWiden(indexed) && AllLocallyValid(indexed)
    ensures OwnershipUpgrade(Widened(indexed)).Some? <==> ForeignsHold(indexed)
    ensures ForeignsHold(indexed) ==> Valid(Scoped(Widened(indexed)))
  {
    var wide := Widened(indexed);
    WidenedProgress(indexed);
    ClosedIsPreOwnership(wide);
    WidenedForeigns(indexed, wide);
    forall n | n in wide ensures Typed(wide[n]) {
      assert LocallyValid(wide[n]);
    }
    MigrationCheckPasses(wide);
    MigrationKeepsValidity(wide);
  }

  lemma CommittedIndexStep(keyed: Tables)
    requires ReadyToWiden(keyed) && AllLocallyValid(keyed) && keyed[WorkMemories].required == MEMORY_REQUIRED
    ensures CommittedIndexUpgrade(keyed) ==
              if NoDuplicateCommitted(keyed) then Some(Indexed(keyed, WorkMemories, {COMMITTED_INDEX})) else None
    ensures NoDuplicateCommitted(keyed) ==> IndexedKeyed(keyed, Indexed(keyed, WorkMemories, {COMMITTED_INDEX}))
  {
    assert LocallyValid(keyed[WorkMemories]);
    CommittedIndexIff(keyed);
    if Unique(keyed[WorkMemories].rows, COMMITTED_KEY) {
      CommittedIndexLeaves(keyed);
    }
  }

  lemma CommittedIndexLeaves(keyed: Tables)
    requires ReadyToWiden(keyed) && AllLocallyValid(keyed) && Unique(keyed[WorkMemories].rows, COMMITTED_KEY)
    ensures IndexedKeyed(keyed, Indexed(keyed, WorkMemories, {COMMITTED_INDEX}))
  {
    assert LocallyValid(keyed[WorkMemories]);
    hide ForeignsHold, AllLocallyValid, ReadyToWiden, LocallyValid, Unique, Indexed, WithIndexes, SameRowsAndForeigns;
    IndexedReady(keyed);
    IndexedForeigns(keyed);
    IndexedValid(keyed);
    IndexedSame(keyed);
  }

  lemma IndexedSame(db: Tables)
    requires WorkMemories in db
    ensures forall n :: n in db ==> SameRowsAndForeigns(db, Indexed(db, WorkMemories, {COMMITTED_INDEX}), n)
  {
  }

  // The composite-key database with its committed-version index, ready for the rest.
  predicate IndexedKeyed(keyed: Tables, indexed: Tables) {
    && ReadyToWiden(indexed) && AllLocallyValid(indexed)
    && (ForeignsHold(indexed) <==> ForeignsHold(keyed))
    && (forall n :: n in keyed ==> SameRowsAndForeigns(keyed, indexed, n))
  }

  predicate SameRowsAndForeigns(db: Tables, db': Tables, n: TableName)
    requires n in db
  {
    && n in db' && db'[n].rows == db[n].rows && db'[n].columns == db[n].columns
    && db'[n].foreigns == db[n].foreigns && db'[n].primary == db[n].primary
  }

  lemma ChainFromIff(keyed: Tables)
    requires ReadyToWiden(keyed) && AllLocallyValid(keyed) && keyed[WorkMemories].required == MEMORY_REQUIRED
    ensures ChainFrom(keyed).Some? <==> NoDuplicateCommitted(keyed) && ForeignsHold(keyed)
    ensures ChainFrom(keyed).Some? ==> Valid(ChainFrom(keyed).value)
  {
    CommittedIndexStep(keyed);
    var indexed := Indexed(keyed, WorkMemories, {COMMITTED_INDEX});
    hide Indexed, Widened, Scoped, Valid, ForeignsHold, AllLocallyValid, ReadyToWiden, NoDuplicateCommitted;
    if NoDuplicateCommitted(keyed) {
      WidenedThenOwned(indexed);
    }
  }

  /** The chain of revisions from the initial schema through ownership succeeds exactly on
      databases where no version of a conversation was committed twice and every child row
      has a conversation in its own mode; the result is then valid. */
  lemma ChainSucceedsIff(db: Tables)
    requires InSingleKeySchema(db) && AllLocallyValid(db)
    ensures Chain(db).Some? <==> NoDuplicateCommitted(db) && SameModeParents(db)
    ensures Chain(db).Some? ==> Valid(Chain(db).value)
  {
    UpgradeKeepsRows(db);
    KeyedReady(Rekeyed(db));
    ChainFromIff(Rekeyed(db));
    UpgradeForeignsIff(db, Rekeyed(db));
    SameRowsSameVersions(db, Rekeyed(db));
  }

  lemma SameRowsSameVersions(db: Tables, keyed: Tables)
    requires WorkMemories in db && WorkMemories in keyed && keyed[WorkMemories].rows == db[WorkMemories].rows
    ensures NoDuplicateCommitted(keyed) <==> NoDuplicateCommitted(db)
  {
  }

  // Every original value, under the legacy owner.
  predicate KeptAsLegacy(db: Tables, after: Tables) {
    forall n :: n in db ==> n in after && KeptRows(db[n], after[n])
  }

  predicate KeptRows(t: Table, t': Table) {
    && SameValues(t.rows, t'.rows, t.columns)
    && forall i :: i in t'.rows ==> At(t'.rows[i], OwnerId) == Text(LEGACY_OWNER)
  }

  lemma OwnedKeepsRows(t: Table, t': Table, n: TableName)
    requires WidenedTable(t, t') && OwnerId !in t.columns
    ensures KeptRows(t, ScopedTable(n, t'))
  {
  }

  lemma WidenedTargets(db: Tables, wide: Tables)
    requires Progress(db, wide) && Conversations in db && db[Conversations].primary == CONVERSATION_KEY
    requires forall n, f :: n in db && f in db[n].foreigns ==> f == COMPOSITE_FOREIGN
    ensures TargetsKeyed(Scoped(wide))
  {
    ClosedIsPreOwnership(wide);
    forall n, f | n in wide && f in wide[n].foreigns
      ensures f == COMPOSITE_FOREIGN
    {
      if n in db {
        assert WidenedTable(db[n], wide[n]);
        assert f in db[n].foreigns;
      }
    }
    assert WidenedTable(db[Conversations], wide[Conversations]);
    TargetsStayKeyed(wide);
  }

  lemma KeptTable(keyed: Tables, indexed: Tables, wide: Tables, n: TableName)
    requires n in keyed && SameRowsAndForeigns(keyed, indexed, n) && OwnerId !in keyed[n].columns
    requires n in wide && n != ResourceOwners && WidenedTable(indexed[n], wide[n])
    ensures KeptRows(keyed[n], Scoped(wide)[n])
  {
    OwnedKeepsRows(indexed[n], wide[n], n);
  }

  lemma KeptByProgress(keyed: Tables, indexed: Tables, wide: Tables)
    requires IndexedKeyed(keyed, indexed) && Progress(indexed, wide)
    ensures KeptAsLegacy(keyed, Scoped(wide))
  {
    hide SameRowsAndForeigns, WidenedTable, Scoped, KeptRows, ForeignsHold, AllLocallyValid, BaseColumns;
    hide ClosedTable, ClosedForeign;
    forall n | n in keyed
      ensures n in Scoped(wide) && KeptRows(keyed[n], Scoped(wide)[n])
    {
      TableOfIndexed(keyed, indexed, n);
      InScoped(wide, n);
      KeptTable(keyed, indexed, wide, n);
    }
  }

  lemma TableOfIndexed(keyed: Tables, indexed: Tables, n: TableName)
    requires n in keyed && SameRowsAndForeigns(keyed, indexed, n) && Closed(indexed)
    ensures n in indexed && n != ResourceOwners && OwnerId !in keyed[n].columns
  {
  }

  lemma InScoped(wide: Tables, n: TableName)
    requires n in wide
    ensures n in Scoped(wide)
  {
  }

  lemma TargetsByProgress(keyed: Tables, indexed: Tables, wide: Tables)
    requires IndexedKeyed(keyed, indexed) && Progress(indexed, wide)
    requires Conversations in keyed && keyed[Conversations].primary == CONVERSATION_KEY
    requires keyed.Keys == indexed.Keys
    requires forall n, f :: n in keyed && f in keyed[n].foreigns ==> f == COMPOSITE_FOREIGN
    ensures TargetsKeyed(Scoped(wide))
  {
    forall n, f | n in indexed && f in indexed[n].foreigns ensures f == COMPOSITE_FOREIGN {
      assert SameRowsAndForeigns(keyed, indexed, n);
    }
    assert SameRowsAndForeigns(keyed, indexed, Conversations);
    WidenedTargets(indexed, wide);
  }

  lemma ChainEndsIn(keyed: Tables)
    requires BASE_TABLES <= keyed.Keys && ChainFrom(keyed).Some?
    ensures CommittedIndexUpgrade(keyed) == Some(Indexed(keyed, WorkMemories, {COMMITTED_INDEX}))
    ensures ChainFrom(keyed).value == Scoped(Widened(Indexed(keyed, WorkMemories, {COMMITTED_INDEX})))
  {
    hide Unique, Indexed, Widened, Scoped, ForeignsHold;
  }

  lemma ChainFromKeepsRows(keyed: Tables)
    requires ReadyToWiden(keyed) && AllLocallyValid(keyed) && keyed[WorkMemories].required == MEMORY_REQUIRED
    requires keyed[Conversations].primary == CONVERSATION_KEY
    requires forall n, f :: n in keyed && f in keyed[n].foreigns ==> f == COMPOSITE_FOREIGN
    requires ChainFrom(keyed).Some?
    ensures KeptAsLegacy(keyed, ChainFrom(keyed).value)
    ensures TargetsKeyed(ChainFrom(keyed).value)
  {
    CommittedIndexStep(keyed);
    var indexed := Indexed(keyed, WorkMemories, {COMMITTED_INDEX});
    assert keyed.Keys == indexed.Keys && Conversations in keyed;
    ChainEndsIn(keyed);
    hide Indexed, Widened, Scoped, ForeignsHold, AllLocallyValid, Progress, NoDuplicateCommitted;
    hide KeptAsLegacy, TargetsKeyed;
    hide ChainFrom, CommittedIndexUpgrade, OwnershipUpgrade, Unique, SameRowsAndForeigns, BaseColumns, Closed;
    WidenedProgress(indexed);
    KeptByProgress(keyed, indexed, Widened(indexed));
    TargetsByProgress(keyed, indexed, Widened(indexed));
  }

  lemma CompositeForeignOnly(db: Tables)
    requires InCompositeKeySchema(db)
    ensures forall n, f :: n in db && f in db[n].foreigns ==> f == COMPOSITE_FOREIGN
    ensures db[Conversations].primary == CONVERSATION_KEY
  {
    forall n | n in db ensures forall f :: f in db[n].foreigns ==> f == COMPOSITE_FOREIGN {
      CompositeTableClosed(n, db[n].rows);
    }
    assert db[Conversations] == CompositeKeyTable(Conversations, db[Conversations].rows);
  }

  lemma SameColumns(n: TableName, rows: Rows)
    requires n in BASE_TABLES
    ensures CompositeKeyTable(n, rows).columns == SingleKeyTable(n, rows).columns
  {
  }

  /** Where it succeeds, the chain keeps every row and every value, all owned by local:legacy,
      and every foreign key of the result refers to a key. */
  lemma ChainKeepsRows(db: Tables)
    requires InSingleKeySchema(db) && AllLocallyValid(db) && Chain(db).Some?
    ensures KeptAsLegacy(db, Chain(db).value)
    ensures TargetsKeyed(Chain(db).value)
  {
    UpgradeKeepsRows(db);
    var keyed := Rekeyed(db);
    KeyedReady(keyed);
    CompositeForeignOnly(keyed);
    ChainFromKeepsRows(keyed);
    KeptThroughRekeying(db, keyed, Chain(db).value);
  }

  lemma KeptThroughRekeying(db: Tables, keyed: Tables, after: Tables)
    requires InSingleKeySchema(db) && InCompositeKeySchema(keyed) && KeptAsLegacy(keyed, after)
    requires forall n :: n in db ==> keyed[n].rows == db[n].rows
    ensures KeptAsLegacy(db, after)
  {
    forall n | n in db ensures KeptRows(db[n], after[n]) {
      SameColumns(n, db[n].rows);
      assert KeptRows(keyed[n], after[n]);
    }
  }
}
