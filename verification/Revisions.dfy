/**
 The revisions between the composite-key one and the ownership one, and the whole chain.

 Every intermediate revision only widens the database: it adds columns, tables and plain
 indexes, and it never touches a value that an earlier revision stored.
 */
module Revisions {
  import opened Options
  import opened Relational
  import opened Ownership
  import opened Schemas

  // ----- building blocks -----

  function WithColumn(t: Table, c: Column, default: Value, required: bool): Table {
    t.(columns := t.columns + {c},
       required := if required then t.required + {c} else t.required,
       rows := map i | i in t.rows :: t.rows[i][c := default])
  }

  function WithIndexes(t: Table, xs: set<Index>): Table {
    t.(indexes := t.indexes + xs)
  }

  function Indexed(db: Tables, n: TableName, xs: set<Index>): Tables
    requires n in db
  {
    db[n := WithIndexes(db[n], xs)]
  }

  // A nullable column and the indexes that mention it.
  function Extended(db: Tables, n: TableName, c: Column, xs: set<Index>): Tables
    requires n in db
  {
    db[n := WithIndexes(WithColumn(db[n], c, Null, false), xs)]
  }

  // ----- the committed-version index -----

  const COMMITTED_FILTER := Where(StateStatus, Text("committed"))
  const VERSION_COLUMNS: seq<Column> := [RuntimeMode, ConversationId, MemoryVersion]
  const COMMITTED_KEY := Key(VERSION_COLUMNS, COMMITTED_FILTER)
  const COMMITTED_INDEX := Index(VERSION_COLUMNS, true, COMMITTED_FILTER)

  // CREATE UNIQUE INDEX fails on rows that already violate it.
  function CommittedIndexUpgrade(db: Tables): Option<Tables>
    requires WorkMemories in db
  {
    if Unique(db[WorkMemories].rows, COMMITTED_KEY)
    then Some(Indexed(db, WorkMemories, {COMMITTED_INDEX}))
    else None
  }

  predicate IsCommitted(r: Row) {
    At(r, StateStatus) == Text("committed")
  }

  predicate SameVersion(r: Row, r': Row) {
    SameConversation(r, r') && At(r, MemoryVersion) == At(r', MemoryVersion)
  }

  // At most one committed row for each mode, conversation and version.
  predicate NoDuplicateCommitted(db: Tables)
    requires WorkMemories in db
  {
    forall i, j :: i in db[WorkMemories].rows && j in db[WorkMemories].rows && i != j
      && IsCommitted(db[WorkMemories].rows[i]) && IsCommitted(db[WorkMemories].rows[j])
      ==> !SameVersion(db[WorkMemories].rows[i], db[WorkMemories].rows[j])
  }

  lemma VersionTriple(r: Row, r': Row)
    ensures Project(r, VERSION_COLUMNS) == [At(r, RuntimeMode), At(r, ConversationId), At(r, MemoryVersion)]
    ensures Project(r, VERSION_COLUMNS) == Project(r', VERSION_COLUMNS) <==> SameVersion(r, r')
  {
    var p, p' := Project(r, VERSION_COLUMNS), Project(r', VERSION_COLUMNS);
    assert p == [At(r, RuntimeMode), At(r, ConversationId), At(r, MemoryVersion)];
    assert p' == [At(r', RuntimeMode), At(r', ConversationId), At(r', MemoryVersion)];
    assert p[0] == At(r, RuntimeMode) && p[1] == At(r, ConversationId) && p[2] == At(r, MemoryVersion);
    assert p'[0] == At(r', RuntimeMode) && p'[1] == At(r', ConversationId) && p'[2] == At(r', MemoryVersion);
  }

  lemma MemoryRequired(t: Table, i: int)
    requires Typed(t) && t.required == MEMORY_REQUIRED && i in t.rows
    ensures At(t.rows[i], RuntimeMode) != Null
    ensures At(t.rows[i], ConversationId) != Null
    ensures At(t.rows[i], MemoryVersion) != Null
  {
    RequiredPresent(t, i, RuntimeMode);
    RequiredPresent(t, i, ConversationId);
    RequiredPresent(t, i, MemoryVersion);
  }

  /** The committed-version revision succeeds exactly when no version of a conversation was
      committed twice. */
  lemma CommittedIndexIff(db: Tables)
    requires WorkMemories in db && Typed(db[WorkMemories]) && db[WorkMemories].required == MEMORY_REQUIRED
    ensures CommittedIndexUpgrade(db).Some? <==> NoDuplicateCommitted(db)
  {
    var rows := db[WorkMemories].rows;
    forall i | i in rows ensures Covers(COMMITTED_KEY, rows[i]) <==> IsCommitted(rows[i]) {
      MemoryRequired(db[WorkMemories], i);
      VersionTriple(rows[i], rows[i]);
    }
    forall i, j | i in rows && j in rows
      ensures Project(rows[i], VERSION_COLUMNS) == Project(rows[j], VERSION_COLUMNS) <==> SameVersion(rows[i], rows[j])
    {
      VersionTriple(rows[i], rows[j]);
    }
  }

  /** Without its WHERE clause the index would forbid what turns do all the time: two pending
      rows of one conversation share version 0. */
  lemma FilterIsNeeded(rows: Rows, i: int, j: int)
    requires i in rows && j in rows && i != j && SameVersion(rows[i], rows[j])
    requires At(rows[i], OwnerId) == At(rows[j], OwnerId)
    requires Null !in Project(rows[i], Prefixed(VERSION_COLUMNS)) && !IsCommitted(rows[i])
    ensures !Unique(rows, Key(Prefixed(VERSION_COLUMNS), Everything))
    ensures !Covers(PrefixedKey(COMMITTED_KEY), rows[i])
  {
    VersionTriple(rows[i], rows[j]);
    PrefixedEqual(rows[i], rows[j], VERSION_COLUMNS, VERSION_COLUMNS);
    var k := Key(Prefixed(VERSION_COLUMNS), Everything);
    assert Covers(k, rows[i]) && Covers(k, rows[j]);
  }

  // ----- the failure backfill -----

  // json_extract(payload_json, '$.error_type')
  function ErrorType(snapshot: Row): Value {
    if At(snapshot, PayloadJson).Json? then At(snapshot, PayloadJson).errorType else Null
  }

  predicate HasError(snapshot: Row) {
    ErrorType(snapshot) != Null && ErrorType(snapshot) != Text("")
  }

  predicate FailureOf(snapshot: Row, conversation: Row) {
    SameConversation(snapshot, conversation) && HasError(snapshot)
  }

  function Failures(snapshots: Rows, conversation: Row): set<int> {
    set i | i in snapshots && FailureOf(snapshots[i], conversation)
  }

  predicate HasFailed(snapshots: Rows, conversation: Row) {
    exists i :: i in snapshots && FailureOf(snapshots[i], conversation)
  }

  function IntOf(v: Value): int {
    if v.Int? then v.n else 0
  }

  // ORDER BY created_at DESC, id DESC
  predicate After(r: Row, r': Row) {
    || IntOf(At(r, CreatedAt)) > IntOf(At(r', CreatedAt))
    || (IntOf(At(r, CreatedAt)) == IntOf(At(r', CreatedAt)) && IntOf(At(r, Id)) > IntOf(At(r', Id)))
  }

  predicate IsLatest(snapshots: Rows, s: set<int>, i: int) {
    i in s && i in snapshots && forall j :: j in s && j in snapshots ==> !After(snapshots[j], snapshots[i])
  }

  lemma LatestExtends(snapshots: Rows, rest: set<int>, i: int, j: int)
    requires i in snapshots && IsLatest(snapshots, rest, j)
    ensures IsLatest(snapshots, rest + {i}, if After(snapshots[i], snapshots[j]) then i else j)
  {
  }

  lemma {:induction false} LatestExists(snapshots: Rows, s: set<int>, i: int)
    requires i in s && s <= snapshots.Keys
    ensures exists top :: IsLatest(snapshots, s, top)
    decreases s
  {
    var rest := s - {i};
    assert rest + {i} == s && forall j :: j in s ==> j == i || j in rest;
    if j :| j in rest {
      LatestExists(snapshots, rest, j);
      var top :| IsLatest(snapshots, rest, top);
      LatestExtends(snapshots, rest, i, top);
    } else {
      assert IsLatest(snapshots, s, i);
    }
  }

  ghost function LatestFailure(snapshots: Rows, conversation: Row): (latest: int)
    requires HasFailed(snapshots, conversation)
    ensures IsLatest(snapshots, Failures(snapshots, conversation), latest)
  {
    var i :| i in snapshots && FailureOf(snapshots[i], conversation);
    LatestExists(snapshots, Failures(snapshots, conversation), i);
    var top :| IsLatest(snapshots, Failures(snapshots, conversation), top);
    top
  }

  // The UPDATE statement on one conversation.
  ghost function MarkedConversation(snapshots: Rows, conversation: Row): Row {
    if HasFailed(snapshots, conversation) then
      conversation[ResourceStatus := Text("failed")]
                  [LastErrorType := ErrorType(snapshots[LatestFailure(snapshots, conversation)])]
    else conversation
  }

  ghost function MarkedRows(snapshots: Rows, conversations: Rows): Rows {
    map i | i in conversations :: MarkedConversation(snapshots, conversations[i])
  }

  // Snapshot ids are integers, and no two snapshots share one.
  predicate Stamped(snapshots: Rows) {
    && (forall i :: i in snapshots ==> At(snapshots[i], Id).Int? && At(snapshots[i], CreatedAt).Int?)
    && (forall i, j :: i in snapshots && j in snapshots && i != j ==> At(snapshots[i], Id) != At(snapshots[j], Id))
  }

  lemma LatestIsUnique(snapshots: Rows, s: set<int>, i: int, j: int)
    requires Stamped(snapshots) && IsLatest(snapshots, s, i) && IsLatest(snapshots, s, j)
    ensures i == j
  {
    assert !After(snapshots[i], snapshots[j]) && !After(snapshots[j], snapshots[i]);
  }

  /** A conversation is marked failed exactly when a snapshot of that same mode and
      conversation carries an error, and its error is that of the one greatest such snapshot
      by creation time and then id. */
  lemma BackfillMarks(snapshots: Rows, conversation: Row)
    requires Stamped(snapshots) && At(conversation, ResourceStatus) == Text("ready")
    ensures At(MarkedConversation(snapshots, conversation), ResourceStatus) == Text("failed") <==>
              HasFailed(snapshots, conversation)
    ensures forall i :: IsLatest(snapshots, Failures(snapshots, conversation), i) ==>
              At(MarkedConversation(snapshots, conversation), LastErrorType) == ErrorType(snapshots[i])
    ensures forall c :: c != ResourceStatus && c != LastErrorType ==>
              At(MarkedConversation(snapshots, conversation), c) == At(conversation, c)
  {
    if HasFailed(snapshots, conversation) {
      var top := LatestFailure(snapshots, conversation);
      forall i | IsLatest(snapshots, Failures(snapshots, conversation), i) ensures i == top {
        LatestIsUnique(snapshots, Failures(snapshots, conversation), i, top);
      }
      MarkedColumns(conversation, ErrorType(snapshots[top]));
    } else {
      assert "ready"[0] != "failed"[0];
    }
  }

  lemma MarkedColumns(conversation: Row, error: Value)
    ensures var marked := conversation[ResourceStatus := Text("failed")][LastErrorType := error];
            && At(marked, ResourceStatus) == Text("failed")
            && At(marked, LastErrorType) == error
            && forall c :: c != ResourceStatus && c != LastErrorType ==> At(marked, c) == At(conversation, c)
  {
  }

  // A stored answer of the conversation whose JSON document names an error.
  predicate Failed(snapshot: Row, conversation: Row) {
    && At(snapshot, RuntimeMode) == At(conversation, RuntimeMode)
    && At(snapshot, ConversationId) == At(conversation, ConversationId)
    && At(snapshot, PayloadJson).Json?
    && At(snapshot, PayloadJson).errorType != Null && At(snapshot, PayloadJson).errorType != Text("")
  }

  // The failed answer that none was created after, with the greatest id among those created with it.
  predicate LastFailed(snapshots: Rows, conversation: Row, i: int) {
    && i in snapshots && Failed(snapshots[i], conversation)
    && forall j :: j in snapshots && Failed(snapshots[j], conversation) ==>
         || IntOf(At(snapshots[j], CreatedAt)) < IntOf(At(snapshots[i], CreatedAt))
         || (&& IntOf(At(snapshots[j], CreatedAt)) == IntOf(At(snapshots[i], CreatedAt))
             && IntOf(At(snapshots[j], Id)) <= IntOf(At(snapshots[i], Id)))
  }

  // What the revision has to leave in the two new columns of a conversation.
  predicate Backfilled(snapshots: Rows, conversation: Row) {
    if forall i :: i in snapshots ==> !Failed(snapshots[i], conversation)
    then At(conversation, ResourceStatus) == Text("ready") && At(conversation, LastErrorType) == Null
    else
      && At(conversation, ResourceStatus) == Text("failed")
      && exists i :: i in snapshots && LastFailed(snapshots, conversation, i)
           && At(conversation, LastErrorType) == At(snapshots[i], PayloadJson).errorType
  }

  lemma MarkedIsBackfilled(snapshots: Rows, conversation: Row)
    requires At(conversation, ResourceStatus) == Text("ready") && At(conversation, LastErrorType) == Null
    ensures Backfilled(snapshots, MarkedConversation(snapshots, conversation))
  {
    var marked := MarkedConversation(snapshots, conversation);
    forall i | i in snapshots
      ensures Failed(snapshots[i], marked) <==> FailureOf(snapshots[i], conversation)
    {
    }
    if HasFailed(snapshots, conversation) {
      var top := LatestFailure(snapshots, conversation);
      MarkedColumns(conversation, ErrorType(snapshots[top]));
      forall j | j in snapshots && Failed(snapshots[j], marked) ensures !After(snapshots[j], snapshots[top]) {
        assert j in Failures(snapshots, conversation);
      }
      assert LastFailed(snapshots, marked, top);
    }
  }

  lemma BackfilledByOwner(snapshots: Rows, conversation: Row)
    requires Backfilled(snapshots, conversation)
    ensures Backfilled(snapshots, ScopedRow(conversation))
  {
    forall i | i in snapshots
      ensures Failed(snapshots[i], ScopedRow(conversation)) <==> Failed(snapshots[i], conversation)
    {
    }
    if i :| LastFailed(snapshots, conversation, i)
              && At(conversation, LastErrorType) == At(snapshots[i], PayloadJson).errorType {
      assert LastFailed(snapshots, ScopedRow(conversation), i);
    }
  }

  // ----- the revisions in order -----

  const RECENT := Plain([RuntimeMode, ArchivedAt, UpdatedAt, ConversationId])
  const RECENT_WITH_CREATION := Plain([RuntimeMode, ArchivedAt, UpdatedAt, CreatedAt, ConversationId])

  // f4c3a2b1907d
  function ArchiveUpgrade(db: Tables): Tables
    requires BASE_TABLES <= db.Keys
  {
    var a := Extended(db, Conversations, ArchivedAt, {RECENT});
    ArchiveIndexes(Indexed(a, WorkMemories, {Plain([RuntimeMode, ConversationId, StateStatus, CreatedAt])}))
  }

  function ArchiveIndexes(db: Tables): Tables
    requires ResultSnapshots in db && ReportArtifacts in db
  {
    var a := Indexed(db, ResultSnapshots, {Plain([RuntimeMode, ConversationId, CreatedAt, Id])});
    Indexed(a, ReportArtifacts, {Plain([SourceMode, ConversationId, CreatedAt, ReportId])})
  }

  const CONVERSATION_INTENTS := Table(
    {ConversationId, RuntimeMode, ReportIdsJson, DeletedCountsJson, CreatedAt},
    {ConversationId, RuntimeMode, ReportIdsJson, DeletedCountsJson, CreatedAt},
    [ConversationId, RuntimeMode], {}, {}, {}, NoCheck, map[])

  // c8d4e6f2a109
  function ConversationIntentsUpgrade(db: Tables): Tables {
    db[ConversationDeleteIntents := CONVERSATION_INTENTS]
  }

  // d3b7f9a1c524
  function TitleUpgrade(db: Tables): Tables
    requires Conversations in db
  {
    Extended(db, Conversations, Title, {})
  }

  const REPORT_INTENTS := Table(
    {ReportId, SourceMode, ConversationId, RequestId, PayloadJson, CreatedAt},
    {ReportId, SourceMode, PayloadJson, CreatedAt},
    [ReportId], {}, {}, {}, NoCheck, map[])

  // e7a9c2d4f631
  function ReportIntentsUpgrade(db: Tables): Tables {
    db[ReportDeleteIntents := REPORT_INTENTS]
  }

  const DEFAULT_TITLE := "销售分析报告"

  const PRESENTATION_COLUMNS: set<Column> := {
    ReportId, SourceMode, ConversationId, RequestId, DisplayTitle, AvailabilityStatus,
    DeletedAt, CreatedAt, UpdatedAt}

  // INSERT INTO report_presentations ... SELECT ... FROM report_artifacts, one row.
  function PresentationOf(artifact: Row): Row {
    map[ReportId := At(artifact, ReportId), SourceMode := At(artifact, SourceMode),
        ConversationId := At(artifact, ConversationId), RequestId := At(artifact, RequestId),
        DisplayTitle := Text(DEFAULT_TITLE), AvailabilityStatus := Text("available"), DeletedAt := Null,
        CreatedAt := At(artifact, CreatedAt), UpdatedAt := At(artifact, CreatedAt)]
  }

  function PresentationsTable(artifacts: Rows): Table {
    Table(PRESENTATION_COLUMNS, PRESENTATION_COLUMNS - {ConversationId, RequestId, DeletedAt}, [ReportId], {}, {},
          {Plain([SourceMode, ConversationId, RequestId, ReportId])}, NoCheck,
          map i | i in artifacts :: PresentationOf(artifacts[i]))
  }

  // What a presentation takes over from its artifact.
  const PRESENTED_COLUMNS: set<Column> := {ReportId, SourceMode, ConversationId, RequestId, CreatedAt}

  predicate Presents(presentations: Rows, j: int, artifact: Row) {
    j in presentations && At(presentations[j], ReportId) == At(artifact, ReportId)
  }

  /** Every artifact has one presentation, and it is an available, never changed one of that very artifact. */
  lemma OnePresentationPerArtifact(artifacts: Rows, i: int)
    requires i in artifacts && At(artifacts[i], ReportId) != Null && Unique(artifacts, Key([ReportId], Everything))
    ensures
      var presentations := PresentationsTable(artifacts).rows;
      && (exists j :: Presents(presentations, j, artifacts[i]))
      && forall j :: Presents(presentations, j, artifacts[i]) ==>
           && (forall k :: Presents(presentations, k, artifacts[i]) ==> k == j)
           && (forall c :: c in PRESENTED_COLUMNS ==> At(presentations[j], c) == At(artifacts[i], c))
           && At(presentations[j], UpdatedAt) == At(presentations[j], CreatedAt)
           && At(presentations[j], AvailabilityStatus) == Text("available")
           && At(presentations[j], DeletedAt) == Null
  {
    var presentations := PresentationsTable(artifacts).rows;
    forall j | Presents(presentations, j, artifacts[i]) ensures j == i {
      assert Project(artifacts[j], [ReportId]) == Project(artifacts[i], [ReportId]);
      assert Project(artifacts[i], [ReportId]) == [At(artifacts[i], ReportId)];
    }
    assert Presents(presentations, i, artifacts[i]);
  }

  // A presentation as the revision inserts it for an artifact.
  predicate FreshPresentation(artifact: Row, presentation: Row) {
    && At(presentation, ReportId) == At(artifact, ReportId)
    && At(presentation, SourceMode) == At(artifact, SourceMode)
    && At(presentation, ConversationId) == At(artifact, ConversationId)
    && At(presentation, RequestId) == At(artifact, RequestId)
    && At(presentation, CreatedAt) == At(artifact, CreatedAt)
    && At(presentation, UpdatedAt) == At(artifact, CreatedAt)
    && At(presentation, DisplayTitle) == Text("销售分析报告")
    && At(presentation, AvailabilityStatus) == Text("available")
    && At(presentation, DeletedAt) == Null && At(presentation, ArchivedAt) == Null
  }

  // One presentation for every artifact, and no other.
  predicate AllPresented(artifacts: Rows, presentations: Rows) {
    && (forall i :: i in artifacts ==>
         exists j :: j in presentations && FreshPresentation(artifacts[i], presentations[j]))
    && (forall j :: j in presentations ==>
         exists i :: i in artifacts && FreshPresentation(artifacts[i], presentations[j]))
    && |presentations| == |artifacts|
  }

  lemma SameSize(m: Rows, m': Rows)
    requires m.Keys == m'.Keys
    ensures |m| == |m'|
  {
    assert |m| == |m.Keys| && |m'| == |m'.Keys|;
  }

  // Rows that agree with the inserted ones wherever the revision put something.
  lemma PresentedByHandle(artifacts: Rows, presentations: Rows)
    requires presentations.Keys == artifacts.Keys
    requires forall i :: i in artifacts ==> FreshPresentation(artifacts[i], presentations[i])
    ensures AllPresented(artifacts, presentations)
  {
    SameSize(artifacts, presentations);
  }

  lemma FreshRow(artifact: Row)
    ensures FreshPresentation(artifact, PresentationOf(artifact))
  {
  }

  lemma PresentationHandles(artifacts: Rows)
    ensures PresentationsTable(artifacts).rows == map i | i in artifacts :: PresentationOf(artifacts[i])
  {
    hide PresentationOf;
  }

  lemma FreshlyPresented(artifacts: Rows)
    ensures AllPresented(artifacts, PresentationsTable(artifacts).rows)
  {
    var presentations := PresentationsTable(artifacts).rows;
    hide *;
    PresentationHandles(artifacts);
    assert presentations.Keys == artifacts.Keys;
    forall i | i in artifacts ensures FreshPresentation(artifacts[i], presentations[i]) {
      FreshRow(artifacts[i]);
    }
    PresentedByHandle(artifacts, presentations);
  }

  // a4f6b8c2d190
  function PresentationsUpgrade(db: Tables): Tables
    requires ReportArtifacts in db
  {
    db[ReportPresentations := PresentationsTable(db[ReportArtifacts].rows)]
  }

  // b7c9d2e4f610
  function PaginationUpgrade(db: Tables): Tables
    requires ReportPresentations in db && ReportArtifacts in db
  {
    var a := Extended(db, ReportPresentations, ArchivedAt, {Plain([SourceMode, ArchivedAt, UpdatedAt, ReportId])});
    Indexed(a, ReportArtifacts, {Plain([SourceMode, CreatedAt, ReportId])})
  }

  function WithFailureColumns(t: Table): Table {
    var wide := WithColumn(WithColumn(t, ResourceStatus, Text("ready"), true), LastErrorType, Null, false);
    wide.(indexes := wide.indexes - {RECENT} + {RECENT_WITH_CREATION})
  }

  // c2e4f6a8b130
  ghost function FailureUpgrade(db: Tables): Tables
    requires Conversations in db && ResultSnapshots in db
  {
    var wide := WithFailureColumns(db[Conversations]);
    db[Conversations := wide.(rows := MarkedRows(db[ResultSnapshots].rows, wide.rows))]
  }

  lemma FailureColumnDefaults(t: Table, i: int)
    requires i in t.rows
    ensures i in WithFailureColumns(t).rows
    ensures At(WithFailureColumns(t).rows[i], ResourceStatus) == Text("ready")
    ensures At(WithFailureColumns(t).rows[i], LastErrorType) == Null
  {
  }

  /** After the failure revision every conversation is ready without an error, if none of its
      answers failed, and else it is failed with the error of its last failed answer. */
  lemma FailureUpgradeBackfills(db: Tables, i: int)
    requires Conversations in db && ResultSnapshots in db && i in db[Conversations].rows
    ensures i in FailureUpgrade(db)[Conversations].rows
    ensures Backfilled(db[ResultSnapshots].rows, FailureUpgrade(db)[Conversations].rows[i])
  {
    FailureColumnDefaults(db[Conversations], i);
    MarkedIsBackfilled(db[ResultSnapshots].rows, WithFailureColumns(db[Conversations]).rows[i]);
  }

  // f63a1b2c3d40
  function OwnershipUpgrade(db: Tables): Option<Tables> {
    if ForeignsHold(Scoped(db)) then Some(Scoped(db)) else None
  }

  // From the committed-version revision up to, but not including, the ownership revision.
  ghost function Widened(db: Tables): Tables
    requires BASE_TABLES <= db.Keys
  {
    FromTitle(ConversationIntentsUpgrade(ArchiveUpgrade(db)))
  }

  ghost function FromTitle(db: Tables): Tables
    requires BASE_TABLES <= db.Keys
  {
    FromPresentations(ReportIntentsUpgrade(TitleUpgrade(db)))
  }

  ghost function FromPresentations(db: Tables): Tables
    requires BASE_TABLES <= db.Keys
  {
    FailureUpgrade(PaginationUpgrade(PresentationsUpgrade(db)))
  }

  // From the composite-key schema through the ownership revision.
  ghost function ChainFrom(keyed: Tables): Option<Tables>
    requires BASE_TABLES <= keyed.Keys
  {
    match CommittedIndexUpgrade(keyed)
    case None => None
    case Some(indexed) => OwnershipUpgrade(Widened(indexed))
  }

  // From the initial schema through the ownership revision.
  ghost function Chain(db: Tables): Option<Tables>
    requires db.Keys == BASE_TABLES
  {
    match CompositeUpgrade(db)
    case None => None
    case Some(keyed) => ChainFrom(keyed)
  }
}
