/**
 A small relational model: tables of rows together with the constraints that
 SQLite enforces on them (NOT NULL, primary keys, unique constraints, possibly
 partial unique indexes, foreign keys, and one CHECK).

 Rows are kept under handles, so that two rows with equal contents remain two
 rows; constraints never look at a handle.
 */
module Relational {

  // `Json` stands for a stored JSON document: the value of its `error_type`
  // member (Null when absent) and the rest of the text.
  datatype Value = Null | Int(n: int) | Text(s: string) | Json(errorType: Value, rest: string)

  datatype TableName =
    | ResourceOwners
    | Conversations
    | ConversationDeleteIntents
    | WorkMemories
    | PendingClarifications
    | ResultSnapshots
    | ReportArtifacts
    | ReportPresentations
    | ReportDeleteIntents

  datatype Column =
    | OwnerId | IdentityMode | TenantId | PrincipalId
    | Id | ConversationId | RuntimeMode | RequestId | CreatedAt | UpdatedAt
    | StateStatus | BaseMemoryVersion | MemoryVersion | SemanticModelKey | ReportTemplateKey
    | CurrentIntent | AnalysisGoal | PayloadJson | FailureReason | FailureStage
    | ChainId | SchemaFingerprint
    | RequestFingerprintHash | TerminalState | ResponseType
    | ReportId | TemplateKey | SourceMode | ContentHash | RelativePath
    | ReportIdsJson | DeletedCountsJson
    | DisplayTitle | AvailabilityStatus | DeletedAt
    | ArchivedAt | Title | ResourceStatus | LastErrorType

  type Row = map<Column, Value>
  type Rows = map<int, Row>

  // The WHERE clause of an index.
  datatype Filter = Everything | Where(column: Column, value: Value)

  datatype Key = Key(columns: seq<Column>, filter: Filter)

  datatype Index = Index(columns: seq<Column>, unique: bool, filter: Filter)

  datatype Foreign = Foreign(columns: seq<Column>, parent: TableName, parentColumns: seq<Column>)

  datatype Check = NoCheck | OwnerIdentity

  datatype Table = Table(
    columns: set<Column>,
    required: set<Column>,
    primary: seq<Column>,
    uniques: set<seq<Column>>,
    foreigns: set<Foreign>,
    indexes: set<Index>,
    check: Check,
    rows: Rows)

  type Tables = map<TableName, Table>

  function At(r: Row, c: Column): Value {
    if c in r then r[c] else Null
  }

  function Project(r: Row, columns: seq<Column>): seq<Value> {
    seq(|columns|, i requires 0 <= i < |columns| => At(r, columns[i]))
  }

  predicate Satisfies(f: Filter, r: Row) {
    f.Where? ==> At(r, f.column) == f.value
  }

  // SQLite leaves a row out of a unique index when the WHERE clause fails or when
  // one of the indexed values is NULL.
  predicate Covers(k: Key, r: Row) {
    Satisfies(k.filter, r) && Null !in Project(r, k.columns)
  }

  predicate Unique(rows: Rows, k: Key) {
    forall i, j :: i in rows && j in rows && i != j && Covers(k, rows[i]) && Covers(k, rows[j])
      ==> Project(rows[i], k.columns) != Project(rows[j], k.columns)
  }

  // Foreign keys use MATCH SIMPLE: a reference with a NULL in it is not checked.
  predicate Refers(rows: Rows, columns: seq<Column>, parents: Rows, parentColumns: seq<Column>) {
    forall i :: i in rows && Null !in Project(rows[i], columns) ==>
      exists j :: j in parents && Project(parents[j], parentColumns) == Project(rows[i], columns)
  }

  // SQLite's LIKE folds ASCII case.
  function Folded(c: char): char {
    if 'A' <= c <= 'Z' then c - 'A' + 'a' else c
  }

  predicate LikePrefix(prefix: string, s: string) {
    |prefix| <= |s| && forall i :: 0 <= i < |prefix| ==> Folded(s[i]) == Folded(prefix[i])
  }

  function Width(v: Value): nat {
    if v.Text? then |v.s| else 0
  }

  const LEGACY_OWNER := "local:legacy"

  // The CHECK on resource_owners: the local namespace, or an Entra principal.
  predicate Checked(check: Check, r: Row) {
    match check
    case NoCheck => true
    case OwnerIdentity =>
      || (&& At(r, IdentityMode) == Text("LOCAL_DEV") && At(r, OwnerId) == Text(LEGACY_OWNER)
          && At(r, TenantId) == Text("local") && At(r, PrincipalId) == Text("legacy"))
      || (&& At(r, IdentityMode) == Text("ENTRA_PRINCIPAL")
          && At(r, OwnerId).Text? && LikePrefix("entra:", At(r, OwnerId).s)
          && Width(At(r, TenantId)) == 36 && Width(At(r, PrincipalId)) == 36)
  }

  predicate TypedRow(r: Row, columns: set<Column>, required: set<Column>, check: Check) {
    && r.Keys == columns
    && (forall c :: c in required ==> At(r, c) != Null)
    && Checked(check, r)
  }

  predicate Typed(t: Table) {
    forall i :: i in t.rows ==> TypedRow(t.rows[i], t.columns, t.required, t.check)
  }

  // The keys of a table: its primary key, its unique constraints, its unique indexes.
  predicate HasKey(t: Table, k: Key) {
    || k == Key(t.primary, Everything)
    || (k.filter == Everything && k.columns in t.uniques)
    || Index(k.columns, true, k.filter) in t.indexes
  }

  predicate KeysHold(t: Table) {
    && Unique(t.rows, Key(t.primary, Everything))
    && (forall u :: u in t.uniques ==> Unique(t.rows, Key(u, Everything)))
    && (forall x :: x in t.indexes && x.unique ==> Unique(t.rows, Key(x.columns, x.filter)))
  }

  lemma KeysHoldMeans(t: Table)
    ensures KeysHold(t) <==> forall k :: HasKey(t, k) ==> Unique(t.rows, k)
  {
    if forall k :: HasKey(t, k) ==> Unique(t.rows, k) {
      forall u | u in t.uniques ensures Unique(t.rows, Key(u, Everything)) {
        assert HasKey(t, Key(u, Everything));
      }
      forall x | x in t.indexes && x.unique ensures Unique(t.rows, Key(x.columns, x.filter)) {
        assert x == Index(x.columns, true, x.filter) && HasKey(t, Key(x.columns, x.filter));
      }
    }
    if KeysHold(t) {
      forall k | HasKey(t, k) ensures Unique(t.rows, k) {
        if Index(k.columns, true, k.filter) in t.indexes {
          var x := Index(k.columns, true, k.filter);
          assert x.unique && k == Key(x.columns, x.filter);
        }
      }
    }
  }

  // Everything a table can check by itself, and does check on every insert.
  predicate LocallyValid(t: Table) {
    Typed(t) && KeysHold(t)
  }

  predicate ForeignHolds(db: Tables, n: TableName, f: Foreign)
    requires n in db
  {
    f.parent in db && Refers(db[n].rows, f.columns, db[f.parent].rows, f.parentColumns)
  }

  // What PRAGMA foreign_key_check finds no fault with.
  predicate ForeignsHold(db: Tables) {
    forall n, f :: n in db && f in db[n].foreigns ==> ForeignHolds(db, n, f)
  }

  predicate Valid(db: Tables) {
    (forall n :: n in db ==> LocallyValid(db[n])) && ForeignsHold(db)
  }

  // SQLite accepts a foreign key only if what it refers to is a key of the parent.
  predicate TargetKeyed(db: Tables, f: Foreign) {
    f.parent in db && HasKey(db[f.parent], Key(f.parentColumns, Everything))
  }

  predicate TargetsKeyed(db: Tables) {
    forall n, f :: n in db && f in db[n].foreigns ==> TargetKeyed(db, f)
  }
}
