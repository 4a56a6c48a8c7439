/**
 The revisions as they run: statements that change a stored database one after another.
 Each method is proved against the function that says what its revision does.
 */
module Migrations {
  import opened Options
  import opened Relational
  import opened Ownership
  import opened Schemas
  import opened Revisions

  lemma PlainIndexesAreNotKeys(t: Table, xs: set<Index>)
    requires forall x :: x in xs ==> !x.unique
    ensures LocallyValid(t.(indexes := t.indexes + xs)) <==> LocallyValid(t)
  {
  }

  function Listed(xs: seq<Index>): set<Index> {
    set x | x in xs
  }

  lemma ListedSnoc(xs: seq<Index>, i: nat)
    requires i < |xs|
    ensures Listed(xs[..i + 1]) == Listed(xs[..i]) + {xs[i]}
  {
    assert xs[..i + 1] == xs[..i] + [xs[i]];
  }

  // The plain indexes that the rebuild of a child table creates again.
  function ChildIndexes(n: TableName): seq<Index> {
    if n == PendingClarifications then [Plain([ConversationId])]
    else [Plain([RequestId]), Plain([ConversationId])]
  }

  // A child table as the CREATE TABLE statement of either direction makes it.
  function Bare(n: TableName, composite: bool): Table
    requires n in CHILD_TABLES
  {
    (if composite then CompositeKeyTable(n, map[]) else SingleKeyTable(n, map[])).(indexes := {})
  }

  function Child(n: TableName, composite: bool, t: Table): Table
    requires n in CHILD_TABLES
  {
    var rows := Recopied(t.rows, t.columns);
    if composite then CompositeKeyTable(n, rows) else SingleKeyTable(n, rows)
  }

  lemma ChildIsBarePlusIndexes(n: TableName, composite: bool, t: Table)
    requires n in CHILD_TABLES
    ensures var bare := Bare(n, composite).(rows := Recopied(t.rows, t.columns));
            && bare.indexes == {}
            && Child(n, composite, t) == bare.(indexes := Listed(ChildIndexes(n)))
            && (LocallyValid(bare) <==> LocallyValid(Child(n, composite, t)))
  {
    var bare := Bare(n, composite).(rows := Recopied(t.rows, t.columns));
    assert Listed(ChildIndexes(n)) == Child(n, composite, t).indexes;
    assert bare.indexes + Listed(ChildIndexes(n)) == Listed(ChildIndexes(n));
    PlainIndexesAreNotKeys(bare, Listed(ChildIndexes(n)));
  }

  // The database when the loop has processed some of its tables.
  function ScopedOver(db: Tables, done: set<TableName>): Tables {
    map n | n in db.Keys + {ResourceOwners} ::
      if n == ResourceOwners then OWNERS_TABLE
      else if n in done then ScopedTable(n, db[n])
      else db[n]
  }

  function FirstTables(i: nat): set<TableName>
    requires i <= |OWNED_TABLES|
  {
    set n | n in OWNED_TABLES[..i]
  }

  lemma NextTable(i: nat)
    requires i < |OWNED_TABLES|
    ensures OWNED_TABLES[i] !in FirstTables(i) && OWNED_TABLES[i] != ResourceOwners
    ensures FirstTables(i + 1) == FirstTables(i) + {OWNED_TABLES[i]}
  {
    assert OWNED_TABLES[..i + 1] == OWNED_TABLES[..i] + [OWNED_TABLES[i]];
  }

  lemma ScopedNext(db: Tables, done: set<TableName>, n: TableName)
    requires n in db && n != ResourceOwners && n !in done
    ensures n in ScopedOver(db, done) && ScopedOver(db, done)[n] == db[n]
    ensures ScopedOver(db, done + {n}) == ScopedOver(db, done)[n := ScopedTable(n, db[n])]
  {
    hide ScopedTable;
  }

  lemma ScopedAll(db: Tables)
    requires db.Keys == set n | n in OWNED_TABLES
    ensures ScopedOver(db, FirstTables(|OWNED_TABLES|)) == Scoped(db)
  {
    hide ScopedTable;
    assert OWNED_TABLES[..|OWNED_TABLES|] == OWNED_TABLES;
  }

  // Only the tables that number their rows keep a primary key without the owner.
  predicate PrimariesOwned(db: Tables, after: Tables) {
    forall n :: n in db ==>
      n in after && after[n].primary ==
        (if n in {WorkMemories, PendingClarifications, ResultSnapshots} then [] else [OwnerId]) + db[n].primary
  }

  lemma ScopedPrimaries(db: Tables)
    requires db.Keys == set n | n in OWNED_TABLES
    ensures PrimariesOwned(db, Scoped(db))
  {
    forall n | n in db ensures n != ResourceOwners && n in OWNED_TABLES {
    }
    assert forall columns: seq<Column> :: [] + columns == columns;
  }

  lemma ScopedNone(db: Tables)
    requires ResourceOwners !in db
    ensures ScopedOver(db, FirstTables(0)) == db[ResourceOwners := OWNERS_TABLE]
  {
    hide ScopedTable;
  }

  // A conversation's mode and id.
  type Place = (Value, Value)

  function PlaceOf(r: Row): Place {
    (At(r, RuntimeMode), At(r, ConversationId))
  }

  predicate Covered(snapshots: Rows, order: seq<int>) {
    (forall k :: 0 <= k < |order| ==> order[k] in snapshots) && (forall i :: i in snapshots ==> i in order)
  }

  ghost predicate BestSoFar(snapshots: Rows, done: set<int>, best: map<Place, int>) {
    && (forall p :: p in best ==>
         best[p] in done && best[p] in snapshots && HasError(snapshots[best[p]]) && PlaceOf(snapshots[best[p]]) == p)
    && (forall i :: i in done && i in snapshots && HasError(snapshots[i]) ==>
         PlaceOf(snapshots[i]) in best && !After(snapshots[i], snapshots[best[PlaceOf(snapshots[i])]]))
  }

  lemma FoldIsLatest(snapshots: Rows, done: set<int>, best: map<Place, int>, conversation: Row)
    requires Stamped(snapshots) && BestSoFar(snapshots, done, best)
    requires forall i :: i in snapshots ==> i in done
    ensures PlaceOf(conversation) in best <==> HasFailed(snapshots, conversation)
    ensures HasFailed(snapshots, conversation) ==> best[PlaceOf(conversation)] == LatestFailure(snapshots, conversation)
  {
    if HasFailed(snapshots, conversation) {
      var i :| i in snapshots && FailureOf(snapshots[i], conversation);
      assert PlaceOf(snapshots[i]) == PlaceOf(conversation);
      var b := best[PlaceOf(conversation)];
      forall j | j in Failures(snapshots, conversation) ensures !After(snapshots[j], snapshots[b]) {
        assert PlaceOf(snapshots[j]) == PlaceOf(conversation);
      }
      assert IsLatest(snapshots, Failures(snapshots, conversation), b);
      LatestIsUnique(snapshots, Failures(snapshots, conversation), b, LatestFailure(snapshots, conversation));
    }
    if PlaceOf(conversation) in best {
      var b := best[PlaceOf(conversation)];
      assert PlaceOf(snapshots[b]).0 == PlaceOf(conversation).0 && PlaceOf(snapshots[b]).1 == PlaceOf(conversation).1;
      assert b in snapshots && FailureOf(snapshots[b], conversation);
    }
  }

  // Three child tables rebuilt.
  function Rebuilt(db: Tables, n: TableName, n': TableName, n'': TableName, composite: bool): Tables
    requires {n, n', n''} <= CHILD_TABLES && {n, n', n''} <= db.Keys
  {
    assert n in {n, n', n''} && n' in {n, n', n''} && n'' in {n, n', n''};
    db[n := Child(n, composite, db[n])]
      [n' := Child(n', composite, db[n'])]
      [n'' := Child(n'', composite, db[n''])]
  }

  lemma ChildrenPresent(db: Tables)
    requires db.Keys == BASE_TABLES
    ensures {WorkMemories, ResultSnapshots, PendingClarifications} == CHILD_TABLES <= db.Keys && Conversations in db
    ensures {PendingClarifications, ResultSnapshots, WorkMemories} == CHILD_TABLES
  {
  }

  lemma RekeyedStepByStep(db: Tables)
    requires db.Keys == BASE_TABLES
    ensures Conversations in db
    ensures var a := db[Conversations := db[Conversations].(primary := CONVERSATION_KEY)];
            && {WorkMemories, ResultSnapshots, PendingClarifications} == CHILD_TABLES <= a.Keys
            && (forall n :: n in CHILD_TABLES ==> a[n] == db[n])
            && Rekeyed(db) == Rebuilt(a, WorkMemories, ResultSnapshots, PendingClarifications, true)
  {
    hide CompositeKeyTable, Recopied;
    ChildrenPresent(db);
  }

  lemma RekeyedChild(db: Tables, n: TableName)
    requires db.Keys == BASE_TABLES && n in CHILD_TABLES
    ensures n in Rekeyed(db) && Child(n, true, db[n]) == Rekeyed(db)[n]
  {
    hide CompositeKeyTable, Recopied;
  }

  lemma RekeyedStepsValid(db: Tables)
    requires InSingleKeySchema(db) && AllLocallyValid(db)
    ensures forall n :: n in CHILD_TABLES ==> LocallyValid(Child(n, true, db[n]))
    ensures LocallyValid(db[Conversations].(primary := CONVERSATION_KEY))
  {
    RekeyedValid(db);
    hide LocallyValid, CompositeKeyTable, SingleKeyTable, Recopied, InSingleKeySchema;
    forall n | n in CHILD_TABLES ensures LocallyValid(Child(n, true, db[n])) {
      RekeyedChild(db, n);
    }
    assert LocallyValid(Rekeyed(db)[Conversations]);
  }

  lemma UnkeyedStepByStep(db: Tables)
    requires db.Keys == BASE_TABLES
    ensures Conversations in db
    ensures {PendingClarifications, ResultSnapshots, WorkMemories} == CHILD_TABLES <= db.Keys
    ensures var a := Rebuilt(db, PendingClarifications, ResultSnapshots, WorkMemories, false);
            && Conversations in a && a[Conversations] == db[Conversations]
            && Unkeyed(db) == a[Conversations := db[Conversations].(primary := [ConversationId])]
  {
    hide SingleKeyTable, Recopied;
    ChildrenPresent(db);
  }

  lemma UnkeyedStepsValid(db: Tables)
    requires InCompositeKeySchema(db) && AllLocallyValid(db)
    ensures forall n :: n in CHILD_TABLES ==> LocallyValid(Child(n, false, db[n]))
    ensures LocallyValid(db[Conversations].(primary := [ConversationId])) <==> ModesDisjoint(db)
  {
    hide LocallyValid, CompositeKeyTable, SingleKeyTable, Recopied;
    forall n | n in BASE_TABLES
      ensures n in CHILD_TABLES ==> LocallyValid(Unkeyed(db)[n])
      ensures n == Conversations ==> (LocallyValid(Unkeyed(db)[n]) <==> IdsDistinct(db[n].rows))
    {
      assert LocallyValid(db[n]);
      LocallyValidIsTyped(db[n]);
      UnkeyedTable(db, n);
      SingleTableValid(n, db[n].rows);
    }
    forall n | n in CHILD_TABLES ensures LocallyValid(Child(n, false, db[n])) {
      assert Child(n, false, db[n]) == Unkeyed(db)[n];
    }
    assert db[Conversations].(primary := [ConversationId]) == Unkeyed(db)[Conversations];
  }

  class Database {
    var tables: Tables

    constructor (tables: Tables)
      ensures this.tables == tables
    {
      this.tables := tables;
    }

    // CREATE TABLE, INSERT ... SELECT, DROP, RENAME, then CREATE INDEX for each index.
    method RebuildTable(n: TableName, create: Table, columns: set<Column>, indexes: seq<Index>) returns (ok: bool)
      requires n in tables && create.indexes == {}
      requires forall x :: x in indexes ==> !x.unique
      modifies this
      ensures ok <==> LocallyValid(create.(rows := Recopied(old(tables)[n].rows, columns)))
      ensures ok ==> tables == old(tables)[n := create.(rows := Recopied(old(tables)[n].rows, columns),
                                                       indexes := Listed(indexes))]
    {
      var rebuilt := create.(rows := Recopied(tables[n].rows, columns));
      if !LocallyValid(rebuilt) {
        return false;
      }
      tables := tables[n := rebuilt];
      assert rebuilt == rebuilt.(indexes := Listed(indexes[..0]));
      for i := 0 to |indexes|
        invariant tables == old(tables)[n := rebuilt.(indexes := Listed(indexes[..i]))]
      {
        ListedSnoc(indexes, i);
        tables := tables[n := tables[n].(indexes := tables[n].indexes + {indexes[i]})];
      }
      assert indexes[..|indexes|] == indexes;
      return true;
    }

    // batch_alter_table with a new primary key.
    method ChangePrimaryKey(n: TableName, primary: seq<Column>) returns (ok: bool)
      requires n in tables
      modifies this
      ensures ok <==> LocallyValid(old(tables)[n].(primary := primary))
      ensures ok ==> tables == old(tables)[n := old(tables)[n].(primary := primary)]
    {
      var rekeyed := tables[n].(primary := primary);
      if !LocallyValid(rekeyed) {
        return false;
      }
      tables := tables[n := rekeyed];
      return true;
    }

    method RebuildChild(n: TableName, composite: bool) returns (ok: bool)
      requires n in CHILD_TABLES && n in tables
      modifies this
      ensures ok <==> LocallyValid(Child(n, composite, old(tables)[n]))
      ensures ok ==> tables == old(tables)[n := Child(n, composite, old(tables)[n])]
    {
      ChildIsBarePlusIndexes(n, composite, tables[n]);
      ok := RebuildTable(n, Bare(n, composite), tables[n].columns, ChildIndexes(n));
    }

    // Three rebuilds, one after another.
    method RebuildChildren(n: TableName, n': TableName, n'': TableName, composite: bool) returns (ok: bool)
      requires {n, n', n''} <= CHILD_TABLES && {n, n', n''} <= tables.Keys && n != n' && n != n'' && n' != n''
      modifies this
      ensures ok <==>
                && LocallyValid(Child(n, composite, old(tables)[n]))
                && LocallyValid(Child(n', composite, old(tables)[n']))
                && LocallyValid(Child(n'', composite, old(tables)[n'']))
      ensures ok ==> tables == Rebuilt(old(tables), n, n', n'', composite)
    {
      assert n in {n, n', n''} && n' in {n, n', n''} && n'' in {n, n', n''};
      hide LocallyValid, Child;
      ok := RebuildChild(n, composite);
      if ok {
        ok := RebuildChild(n', composite);
      }
      if ok {
        ok := RebuildChild(n'', composite);
      }
    }

    // 01dc0d90d920, upgrade
    method UpgradeToCompositeKeys() returns (ok: bool)
      requires InSingleKeySchema(tables) && AllLocallyValid(tables)
      modifies this
      ensures ok && tables == Rekeyed(old(tables))
    {
      RekeyedStepByStep(tables);
      RekeyedStepsValid(tables);
      hide *;
      ok := ChangePrimaryKey(Conversations, CONVERSATION_KEY);
      assert ok;
      ok := RebuildChildren(WorkMemories, ResultSnapshots, PendingClarifications, true);
    }

    // 01dc0d90d920, downgrade: children first, then the conversations they refer to.
    method DowngradeToSingleKeys() returns (ok: bool)
      requires InCompositeKeySchema(tables) && AllLocallyValid(tables)
      modifies this
      ensures ok <==> ModesDisjoint(old(tables))
      ensures ok ==> tables == Unkeyed(old(tables))
    {
      UnkeyedStepByStep(tables);
      UnkeyedStepsValid(tables);
      hide *;
      ok := RebuildChildren(PendingClarifications, ResultSnapshots, WorkMemories, false);
      assert ok;
      ok := ChangePrimaryKey(Conversations, [ConversationId]);
    }

    // ab8d7df39a02
    method AddCommittedIndex() returns (ok: bool)
      requires WorkMemories in tables
      requires Typed(tables[WorkMemories]) && tables[WorkMemories].required == MEMORY_REQUIRED
      modifies this
      ensures ok <==> NoDuplicateCommitted(old(tables))
      ensures ok ==> Some(tables) == CommittedIndexUpgrade(old(tables))
      ensures ok ==> HasKey(tables[WorkMemories], Key([RuntimeMode, ConversationId, MemoryVersion],
                                                      Where(StateStatus, Text("committed"))))
      ensures !ok ==> tables == old(tables)
      // nothing but the index list of the memories changes, and the table satisfies what it satisfied before
      ensures tables.Keys == old(tables).Keys
      ensures forall n :: n in tables ==> tables[n] == old(tables)[n].(indexes := tables[n].indexes)
      ensures forall n :: n in tables && n != WorkMemories ==> tables[n] == old(tables)[n]
      ensures ok && LocallyValid(old(tables)[WorkMemories]) ==> LocallyValid(tables[WorkMemories])
    {
      CommittedIndexIff(tables);
      if !Unique(tables[WorkMemories].rows, COMMITTED_KEY) {
        return false;
      }
      tables := Indexed(tables, WorkMemories, {COMMITTED_INDEX});
      return true;
    }

    // ALTER TABLE ... ADD COLUMN: every row gets the default.
    method AddColumn(n: TableName, c: Column, default_: Value, required: bool)
      requires n in tables
      modifies this
      ensures tables == old(tables)[n := WithColumn(old(tables)[n], c, default_, required)]
    {
      var t := tables[n];
      var rest := t.rows.Keys;
      var rows: Rows := map[];
      while exists i :: i in rest
        invariant tables == old(tables) && rest <= t.rows.Keys
        invariant rows == map i | i in t.rows && i !in rest :: t.rows[i][c := default_]
        decreases rest
      {
        var i :| i in rest;
        rest, rows := rest - {i}, rows[i := t.rows[i][c := default_]];
      }
      assert rows == WithColumn(t, c, default_, required).rows;
      var wide := t.(columns := t.columns + {c}, rows := rows);
      if required {
        wide := wide.(required := wide.required + {c});
      }
      tables := tables[n := wide];
    }

    // CREATE INDEX without UNIQUE
    method CreateIndex(n: TableName, columns: seq<Column>)
      requires n in tables
      modifies this
      ensures tables == Indexed(old(tables), n, {Plain(columns)})
    {
      var t := tables[n];
      tables := tables[n := t.(indexes := t.indexes + {Index(columns, false, Everything)})];
    }

    // CREATE TABLE fails on a table that exists.
    method CreateTable(n: TableName, t: Table) returns (ok: bool)
      modifies this
      ensures ok <==> n !in old(tables)
      ensures tables == if ok then old(tables)[n := t] else old(tables)
    {
      ok := n !in tables;
      if ok {
        tables := tables[n := t];
      }
    }

    // f4c3a2b1907d
    method AddArchive()
      requires BASE_TABLES <= tables.Keys
      modifies this
      ensures tables == ArchiveUpgrade(old(tables))
    {
      ghost var before := tables;
      hide WithColumn;
      AddColumn(Conversations, ArchivedAt, Null, false);
      CreateIndex(Conversations, [RuntimeMode, ArchivedAt, UpdatedAt, ConversationId]);
      assert tables == Extended(before, Conversations, ArchivedAt, {RECENT});
      hide Extended;
      CreateIndex(WorkMemories, [RuntimeMode, ConversationId, StateStatus, CreatedAt]);
      CreateIndex(ResultSnapshots, [RuntimeMode, ConversationId, CreatedAt, Id]);
      CreateIndex(ReportArtifacts, [SourceMode, ConversationId, CreatedAt, ReportId]);
    }

    // c8d4e6f2a109
    method AddConversationIntents() returns (ok: bool)
      modifies this
      ensures ok <==> ConversationDeleteIntents !in old(tables)
      ensures tables == if ok then ConversationIntentsUpgrade(old(tables)) else old(tables)
    {
      ok := CreateTable(ConversationDeleteIntents, CONVERSATION_INTENTS);
    }

    // d3b7f9a1c524
    method AddTitles()
      requires Conversations in tables
      modifies this
      ensures tables == TitleUpgrade(old(tables))
    {
      ghost var t := WithColumn(tables[Conversations], Title, Null, false);
      AddColumn(Conversations, Title, Null, false);
      assert WithIndexes(t, {}) == t;
    }

    // e7a9c2d4f631
    method AddReportIntents() returns (ok: bool)
      modifies this
      ensures ok <==> ReportDeleteIntents !in old(tables)
      ensures tables == if ok then ReportIntentsUpgrade(old(tables)) else old(tables)
    {
      ok := CreateTable(ReportDeleteIntents, REPORT_INTENTS);
    }

    // b7c9d2e4f610
    method AddPagination()
      requires ReportPresentations in tables && ReportArtifacts in tables
      modifies this
      ensures tables == PaginationUpgrade(old(tables))
    {
      hide WithColumn;
      AddColumn(ReportPresentations, ArchivedAt, Null, false);
      CreateIndex(ReportPresentations, [SourceMode, ArchivedAt, UpdatedAt, ReportId]);
      CreateIndex(ReportArtifacts, [SourceMode, CreatedAt, ReportId]);
    }

    // The correlated subquery of c2e4f6a8b130: the error of the latest failed snapshot.
    static method LatestError(snapshots: Rows, conversation: Row) returns (error: Option<Value>)
      requires Stamped(snapshots)
      ensures error.Some? <==> HasFailed(snapshots, conversation)
      ensures error.Some? ==> error.value == ErrorType(snapshots[LatestFailure(snapshots, conversation)])
    {
      var rest := snapshots.Keys;
      var best: Option<int> := None;
      while exists i :: i in rest
        invariant rest <= snapshots.Keys
        invariant best.None? ==> forall i :: i in snapshots && i !in rest ==> !FailureOf(snapshots[i], conversation)
        invariant best.Some? ==> IsLatest(snapshots, Failures(snapshots, conversation) - rest, best.value)
        decreases rest
      {
        var i :| i in rest;
        ghost var seen := Failures(snapshots, conversation) - rest;
        rest := rest - {i};
        if FailureOf(snapshots[i], conversation) {
          assert Failures(snapshots, conversation) - rest == seen + {i};
          if best.None? {
            assert forall j :: j !in seen;
            best := Some(i);
          } else {
            LatestExtends(snapshots, seen, i, best.value);
            best := Some(if After(snapshots[i], snapshots[best.value]) then i else best.value);
          }
        } else {
          assert Failures(snapshots, conversation) - rest == seen;
        }
      }
      match best
      case None =>
        error := None;
      case Some(i) =>
        assert FailureOf(snapshots[i], conversation);
        assert Failures(snapshots, conversation) - rest == Failures(snapshots, conversation);
        LatestIsUnique(snapshots, Failures(snapshots, conversation), i, LatestFailure(snapshots, conversation));
        error := Some(ErrorType(snapshots[i]));
    }

    // c2e4f6a8b130: two columns, an index, and one UPDATE over all conversations.
    method BackfillFailures()
      requires Conversations in tables && ResultSnapshots in tables && Stamped(tables[ResultSnapshots].rows)
      modifies this
      ensures tables == FailureUpgrade(old(tables))
      ensures tables[Conversations].rows.Keys == old(tables)[Conversations].rows.Keys
      ensures forall i :: i in tables[Conversations].rows ==>
                Backfilled(old(tables)[ResultSnapshots].rows, tables[Conversations].rows[i])
    {
      var snapshots := tables[ResultSnapshots].rows;
      var wide := WithFailureColumns(tables[Conversations]);
      var marked := wide.rows;
      var rest := wide.rows.Keys;
      while exists c :: c in rest
        invariant tables == old(tables) && rest <= wide.rows.Keys == marked.Keys
        invariant forall c :: c in wide.rows ==>
                    marked[c] == if c in rest then wide.rows[c] else MarkedConversation(snapshots, wide.rows[c])
        decreases rest
      {
        var c :| c in rest;
        rest := rest - {c};
        var error := LatestError(snapshots, marked[c]);
        if error.Some? {
          marked := marked[c := marked[c][ResourceStatus := Text("failed")][LastErrorType := error.value]];
        }
      }
      forall c | c in wide.rows ensures marked[c] == MarkedRows(snapshots, wide.rows)[c] {
        assert c !in rest;
      }
      assert marked.Keys == MarkedRows(snapshots, wide.rows).Keys;
      assert marked == MarkedRows(snapshots, wide.rows);
      forall c | c in tables[Conversations].rows
        ensures c in FailureUpgrade(tables)[Conversations].rows
        ensures Backfilled(snapshots, FailureUpgrade(tables)[Conversations].rows[c])
      {
        FailureUpgradeBackfills(tables, c);
      }
      tables := tables[Conversations := wide.(rows := marked)];
    }

    // The same table built in one pass over the snapshots, in whatever order they come.
    static method FoldFailures(snapshots: Rows, order: seq<int>) returns (best: map<Place, int>)
      requires Stamped(snapshots) && Covered(snapshots, order)
      ensures forall conversation: Row ::
                PlaceOf(conversation) in best <==> HasFailed(snapshots, conversation)
      ensures forall conversation: Row :: HasFailed(snapshots, conversation) ==>
                best[PlaceOf(conversation)] == LatestFailure(snapshots, conversation)
    {
      best := map[];
      ghost var done: set<int> := {};
      for n := 0 to |order|
        invariant done <= snapshots.Keys && (forall k :: 0 <= k < n ==> order[k] in done)
        invariant BestSoFar(snapshots, done, best)
      {
        var i := order[n];
        var p := PlaceOf(snapshots[i]);
        if HasError(snapshots[i]) && (p !in best || After(snapshots[i], snapshots[best[p]])) {
          best := best[p := i];
        }
        done := done + {i};
      }
      forall conversation: Row
        ensures PlaceOf(conversation) in best <==> HasFailed(snapshots, conversation)
        ensures HasFailed(snapshots, conversation) ==>
                  best[PlaceOf(conversation)] == LatestFailure(snapshots, conversation)
      {
        assert forall i :: i in snapshots ==> i in order && i in done;
        FoldIsLatest(snapshots, done, best, conversation);
      }
    }

    // a4f6b8c2d190: one presentation for every artifact.
    method BackfillPresentations()
      requires ReportArtifacts in tables
      modifies this
      ensures tables == PresentationsUpgrade(old(tables))
      ensures AllPresented(old(tables)[ReportArtifacts].rows, tables[ReportPresentations].rows)
    {
      var artifacts := tables[ReportArtifacts].rows;
      var rest := artifacts.Keys;
      var presentations: Rows := map[];
      while exists i :: i in rest
        invariant tables == old(tables) && rest <= artifacts.Keys
        invariant presentations == map i | i in artifacts && i !in rest :: PresentationOf(artifacts[i])
        decreases rest
      {
        var i :| i in rest;
        rest := rest - {i};
        presentations := presentations[i := PresentationOf(artifacts[i])];
      }
      var created := PresentationsTable(map[]).(rows := presentations);
      assert presentations == PresentationsTable(artifacts).rows;
      hide AllPresented;
      FreshlyPresented(artifacts);
      tables := tables[ReportPresentations := created];
    }

    // One iteration of the ownership revision's loop over TABLES.
    method ScopeTable(n: TableName)
      requires n in tables
      modifies this
      ensures tables == old(tables)[n := ScopedTable(n, old(tables)[n])]
    {
      var t := tables[n];
      var scoped := t.(columns := t.columns + {OwnerId}, required := t.required + {OwnerId},
                       rows := ScopedRows(t.rows));
      if CompositePrimary(n) {
        scoped := scoped.(primary := Prefixed(t.primary));
      }
      var uniques, seen := t.uniques, {};
      while exists u :: u in uniques
        invariant uniques <= t.uniques && seen == set u | u in t.uniques && u !in uniques :: Prefixed(u)
        decreases uniques
      {
        var u :| u in uniques;
        uniques, seen := uniques - {u}, seen + {Prefixed(u)};
      }
      assert seen == set u | u in t.uniques :: Prefixed(u);
      scoped := scoped.(uniques := seen);
      var foreigns, scopedForeigns := t.foreigns, {};
      while exists f :: f in foreigns
        invariant foreigns <= t.foreigns
        invariant scopedForeigns == set f | f in t.foreigns && f !in foreigns :: ScopedForeign(f)
        decreases foreigns
      {
        var f :| f in foreigns;
        foreigns, scopedForeigns := foreigns - {f}, scopedForeigns + {ScopedForeign(f)};
      }
      assert scopedForeigns == set f | f in t.foreigns :: ScopedForeign(f);
      scoped := scoped.(foreigns := scopedForeigns + {OWNER_FOREIGN});
      var indexes, scopedIndexes := t.indexes, {};
      while exists x :: x in indexes
        invariant indexes <= t.indexes && scopedIndexes == set x | x in t.indexes && x !in indexes :: ScopedIndex(x)
        decreases indexes
      {
        var x :| x in indexes;
        indexes, scopedIndexes := indexes - {x}, scopedIndexes + {ScopedIndex(x)};
      }
      assert scopedIndexes == set x | x in t.indexes :: ScopedIndex(x);
      scoped := scoped.(indexes := scopedIndexes);
      tables := tables[n := scoped];
    }

    // f63a1b2c3d40: the owners' table, the loop, and the final foreign_key_check.
    method UpgradeOwnership() returns (ok: bool)
      requires tables.Keys == set n | n in OWNED_TABLES
      modifies this
      ensures ok <==> OwnershipUpgrade(old(tables)).Some?
      ensures tables == Scoped(old(tables))
      ensures PrimariesOwned(old(tables), tables)
    {
      ghost var before := tables;
      tables := tables[ResourceOwners := OWNERS_TABLE];
      ScopedNone(before);
      ScopedAll(before);
      ScopedPrimaries(before);
      assert forall i :: 0 <= i < |OWNED_TABLES| ==> OWNED_TABLES[i] in before;
      hide ScopedOver, FirstTables, ScopedTable, Scoped, PrimariesOwned;
      for i := 0 to |OWNED_TABLES|
        invariant tables == ScopedOver(before, FirstTables(i))
      {
        NextTable(i);
        ScopedNext(before, FirstTables(i), OWNED_TABLES[i]);
        ScopeTable(OWNED_TABLES[i]);
      }
      ok := ForeignsHold(tables);
    }
  }
}
