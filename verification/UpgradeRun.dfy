/**
 The whole upgrade as one run over a stored database.
 */
module UpgradeRun {
  import opened Options
  import opened Relational
  import opened Ownership
  import opened Schemas
  import opened Revisions
  import opened UpgradeChain
  import opened DeclaredSchema
  import opened Migrations

  lemma ArchiveKeys(db: Tables)
    requires db.Keys == BASE_TABLES
    ensures ArchiveUpgrade(db).Keys == BASE_TABLES
    ensures ArchiveUpgrade(db)[ResultSnapshots].rows == db[ResultSnapshots].rows
  {
  }

  // The tables there are just before the failure backfill and the ownership loop.
  lemma MiddleKeys(archived: Tables)
    requires archived.Keys == BASE_TABLES
    ensures var titled := TitleUpgrade(ConversationIntentsUpgrade(archived));
            var db := PaginationUpgrade(PresentationsUpgrade(ReportIntentsUpgrade(titled)));
            && db.Keys == (set n | n in OWNED_TABLES)
            && db[ResultSnapshots].rows == archived[ResultSnapshots].rows
  {
  }

  // Everything the failure backfill starts from.
  function BeforeFailures(indexed: Tables): Tables
    requires indexed.Keys == BASE_TABLES
  {
    ArchiveKeys(indexed);
    MiddleTables(ArchiveUpgrade(indexed));
    var titled := TitleUpgrade(ConversationIntentsUpgrade(ArchiveUpgrade(indexed)));
    PaginationUpgrade(PresentationsUpgrade(ReportIntentsUpgrade(titled)))
  }

  method UpgradeToPagination(db: Database)
    requires db.tables.Keys == BASE_TABLES
    modifies db
    ensures db.tables == BeforeFailures(old(db.tables))
  {
    ghost var indexed := db.tables;
    ArchiveKeys(indexed);
    MiddleTables(ArchiveUpgrade(indexed));
    hide ArchiveUpgrade, ConversationIntentsUpgrade, TitleUpgrade, ReportIntentsUpgrade, PresentationsUpgrade;
    hide PaginationUpgrade, AllPresented;
    db.AddArchive();
    var ok := db.AddConversationIntents();
    assert ok;
    db.AddTitles();
    ok := db.AddReportIntents();
    assert ok;
    db.BackfillPresentations();
    db.AddPagination();
  }

  lemma BeforeFailuresFacts(indexed: Tables)
    requires indexed.Keys == BASE_TABLES
    ensures var db := BeforeFailures(indexed);
            && db.Keys == (set n | n in OWNED_TABLES)
            && Conversations in db && ResultSnapshots in db
            && db[ResultSnapshots].rows == indexed[ResultSnapshots].rows
            && FailureUpgrade(db) == Widened(indexed)
  {
    ArchiveKeys(indexed);
    MiddleKeys(ArchiveUpgrade(indexed));
    MiddleTables(ArchiveUpgrade(indexed));
    assert Conversations in OWNED_TABLES && ResultSnapshots in OWNED_TABLES;
    hide ArchiveUpgrade, ConversationIntentsUpgrade, TitleUpgrade, ReportIntentsUpgrade, PresentationsUpgrade;
    hide PaginationUpgrade, FailureUpgrade;
  }

  method UpgradeFromIndexed(db: Database) returns (ok: bool)
    requires db.tables.Keys == BASE_TABLES && Stamped(db.tables[ResultSnapshots].rows)
    modifies db
    ensures ok <==> OwnershipUpgrade(Widened(old(db.tables))).Some?
    ensures db.tables == Scoped(Widened(old(db.tables)))
  {
    ghost var indexed := db.tables;
    FailureKeys(BeforeFailures(indexed));
    BeforeFailuresFacts(indexed);
    hide BeforeFailures, FailureUpgrade, Widened, Scoped, OwnershipUpgrade, Backfilled, PrimariesOwned, Stamped;
    UpgradeToPagination(db);
    db.BackfillFailures();
    ok := db.UpgradeOwnership();
  }

  lemma FailureKeys(db: Tables)
    ensures Conversations in db && ResultSnapshots in db ==> FailureUpgrade(db).Keys == db.Keys
  {
  }

  lemma IndexedFacts(keyed: Tables, indexed: Tables)
    requires keyed.Keys == BASE_TABLES && CommittedIndexUpgrade(keyed) == Some(indexed)
    ensures indexed.Keys == BASE_TABLES && indexed[ResultSnapshots].rows == keyed[ResultSnapshots].rows
    ensures ChainFrom(keyed) == OwnershipUpgrade(Widened(indexed))
  {
    hide Unique, Widened, OwnershipUpgrade;
  }

  method UpgradeFromKeyed(db: Database) returns (ok: bool)
    requires db.tables.Keys == BASE_TABLES && Stamped(db.tables[ResultSnapshots].rows)
    requires Typed(db.tables[WorkMemories]) && db.tables[WorkMemories].required == MEMORY_REQUIRED
    modifies db
    ensures ok <==> ChainFrom(old(db.tables)).Some?
    ensures ok ==> ChainFrom(old(db.tables)) == Some(db.tables)
  {
    ghost var keyed := db.tables;
    KeyedDecides(keyed);
    assert WorkMemories in keyed && ResultSnapshots in keyed;
    hide *;
    ok := db.AddCommittedIndex();
    if ok {
      IndexedFacts(keyed, db.tables);
      ok := UpgradeFromIndexed(db);
    }
  }

  lemma KeyedFacts(db: Tables)
    requires InSingleKeySchema(db) && AllLocallyValid(db)
    ensures Rekeyed(db).Keys == BASE_TABLES
    ensures Chain(db) == ChainFrom(Rekeyed(db))
    ensures Rekeyed(db)[ResultSnapshots].rows == db[ResultSnapshots].rows
    ensures Typed(Rekeyed(db)[WorkMemories]) && Rekeyed(db)[WorkMemories].required == MEMORY_REQUIRED
  {
    UpgradeKeepsRows(db);
    KeyedReady(Rekeyed(db));
    assert LocallyValid(Rekeyed(db)[WorkMemories]);
    hide InSingleKeySchema, InCompositeKeySchema, AllLocallyValid, CompositeUpgrade, ChainFrom;
  }

  // Which tables there are before each of the additive revisions.
  lemma MiddleTables(archived: Tables)
    requires archived.Keys == BASE_TABLES
    ensures ConversationDeleteIntents !in archived
    ensures var a := ConversationIntentsUpgrade(archived);
            && Conversations in a && ReportDeleteIntents !in TitleUpgrade(a)
            && var b := ReportIntentsUpgrade(TitleUpgrade(a));
               && ReportArtifacts in b && ReportArtifacts in PresentationsUpgrade(b)
               && ReportPresentations in PresentationsUpgrade(b)
  {
  }

  // The committed-version revision fails only on duplicates, and then so does the chain.
  lemma KeyedDecides(keyed: Tables)
    requires keyed.Keys == BASE_TABLES
    requires Typed(keyed[WorkMemories]) && keyed[WorkMemories].required == MEMORY_REQUIRED
    ensures NoDuplicateCommitted(keyed) <==> CommittedIndexUpgrade(keyed).Some?
    ensures !NoDuplicateCommitted(keyed) ==> ChainFrom(keyed).None?
  {
    CommittedIndexIff(keyed);
    hide NoDuplicateCommitted, Unique, Typed, Widened, OwnershipUpgrade;
  }

  // What a successful upgrade leaves behind.
  ghost predicate Upgraded(before: Tables, after: Tables) {
    && Valid(after) && TargetsKeyed(after) && KeptAsLegacy(before, after)
    && InMigratedSchema(after) && OwnedKeys(after)
    && ConversationsBackfilled(before, after)
    && ReportArtifacts in before && ReportPresentations in after
    && AllPresented(before[ReportArtifacts].rows, after[ReportPresentations].rows)
  }

  // Owners have their own keys, and among them their own committed versions.
  ghost predicate OwnedKeys(after: Tables) {
    && (forall n, k :: n in after && n != ResourceOwners && HasKey(after[n], k) ==>
         [OwnerId] <= k.columns || (k == Key([Id], Everything) && n in NUMBERED_TABLES))
    && WorkMemories in after && HasKey(after[WorkMemories], DECLARED_COMMITTED)
  }

  ghost predicate ConversationsBackfilled(before: Tables, after: Tables) {
    && Conversations in before && ResultSnapshots in before && Conversations in after
    && forall i :: i in before[Conversations].rows ==>
         && i in after[Conversations].rows
         && Backfilled(before[ResultSnapshots].rows, after[Conversations].rows[i])
  }

  lemma MigratedKeys(after: Tables)
    requires InMigratedSchema(after)
    ensures OwnedKeys(after)
  {
    hide AsMigrated, HasKey;
    CommittedVersionsKeyed(after[WorkMemories], DECLARED_COMMITTED);
    forall n, k | n in after && n != ResourceOwners && HasKey(after[n], k)
      ensures [OwnerId] <= k.columns || (k == Key([Id], Everything) && n in NUMBERED_TABLES)
    {
      KeysStartWithOwner(n, after[n], k);
    }
  }

  lemma AllTables(after: Tables)
    requires InMigratedSchema(after)
    ensures forall n: TableName :: n in after
  {
  }

  lemma AllBackfilled(db: Tables)
    requires InSingleKeySchema(db) && AllLocallyValid(db) && Chain(db).Some?
    ensures ConversationsBackfilled(db, Chain(db).value)
  {
    SingleKeyTables(db);
    hide AllLocallyValid, InSingleKeySchema, Chain, AsMigrated, Backfilled, InMigratedSchema;
    ChainEndsInDeclaredSchema(db);
    AllTables(Chain(db).value);
    forall i | i in db[Conversations].rows
      ensures i in Chain(db).value[Conversations].rows
      ensures Backfilled(db[ResultSnapshots].rows, Chain(db).value[Conversations].rows[i])
    {
      ChainBackfills(db, i);
    }
  }

  lemma ChainUpgrades(db: Tables)
    requires InSingleKeySchema(db) && AllLocallyValid(db) && Chain(db).Some?
    ensures Upgraded(db, Chain(db).value)
  {
    var after := Chain(db).value;
    hide InSingleKeySchema, AllLocallyValid, Chain, Valid, TargetsKeyed, KeptAsLegacy, InMigratedSchema, OwnedKeys;
    hide ConversationsBackfilled, AllPresented;
    ChainSucceedsIff(db);
    ChainKeepsRows(db);
    ChainEndsInDeclaredSchema(db);
    MigratedKeys(after);
    AllBackfilled(db);
    ChainPresents(db);
  }

  /** Running every revision in order succeeds exactly on the databases that ChainSucceedsIff
      names, and ends in the database that the chain describes. */
  method UpgradeToOwnership(db: Database) returns (ok: bool)
    requires InSingleKeySchema(db.tables) && AllLocallyValid(db.tables)
    requires Stamped(db.tables[ResultSnapshots].rows)
    modifies db
    ensures ok <==> NoDuplicateCommitted(old(db.tables)) && SameModeParents(old(db.tables))
    ensures ok ==> Chain(old(db.tables)) == Some(db.tables)
    ensures ok ==> Upgraded(old(db.tables), db.tables)
  {
    ghost var before := db.tables;
    ChainSucceedsIff(before);
    UpgradeKeepsRows(before);
    KeyedFacts(before);
    if Chain(before).Some? {
      ChainUpgrades(before);
    }
    hide *;
    ok := db.UpgradeToCompositeKeys();
    ok := UpgradeFromKeyed(db);
  }
}
