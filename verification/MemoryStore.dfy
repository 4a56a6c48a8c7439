/**
 The stored side of the optimistic memory-commit protocol: create_pending, commit and
 mark_failed as the SQLite repository runs them.

 A commit is two steps. Its check reads the row and the latest committed version; its
 write updates the row and leaves the decision to the partial unique index. Any steps of
 other turns may come in between, because SQLite opens a transaction only at the UPDATE.
 A write may also find the database locked, and is then resolved by a fresh read.
 */
module MemoryStore {

  datatype Mode = Mock | Real

  datatype Status = Pending | Committed | Failed

  // The identity of a row: uq_work_memories_runtime_request within one owner.
  datatype RequestKey = RequestKey(owner: string, mode: Mode, request: string)

  datatype Memory = Memory(conversation: string, status: Status, base: nat, version: nat, payload: string)

  type Store = map<RequestKey, Memory>

  // The version chain a row belongs to.
  datatype Scope = Scope(owner: string, mode: Mode, conversation: string)

  function ScopeOf(key: RequestKey, conversation: string): Scope {
    Scope(key.owner, key.mode, conversation)
  }

  predicate CommittedIn(store: Store, key: RequestKey, scope: Scope) {
    key in store && store[key].status == Committed && ScopeOf(key, store[key].conversation) == scope
  }

  // What the partial unique index enforces.
  predicate DistinctVersions(store: Store) {
    forall j, k :: j in store && k in store && j != k
      && store[j].status == Committed && store[k].status == Committed
      && ScopeOf(j, store[j].conversation) == ScopeOf(k, store[k].conversation)
      ==> store[j].version != store[k].version
  }

  // Another committed row already holds this version.
  predicate Taken(store: Store, key: RequestKey, scope: Scope, version: nat) {
    exists k :: k in store && k != key && CommittedIn(store, k, scope) && store[k].version == version
  }

  predicate HasVersion(store: Store, scope: Scope, version: nat) {
    exists k :: k in store && CommittedIn(store, k, scope) && store[k].version == version
  }

  // ORDER BY memory_version DESC LIMIT 1, or 0.
  ghost predicate IsLatest(store: Store, scope: Scope, n: nat) {
    && (forall k :: k in store && CommittedIn(store, k, scope) ==> store[k].version <= n)
    && (n == 0 || HasVersion(store, scope, n))
  }

  lemma {:induction false} LatestExists(store: Store, scope: Scope, keys: set<RequestKey>) returns (n: nat)
    requires keys <= store.Keys
    ensures forall k :: k in keys && CommittedIn(store, k, scope) ==> store[k].version <= n
    ensures n == 0 || HasVersion(store, scope, n)
    decreases keys
  {
    n := 0;
    if k :| k in keys {
      var rest := keys - {k};
      assert forall j :: j in keys ==> j == k || j in rest;
      n := LatestExists(store, scope, rest);
      if CommittedIn(store, k, scope) && store[k].version > n {
        n := store[k].version;
      }
    }
  }

  ghost function Latest(store: Store, scope: Scope): (latest: nat)
    ensures IsLatest(store, scope, latest)
  {
    assert exists n: nat :: IsLatest(store, scope, n) by {
      var n := LatestExists(store, scope, store.Keys);
      assert IsLatest(store, scope, n);
    }
    var n: nat :| IsLatest(store, scope, n);
    n
  }

  lemma LatestIs(store: Store, scope: Scope, n: nat)
    requires IsLatest(store, scope, n)
    ensures Latest(store, scope) == n
  {
  }

  // ----- steps -----

  datatype TxId = TxId(owner: string, n: int)

  // What the caller of commit believes about its own row.
  datatype Claim = Claim(conversation: string, base: nat, payload: string)

  // A commit that passed its check and has not written yet.
  datatype Ticket = Ticket(key: RequestKey, claim: Claim, target: nat)

  datatype State = State(store: Store, open: map<TxId, Ticket>)

  datatype Outcome =
    | Done
    | Proceed
    | Duplicate
    | Denied
    | Conflict
    | Infrastructure
    | Absent

  datatype Step =
    | Create(key: RequestKey, memory: Memory)
    | Check(tx: TxId, mode: Mode, request: string, claim: Claim, evidence: bool)
    | Write(tx: TxId)
    | Lock(tx: TxId)
    | Fail(key: RequestKey)

  // Stored as the caller made it, except for its status.
  function CreatePending(s: State, key: RequestKey, memory: Memory): (State, Outcome) {
    if key in s.store then (s, Duplicate)
    else (s.(store := s.store[key := memory.(status := Pending)]), Done)
  }

  ghost function CheckCommit(s: State, tx: TxId, key: RequestKey, claim: Claim, evidence: bool): (State, Outcome) {
    if key !in s.store || s.store[key].status != Pending || !evidence then (s, Denied)
    else if claim.base != Latest(s.store, ScopeOf(key, claim.conversation)) then (s, Conflict)
    else (s.(open := s.open[tx := Ticket(key, claim, s.store[key].base + 1)]), Proceed)
  }

  // UPDATE ... WHERE id = row.id: it looks at the index, not at the row's status.
  function WriteCommit(s: State, tx: TxId): (State, Outcome) {
    if tx !in s.open || s.open[tx].key !in s.store then (s, Absent)
    else
      var t := s.open[tx];
      var m := s.store[t.key];
      var closed := s.(open := s.open - {tx});
      if Taken(s.store, t.key, ScopeOf(t.key, m.conversation), t.target) then (closed, Conflict)
      else
        var written := m.(status := Committed, version := t.target, payload := t.claim.payload);
        (closed.(store := s.store[t.key := written]), Done)
  }

  // The transaction rolled back; a fresh session reads the latest version again.
  ghost function ResolveLock(s: State, tx: TxId): (State, Outcome) {
    if tx !in s.open then (s, Absent)
    else
      var t := s.open[tx];
      var closed := s.(open := s.open - {tx});
      if Latest(s.store, ScopeOf(t.key, t.claim.conversation)) >= t.target then (closed, Conflict)
      else (closed, Infrastructure)
  }

  // mark_failed does not ask for the row's present status.
  function MarkFailed(s: State, key: RequestKey): (State, Outcome) {
    if key !in s.store then (s, Absent)
    else (s.(store := s.store[key := s.store[key].(status := Failed)]), Done)
  }

  ghost function Apply(s: State, step: Step): (State, Outcome) {
    match step
    case Create(key, memory) => CreatePending(s, key, memory)
    case Check(tx, mode, request, claim, evidence) =>
      CheckCommit(s, tx, RequestKey(tx.owner, mode, request), claim, evidence)
    case Write(tx) => WriteCommit(s, tx)
    case Lock(tx) => ResolveLock(s, tx)
    case Fail(key) => MarkFailed(s, key)
  }

  ghost function Run(s: State, steps: seq<Step>): (State, seq<Outcome>)
    decreases |steps|
  {
    if steps == [] then (s, [])
    else
      var (s', o) := Apply(s, steps[0]);
      var (s'', os) := Run(s', steps[1..]);
      (s'', [o] + os)
  }

  // ----- the index alone: no version is ever committed twice -----

  /** Whatever the steps and their order, the partial unique index keeps every version of a
      conversation committed at most once. */
  lemma {:induction false} VersionsStayDistinct(s: State, steps: seq<Step>)
    requires DistinctVersions(s.store)
    ensures DistinctVersions(Run(s, steps).0.store)
    decreases |steps|
  {
    if steps != [] {
      StepKeepsDistinct(s, steps[0]);
      VersionsStayDistinct(Apply(s, steps[0]).0, steps[1..]);
    }
  }

  lemma StepKeepsDistinct(s: State, step: Step)
    requires DistinctVersions(s.store)
    ensures DistinctVersions(Apply(s, step).0.store)
  {
    if step.Write? && step.tx in s.open && s.open[step.tx].key in s.store {
      var t := s.open[step.tx];
      var scope := ScopeOf(t.key, s.store[t.key].conversation);
      if !Taken(s.store, t.key, scope, t.target) {
        forall k | k in s.store && k != t.key && CommittedIn(s.store, k, scope) ensures s.store[k].version != t.target {
        }
      }
    }
  }

  /** What the write asks is what the index decides: setting a row to committed keeps versions
      distinct if and only if no other committed row of its conversation has that version. */
  lemma TakenIsTheIndex(store: Store, key: RequestKey, m: Memory)
    requires DistinctVersions(store) && m.status == Committed
    ensures DistinctVersions(store[key := m]) <==> !Taken(store, key, ScopeOf(key, m.conversation), m.version)
  {
    var after, scope := store[key := m], ScopeOf(key, m.conversation);
    if k :| k in store && k != key && CommittedIn(store, k, scope) && store[k].version == m.version {
      assert after[k] == store[k] && after[key] == m;
    }
  }

  // ----- the version chain -----

  // The committed versions of a conversation have no gap below them.
  predicate Contiguous(store: Store, scope: Scope) {
    forall k :: k in store && CommittedIn(store, k, scope) ==>
      store[k].version >= 1 && (store[k].version > 1 ==> HasVersion(store, scope, store[k].version - 1))
  }

  ghost predicate AllContiguous(store: Store) {
    forall scope :: Contiguous(store, scope)
  }

  ghost function CommittedKeys(store: Store, scope: Scope): set<RequestKey> {
    set k | k in store && CommittedIn(store, k, scope)
  }

  lemma {:induction false} VersionsBelow(store: Store, scope: Scope, n: nat, v: nat)
    requires Contiguous(store, scope) && HasVersion(store, scope, n) && 1 <= v <= n
    ensures HasVersion(store, scope, v)
    decreases n - v
  {
    if v < n {
      VersionsBelow(store, scope, n, v + 1);
      var k :| k in store && CommittedIn(store, k, scope) && store[k].version == v + 1;
    }
  }

  /** A version is committed exactly when it is one of 1..N, where N is the latest. */
  lemma VersionsAreRange(store: Store, scope: Scope, v: nat)
    requires Contiguous(store, scope)
    ensures HasVersion(store, scope, v) <==> 1 <= v <= Latest(store, scope)
  {
    var n := Latest(store, scope);
    if 1 <= v <= n {
      VersionsBelow(store, scope, n, v);
    }
  }

  // The keys that committed the first n versions.
  ghost function FirstCommitted(store: Store, scope: Scope, n: nat): set<RequestKey> {
    set k | k in store && CommittedIn(store, k, scope) && store[k].version <= n
  }

  lemma NextCommitted(store: Store, scope: Scope, n: nat, key: RequestKey)
    requires DistinctVersions(store) && n > 0
    requires key in store && CommittedIn(store, key, scope) && store[key].version == n
    ensures FirstCommitted(store, scope, n) == FirstCommitted(store, scope, n - 1) + {key}
    ensures key !in FirstCommitted(store, scope, n - 1)
  {
    forall k | k in FirstCommitted(store, scope, n) ensures k in FirstCommitted(store, scope, n - 1) + {key} {
      if k != key {
        assert store[k].version != store[key].version;
      }
    }
  }

  lemma NoneCommittedFirst(store: Store, scope: Scope)
    requires Contiguous(store, scope)
    ensures FirstCommitted(store, scope, 0) == {}
  {
    hide HasVersion;
  }

  lemma {:induction false} FirstCommittedCount(store: Store, scope: Scope, n: nat)
    requires DistinctVersions(store) && Contiguous(store, scope) && n <= Latest(store, scope)
    ensures |FirstCommitted(store, scope, n)| == n
  {
    hide Contiguous, DistinctVersions, CommittedIn, FirstCommitted, IsLatest;
    if n == 0 {
      NoneCommittedFirst(store, scope);
    } else {
      FirstCommittedCount(store, scope, n - 1);
      VersionsAreRange(store, scope, n);
      var key :| key in store && CommittedIn(store, key, scope) && store[key].version == n;
      NextCommitted(store, scope, n, key);
    }
  }

  /** The committed versions of a conversation are exactly 1..N, and as many turns committed
      as there are versions: each version was committed by one turn. */
  lemma OneTurnPerVersion(store: Store, scope: Scope)
    requires DistinctVersions(store) && Contiguous(store, scope)
    ensures forall v: nat :: HasVersion(store, scope, v) <==> 1 <= v <= Latest(store, scope)
    ensures |CommittedKeys(store, scope)| == Latest(store, scope)
  {
    forall v: nat ensures HasVersion(store, scope, v) <==> 1 <= v <= Latest(store, scope) {
      VersionsAreRange(store, scope, v);
    }
    FirstCommittedCount(store, scope, Latest(store, scope));
    assert CommittedKeys(store, scope) == FirstCommitted(store, scope, Latest(store, scope));
  }

  // ----- which steps keep the chain -----

  // What every state of a run satisfies besides: versions follow their base, and tickets
  // follow their row.
  ghost predicate WellFormed(s: State) {
    && (forall k :: k in s.store && s.store[k].status == Committed ==> s.store[k].version == s.store[k].base + 1)
    && (forall t :: t in s.open ==>
         && s.open[t].key in s.store && s.open[t].key.owner == t.owner
         && s.open[t].target == s.store[s.open[t].key].base + 1)
  }

  lemma StepKeepsWellFormed(s: State, step: Step)
    requires WellFormed(s)
    ensures WellFormed(Apply(s, step).0)
  {
    hide Latest, IsLatest, Taken;
  }

  // The steps after which some version is missing below a committed one.
  ghost predicate BreaksChain(s: State, step: Step) {
    match step
    case Write(tx) =>
      && tx in s.open && s.open[tx].key in s.store
      && var t := s.open[tx];
         var m := s.store[t.key];
         var scope := ScopeOf(t.key, m.conversation);
         m.status != Committed && t.target > Latest(s.store, scope) + 1
    case Fail(key) =>
      && key in s.store && s.store[key].status == Committed
      && s.store[key].version < Latest(s.store, ScopeOf(key, s.store[key].conversation))
    case _ => false
  }

  lemma SameCommitted(store: Store, store': Store, scope: Scope)
    requires forall k :: CommittedIn(store', k, scope) <==> CommittedIn(store, k, scope)
    requires forall k :: k in store && k in store' && CommittedIn(store, k, scope) ==>
               store'[k].version == store[k].version
    ensures Contiguous(store', scope) <==> Contiguous(store, scope)
  {
    forall v: nat ensures HasVersion(store', scope, v) <==> HasVersion(store, scope, v) {
      if HasVersion(store, scope, v) {
        var k :| k in store && CommittedIn(store, k, scope) && store[k].version == v;
        assert CommittedIn(store', k, scope);
      }
      if HasVersion(store', scope, v) {
        var k :| k in store' && CommittedIn(store', k, scope) && store'[k].version == v;
        assert CommittedIn(store, k, scope);
      }
    }
  }

  // A row that was not committed becomes version v of its conversation.
  lemma CommitExtendsIff(store: Store, key: RequestKey, m: Memory, scope: Scope)
    requires key in store && store[key].status != Committed && m.status == Committed
    requires m.conversation == store[key].conversation && ScopeOf(key, m.conversation) == scope
    requires Contiguous(store, scope) && m.version >= 1 && !Taken(store, key, scope, m.version)
    ensures Contiguous(store[key := m], scope) <==> m.version <= Latest(store, scope) + 1
    ensures Latest(store, scope) < m.version
  {
    var after, n := store[key := m], Latest(store, scope);
    VersionsAreRange(store, scope, m.version);
    assert !HasVersion(store, scope, m.version);
    forall v: nat ensures HasVersion(after, scope, v) <==> HasVersion(store, scope, v) || v == m.version {
      if HasVersion(store, scope, v) {
        var k :| k in store && CommittedIn(store, k, scope) && store[k].version == v;
        assert k != key && CommittedIn(after, k, scope) && after[k].version == v;
      }
      if v == m.version {
        assert CommittedIn(after, key, scope) && after[key].version == v;
      }
    }
    VersionsAreRange(store, scope, m.version - 1);
    if m.version == n + 1 {
      forall k | k in after && CommittedIn(after, k, scope)
        ensures after[k].version >= 1 && (after[k].version > 1 ==> HasVersion(after, scope, after[k].version - 1))
      {
        if k != key {
          assert CommittedIn(store, k, scope);
        }
      }
    } else {
      assert CommittedIn(after, key, scope) && !HasVersion(after, scope, m.version - 1);
    }
  }

  lemma VersionsWithout(store: Store, key: RequestKey, m: Memory, scope: Scope, v: nat)
    requires key in store && CommittedIn(store, key, scope) && m.status != Committed && DistinctVersions(store)
    ensures HasVersion(store[key := m], scope, v) <==> HasVersion(store, scope, v) && v != store[key].version
  {
    var after := store[key := m];
    if HasVersion(store, scope, v) && v != store[key].version {
      var k :| k in store && CommittedIn(store, k, scope) && store[k].version == v;
      assert k != key && CommittedIn(after, k, scope) && after[k].version == v;
    }
    if HasVersion(after, scope, v) {
      var k :| k in after && CommittedIn(after, k, scope) && after[k].version == v;
      assert k != key && CommittedIn(store, k, scope) && store[k].version == v;
    }
  }

  lemma UncommitIff(store: Store, key: RequestKey, m: Memory, scope: Scope)
    requires key in store && store[key].status == Committed && m.status != Committed
    requires ScopeOf(key, store[key].conversation) == scope
    requires DistinctVersions(store) && Contiguous(store, scope)
    ensures Contiguous(store[key := m], scope) <==> store[key].version == Latest(store, scope)
  {
    var after, n, v0 := store[key := m], Latest(store, scope), store[key].version;
    assert CommittedIn(store, key, scope);
    forall v: nat ensures HasVersion(after, scope, v) <==> HasVersion(store, scope, v) && v != v0 {
      VersionsWithout(store, key, m, scope, v);
    }
    if v0 == n {
      forall k | k in after && CommittedIn(after, k, scope)
        ensures after[k].version >= 1 && (after[k].version > 1 ==> HasVersion(after, scope, after[k].version - 1))
      {
        assert k != key && CommittedIn(store, k, scope);
      }
    } else {
      VersionsAreRange(store, scope, v0 + 1);
      assert HasVersion(after, scope, v0 + 1) && !HasVersion(after, scope, v0);
    }
  }

  // A row whose committed version does not change leaves every chain alone.
  lemma SameVersionsOfRow(store: Store, key: RequestKey, m: Memory)
    requires key in store && m.conversation == store[key].conversation
    requires (m.status == Committed) == (store[key].status == Committed)
    requires m.status == Committed ==> m.version == store[key].version
    requires AllContiguous(store)
    ensures AllContiguous(store[key := m])
  {
    var after := store[key := m];
    forall scope ensures Contiguous(after, scope) {
      assert Contiguous(store, scope);
      SameCommitted(store, after, scope);
    }
  }

  // Updating a row can disturb only its own chain.
  lemma OwnScopeDecides(store: Store, key: RequestKey, m: Memory)
    requires key in store && m.conversation == store[key].conversation && AllContiguous(store)
    ensures AllContiguous(store[key := m]) <==> Contiguous(store[key := m], ScopeOf(key, m.conversation))
  {
    var after := store[key := m];
    if Contiguous(after, ScopeOf(key, m.conversation)) {
      forall scope ensures Contiguous(after, scope) {
        if scope != ScopeOf(key, m.conversation) {
          assert Contiguous(store, scope);
          SameCommitted(store, after, scope);
        }
      }
    }
  }

  lemma FreshPending(store: Store, key: RequestKey, m: Memory)
    requires key !in store && m.status == Pending && AllContiguous(store)
    ensures AllContiguous(store[key := m])
  {
    var after := store[key := m];
    forall scope ensures Contiguous(after, scope) {
      assert Contiguous(store, scope);
      SameCommitted(store, after, scope);
    }
  }

  lemma AcceptedWriteKeepsIff(store: Store, key: RequestKey, m: Memory, scope: Scope)
    requires DistinctVersions(store) && AllContiguous(store)
    requires key in store && m.conversation == store[key].conversation && scope == ScopeOf(key, m.conversation)
    requires m.status == Committed && m.version >= 1 && !Taken(store, key, scope, m.version)
    requires store[key].status == Committed ==> store[key].version == m.version
    ensures AllContiguous(store[key := m]) <==>
              store[key].status == Committed || m.version <= Latest(store, scope) + 1
  {
    if store[key].status == Committed {
      SameVersionsOfRow(store, key, m);
    } else {
      assert Contiguous(store, scope);
      CommitExtendsIff(store, key, m, scope);
      OwnScopeDecides(store, key, m);
    }
  }

  lemma WriteKeepsIff(s: State, tx: TxId)
    requires DistinctVersions(s.store) && AllContiguous(s.store) && WellFormed(s) && tx in s.open
    ensures AllContiguous(WriteCommit(s, tx).0.store) <==> !BreaksChain(s, Write(tx))
  {
    var t := s.open[tx];
    var m := s.store[t.key];
    var scope := ScopeOf(t.key, m.conversation);
    var written := m.(status := Committed, version := t.target, payload := t.claim.payload);
    if Taken(s.store, t.key, scope, t.target) {
      assert WriteCommit(s, tx).0.store == s.store;
      var k :| k in s.store && k != t.key && CommittedIn(s.store, k, scope) && s.store[k].version == t.target;
      assert s.store[k].version <= Latest(s.store, scope);
    } else {
      assert WriteCommit(s, tx).0.store == s.store[t.key := written];
      AcceptedWriteKeepsIff(s.store, t.key, written, scope);
    }
  }

  lemma FailedRowKeepsIff(store: Store, key: RequestKey, scope: Scope)
    requires DistinctVersions(store) && AllContiguous(store)
    requires key in store && scope == ScopeOf(key, store[key].conversation)
    ensures AllContiguous(store[key := store[key].(status := Failed)]) <==>
              (store[key].status == Committed ==> store[key].version >= Latest(store, scope))
  {
    var failed := store[key].(status := Failed);
    if store[key].status == Committed {
      assert CommittedIn(store, key, scope) && Contiguous(store, scope);
      UncommitIff(store, key, failed, scope);
      OwnScopeDecides(store, key, failed);
    } else {
      SameVersionsOfRow(store, key, failed);
    }
  }

  /** A single step keeps every version chain free of gaps exactly when it is neither a write
      that skips a version nor a mark_failed on a committed turn below the latest. */
  lemma ChainKeptIff(s: State, step: Step)
    requires DistinctVersions(s.store) && AllContiguous(s.store) && WellFormed(s)
    ensures AllContiguous(Apply(s, step).0.store) <==> !BreaksChain(s, step)
  {
    hide AllContiguous, DistinctVersions;
    match step
    case Create(key, memory) =>
      CreateKeeps(s, key, memory);
    case Check(tx, mode, request, claim, evidence) =>
      assert CheckCommit(s, tx, RequestKey(tx.owner, mode, request), claim, evidence).0.store == s.store;
    case Lock(tx) =>
      assert ResolveLock(s, tx).0.store == s.store;
    case Write(tx) =>
      if tx in s.open {
        WriteKeepsIff(s, tx);
      }
    case Fail(key) =>
      FailKeepsIff(s, key);
  }

  lemma CreateKeeps(s: State, key: RequestKey, memory: Memory)
    requires AllContiguous(s.store)
    ensures AllContiguous(CreatePending(s, key, memory).0.store)
  {
    if key !in s.store {
      FreshPending(s.store, key, memory.(status := Pending));
    }
  }

  lemma FailKeepsIff(s: State, key: RequestKey)
    requires DistinctVersions(s.store) && AllContiguous(s.store)
    ensures AllContiguous(MarkFailed(s, key).0.store) <==> !BreaksChain(s, Fail(key))
  {
    if key in s.store {
      FailedRowKeepsIff(s.store, key, ScopeOf(key, s.store[key].conversation));
    }
  }

  // Two committed turns of one conversation.
  function TwoTurns(): State {
    State(map[RequestKey("o", Real, "a") := Memory("c", Committed, 0, 1, ""),
              RequestKey("o", Real, "bb") := Memory("c", Committed, 1, 2, "")], map[])
  }

  lemma TwoTurnsInOrder()
    ensures DistinctVersions(TwoTurns().store) && AllContiguous(TwoTurns().store) && WellFormed(TwoTurns())
    ensures BreaksChain(TwoTurns(), Fail(RequestKey("o", Real, "a")))
  {
    var s := TwoTurns();
    var a, b := RequestKey("o", Real, "a"), RequestKey("o", Real, "bb");
    assert |a.request| != |b.request|;
    var scope := Scope("o", Real, "c");
    assert CommittedIn(s.store, a, scope) && s.store[a].version == 1;
    assert CommittedIn(s.store, b, scope) && s.store[b].version == 2;
  }

  /** mark_failed on an earlier committed turn does break a chain. */
  lemma MarkFailedCanBreakChain()
    ensures DistinctVersions(TwoTurns().store) && AllContiguous(TwoTurns().store) && WellFormed(TwoTurns())
    ensures !AllContiguous(Apply(TwoTurns(), Fail(RequestKey("o", Real, "a"))).0.store)
  {
    TwoTurnsInOrder();
    hide AllContiguous, DistinctVersions, WellFormed, Apply, TwoTurns;
    ChainKeptIff(TwoTurns(), Fail(RequestKey("o", Real, "a")));
  }

  // ----- which steps leave a failed row failed -----

  // The write that turns a failed row into a committed one.
  predicate Overwrites(s: State, step: Step, key: RequestKey)
    requires key in s.store
  {
    && step.Write? && step.tx in s.open && s.open[step.tx].key == key
    && !Taken(s.store, key, ScopeOf(key, s.store[key].conversation), s.open[step.tx].target)
  }

  /** A failed row stays failed after a step if and only if the step is not the accepted write
      of a commit that was checked before the row was marked. */
  lemma FailedStaysIff(s: State, step: Step, key: RequestKey)
    requires key in s.store && s.store[key].status == Failed
    ensures key in Apply(s, step).0.store
    ensures Apply(s, step).0.store[key].status == Failed <==> !Overwrites(s, step, key)
  {
    hide Taken, Latest;
    if step.Write? && step.tx in s.open && s.open[step.tx].key in s.store {
      assert s.open[step.tx].key != key ==> Apply(s, step).0.store[key] == s.store[key];
    }
  }

  predicate NoTicketOn(s: State, key: RequestKey) {
    forall t :: t in s.open ==> s.open[t].key != key
  }

  lemma NoTicketStays(s: State, step: Step, key: RequestKey)
    requires key in s.store && s.store[key].status == Failed && NoTicketOn(s, key)
    ensures NoTicketOn(Apply(s, step).0, key)
  {
    hide Taken, Latest;
  }

  /** With no open ticket on it, a failed row stays failed under any steps of any callers. */
  lemma {:induction false} FailedForGood(s: State, steps: seq<Step>, key: RequestKey)
    requires key in s.store && s.store[key].status == Failed && NoTicketOn(s, key)
    ensures key in Run(s, steps).0.store && Run(s, steps).0.store[key].status == Failed
    decreases |steps|
  {
    if steps != [] {
      FailedStaysIff(s, steps[0], key);
      NoTicketStays(s, steps[0], key);
      hide Apply, Overwrites, NoTicketOn;
      FailedForGood(Apply(s, steps[0]).0, steps[1..], key);
    }
  }

  /** A mark_failed that arrives between the check and the write of a commit is overwritten:
      the write asks the index, not the row's status. */
  lemma WriteOverridesMarkFailed(s: State, tx: TxId, key: RequestKey, claim: Claim)
    requires key.owner == tx.owner && CheckCommit(s, tx, key, claim, true).1 == Proceed
    requires claim.conversation == s.store[key].conversation && claim.base == s.store[key].base
    ensures var checked := CheckCommit(s, tx, key, claim, true).0;
            var (written, o) := WriteCommit(MarkFailed(checked, key).0, tx);
            o == Done && written.store[key].status == Committed && written.store[key].version == claim.base + 1
  {
    var scope := ScopeOf(key, claim.conversation);
    var failed := MarkFailed(CheckCommit(s, tx, key, claim, true).0, key).0;
    forall k | CommittedIn(failed.store, k, scope)
      ensures failed.store[k].version != claim.base + 1
    {
      assert k != key && CommittedIn(s.store, k, scope);
    }
  }
}
