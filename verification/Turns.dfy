/**
 Turns that follow the pipeline: read the latest committed version, create a pending row on
 it, commit in two steps, and mark the row failed if the commit was refused. Any number of
 turns interleave in any order.
 */
module Turns {
  import opened MemoryStore

  datatype Stage =
    | Start
    | Looked(base: nat)
    | Opened(base: nat)
    | Holding(base: nat)
    | Locked(base: nat)
    | Won(version: nat)
    | Losing(base: nat, why: Outcome)
    | Lost
    | Refused
    | Stalled(base: nat)

  // A turn stores a draft when it begins and its full payload when it commits.
  datatype Turn = Turn(key: RequestKey, conversation: string, draft: string, payload: string, stage: Stage)

  datatype System = System(core: State, turns: map<int, Turn>)

  datatype Event =
    | Look(n: int)
    | Open(n: int)
    | Abandon(n: int)
    | Ask(n: int, evidence: bool)
    | Put(n: int)
    | Block(n: int)
    | Reread(n: int)
    | Mark(n: int)

  function ChainOf(t: Turn): Scope {
    ScopeOf(t.key, t.conversation)
  }

  function TxOf(n: int, t: Turn): TxId {
    TxId(t.key.owner, n)
  }

  function ClaimOf(t: Turn, base: nat): Claim {
    Claim(t.conversation, base, t.payload)
  }

  // The row a turn creates on the version it read.
  function NewRow(t: Turn, base: nat): Memory {
    Memory(t.conversation, Pending, base, 0, t.draft)
  }

  function Moved(sys: System, core: State, n: int, stage: Stage): System
    requires n in sys.turns
  {
    System(core, sys.turns[n := sys.turns[n].(stage := stage)])
  }

  // An event that its turn is not ready for does nothing.
  ghost function Next(sys: System, e: Event): System {
    if e.n !in sys.turns then sys
    else
      var t := sys.turns[e.n];
      var tx := TxOf(e.n, t);
      match (e, t.stage)
      case (Look(n), Start) =>
        Moved(sys, sys.core, n, Looked(Latest(sys.core.store, ChainOf(t))))
      case (Open(n), Looked(base)) =>
        var (core, o) := CreatePending(sys.core, t.key, NewRow(t, base));
        Moved(sys, core, n, if o == Done then Opened(base) else Refused)
      case (Abandon(n), Opened(base)) =>
        Moved(sys, MarkFailed(sys.core, t.key).0, n, Lost)
      case (Ask(n, evidence), Opened(base)) =>
        var (core, o) := CheckCommit(sys.core, tx, t.key, ClaimOf(t, base), evidence);
        Moved(sys, core, n, if o == Proceed then Holding(base) else Losing(base, o))
      case (Put(n), Holding(base)) =>
        var (core, o) := WriteCommit(sys.core, tx);
        Moved(sys, core, n, if o == Done then Won(base + 1) else Losing(base, o))
      case (Block(n), Holding(base)) =>
        Moved(sys, sys.core, n, Locked(base))
      case (Reread(n), Locked(base)) =>
        var (core, o) := ResolveLock(sys.core, tx);
        Moved(sys, core, n, if o == Infrastructure then Stalled(base) else Losing(base, o))
      case (Mark(n), Losing(_, _)) =>
        Moved(sys, MarkFailed(sys.core, t.key).0, n, Lost)
      case (Mark(n), Stalled(_)) =>
        Moved(sys, MarkFailed(sys.core, t.key).0, n, Lost)
      case _ => sys
  }

  ghost function After(sys: System, events: seq<Event>): System
    decreases |events|
  {
    if events == [] then sys else After(Next(sys, events[0]), events[1..])
  }

  // ----- the invariant -----

  // The turn's own row is in the store.
  predicate Owns(t: Turn) {
    !t.stage.Start? && !t.stage.Looked? && !t.stage.Refused?
  }

  predicate PendingAt(store: Store, t: Turn, base: nat) {
    t.key in store && store[t.key] == Memory(t.conversation, Pending, base, 0, t.draft)
  }

  predicate WonAt(store: Store, t: Turn, version: nat) {
    && version >= 1 && t.key in store
    && store[t.key] == Memory(t.conversation, Committed, version - 1, version, t.payload)
  }

  predicate LostAt(store: Store, t: Turn) {
    && t.key in store
    && store[t.key] == Memory(t.conversation, Failed, store[t.key].base, 0, t.draft)
  }

  ghost predicate TurnOk(s: State, n: int, t: Turn) {
    match t.stage
    case Start => true
    case Refused => true
    case Looked(base) => base <= Latest(s.store, ChainOf(t))
    case Opened(base) => PendingAt(s.store, t, base) && base <= Latest(s.store, ChainOf(t))
    case Holding(base) =>
      && PendingAt(s.store, t, base) && base <= Latest(s.store, ChainOf(t))
      && TxOf(n, t) in s.open && s.open[TxOf(n, t)] == Ticket(t.key, ClaimOf(t, base), base + 1)
    case Locked(base) =>
      && PendingAt(s.store, t, base) && base <= Latest(s.store, ChainOf(t))
      && TxOf(n, t) in s.open && s.open[TxOf(n, t)] == Ticket(t.key, ClaimOf(t, base), base + 1)
    case Stalled(base) => PendingAt(s.store, t, base)
    case Losing(base, why) =>
      PendingAt(s.store, t, base) && (why == Conflict ==> HasVersion(s.store, ChainOf(t), base + 1))
    case Won(version) => WonAt(s.store, t, version)
    case Lost => LostAt(s.store, t)
  }

  ghost predicate StoreOk(s: State) {
    DistinctVersions(s.store) && AllContiguous(s.store) && WellFormed(s)
  }

  ghost predicate TurnsOk(sys: System) {
    forall n :: n in sys.turns ==> TurnOk(sys.core, n, sys.turns[n])
  }

  // No two turns own the same row.
  predicate RowsApart(turns: map<int, Turn>) {
    forall m, n :: m in turns && n in turns && m != n && Owns(turns[m]) && Owns(turns[n])
      ==> turns[m].key != turns[n].key
  }

  ghost predicate Inv(sys: System) {
    StoreOk(sys.core) && TurnsOk(sys) && RowsApart(sys.turns)
  }

  // Nothing committed is ever taken back, and chains only grow.
  ghost predicate Keeps(s: State, s': State) {
    && (forall k :: k in s.store && s.store[k].status == Committed ==> k in s'.store && s'.store[k] == s.store[k])
    && (forall scope :: Latest(s.store, scope) <= Latest(s'.store, scope))
  }

  lemma CommittedGrows(s: State, s': State)
    requires forall k :: k in s.store && s.store[k].status == Committed ==> k in s'.store && s'.store[k] == s.store[k]
    ensures Keeps(s, s')
    ensures forall scope, v :: HasVersion(s.store, scope, v) ==> HasVersion(s'.store, scope, v)
  {
    forall scope, v | HasVersion(s.store, scope, v) ensures HasVersion(s'.store, scope, v) {
      var k :| k in s.store && CommittedIn(s.store, k, scope) && s.store[k].version == v;
      assert CommittedIn(s'.store, k, scope);
    }
    forall scope ensures Latest(s.store, scope) <= Latest(s'.store, scope) {
      var n := Latest(s.store, scope);
      if n != 0 {
        var k :| k in s'.store && CommittedIn(s'.store, k, scope) && s'.store[k].version == n;
      }
    }
  }

  // A step that touches the row of one turn and the transaction of one turn only.
  ghost predicate OwnStep(s: State, s': State, key: RequestKey, n: int) {
    && (forall k :: k in s.store && (k != key || s.store[k].status == Committed) ==>
         k in s'.store && s'.store[k] == s.store[k])
    && (forall tx :: tx in s.open && tx.n != n ==> tx in s'.open && s'.open[tx] == s.open[tx])
  }

  lemma OwnStepKeeps(s: State, s': State, key: RequestKey, n: int)
    requires OwnStep(s, s', key, n)
    ensures Keeps(s, s')
    ensures forall scope, v :: HasVersion(s.store, scope, v) ==> HasVersion(s'.store, scope, v)
  {
    CommittedGrows(s, s');
  }

  // The other turns stay as they are.
  lemma BystanderOk(s: State, s': State, key: RequestKey, n: int, m: int, t: Turn)
    requires TurnOk(s, m, t) && OwnStep(s, s', key, n) && m != n
    requires Owns(t) ==> t.key != key || s'.store == s.store
    ensures TurnOk(s', m, t)
  {
    OwnStepKeeps(s, s', key, n);
  }

  lemma OwnerHasRow(s: State, n: int, t: Turn)
    requires TurnOk(s, n, t) && Owns(t)
    ensures t.key in s.store
  {
  }

  // A turn may come to own a row that is its own already or that nobody has.
  predicate MayOwn(sys: System, n: int)
    requires n in sys.turns
  {
    Owns(sys.turns[n]) || sys.turns[n].key !in sys.core.store
  }

  lemma OthersKeyDiffers(sys: System, n: int, m: int)
    requires TurnsOk(sys) && RowsApart(sys.turns)
    requires n in sys.turns && m in sys.turns && m != n && MayOwn(sys, n) && Owns(sys.turns[m])
    ensures sys.turns[m].key != sys.turns[n].key
  {
    hide TurnOk;
    OwnerHasRow(sys.core, m, sys.turns[m]);
  }

  lemma MoveKeepsRowsApart(sys: System, n: int, stage: Stage)
    requires TurnsOk(sys) && RowsApart(sys.turns) && n in sys.turns
    requires MayOwn(sys, n) || !Owns(sys.turns[n].(stage := stage))
    ensures RowsApart(sys.turns[n := sys.turns[n].(stage := stage)])
  {
    var after := sys.turns[n := sys.turns[n].(stage := stage)];
    if Owns(after[n]) {
      forall m | m in sys.turns && m != n && Owns(sys.turns[m]) ensures sys.turns[m].key != sys.turns[n].key {
        OthersKeyDiffers(sys, n, m);
      }
    }
    hide TurnsOk, TurnOk;
    forall l, m | l in after && m in after && l != m && Owns(after[l]) && Owns(after[m])
      ensures after[l].key != after[m].key
    {
    }
  }

  lemma MoveKeepsTurnsOk(sys: System, core: State, n: int, stage: Stage)
    requires TurnsOk(sys) && RowsApart(sys.turns) && n in sys.turns
    requires OwnStep(sys.core, core, sys.turns[n].key, n)
    requires TurnOk(core, n, sys.turns[n].(stage := stage))
    requires MayOwn(sys, n) || core.store == sys.core.store
    ensures TurnsOk(Moved(sys, core, n, stage))
  {
    var sys' := Moved(sys, core, n, stage);
    forall m | m in sys'.turns ensures TurnOk(core, m, sys'.turns[m]) {
      hide TurnOk, OwnStep;
      if m != n {
        if Owns(sys.turns[m]) && MayOwn(sys, n) {
          OthersKeyDiffers(sys, n, m);
        }
        BystanderOk(sys.core, core, sys.turns[n].key, n, m, sys.turns[m]);
      }
    }
  }

  lemma TurnMoves(sys: System, core: State, n: int, stage: Stage)
    requires Inv(sys) && n in sys.turns && StoreOk(core)
    requires OwnStep(sys.core, core, sys.turns[n].key, n)
    requires TurnOk(core, n, sys.turns[n].(stage := stage))
    requires MayOwn(sys, n) || (core.store == sys.core.store && !Owns(sys.turns[n].(stage := stage)))
    ensures Inv(Moved(sys, core, n, stage))
  {
    hide TurnsOk, RowsApart, StoreOk, TurnOk, OwnStep;
    MoveKeepsRowsApart(sys, n, stage);
    MoveKeepsTurnsOk(sys, core, n, stage);
  }

  lemma InvOfTurn(sys: System, n: int)
    requires Inv(sys) && n in sys.turns
    ensures StoreOk(sys.core) && TurnOk(sys.core, n, sys.turns[n])
  {
    hide TurnOk, StoreOk, RowsApart;
  }

  // Every step that does not break a chain keeps the store in order.
  lemma StepKeepsStoreOk(s: State, step: Step)
    requires StoreOk(s) && !BreaksChain(s, step)
    ensures StoreOk(Apply(s, step).0)
  {
    StepKeepsDistinct(s, step);
    ChainKeptIff(s, step);
    StepKeepsWellFormed(s, step);
  }

  // ----- the moves -----

  lemma LookKeepsInv(sys: System, n: int)
    requires Inv(sys) && n in sys.turns && sys.turns[n].stage.Start?
    ensures Inv(Next(sys, Look(n))) && OwnStep(sys.core, Next(sys, Look(n)).core, sys.turns[n].key, n)
  {
    TurnMoves(sys, sys.core, n, Looked(Latest(sys.core.store, ChainOf(sys.turns[n]))));
  }

  lemma StoreOkRange(s: State, scope: Scope, v: nat)
    requires StoreOk(s)
    ensures HasVersion(s.store, scope, v) <==> 1 <= v <= Latest(s.store, scope)
  {
    assert Contiguous(s.store, scope);
    VersionsAreRange(s.store, scope, v);
  }

  // What a move does to its own turn: the store stays in order, the step touches only the
  // turn's row and transaction, and the turn is as its new stage says.
  ghost predicate MoveOk(s: State, s': State, n: int, t: Turn, stage: Stage) {
    StoreOk(s') && OwnStep(s, s', t.key, n) && TurnOk(s', n, t.(stage := stage))
  }

  lemma OpenOk(s: State, n: int, t: Turn)
    requires StoreOk(s) && TurnOk(s, n, t) && t.stage.Looked?
    ensures var (core, o) := CreatePending(s, t.key, NewRow(t, t.stage.base));
            && MoveOk(s, core, n, t, if o == Done then Opened(t.stage.base) else Refused)
            && (o == Done <==> t.key !in s.store) && (o != Done ==> core == s)
  {
    hide StoreOk;
    var (core, o) := CreatePending(s, t.key, NewRow(t, t.stage.base));
    StepKeepsStoreOk(s, Create(t.key, NewRow(t, t.stage.base)));
    OwnStepKeeps(s, core, t.key, n);
  }

  lemma OpenKeepsInv(sys: System, n: int)
    requires Inv(sys) && n in sys.turns && sys.turns[n].stage.Looked?
    ensures Inv(Next(sys, Open(n))) && OwnStep(sys.core, Next(sys, Open(n)).core, sys.turns[n].key, n)
  {
    hide StoreOk;
    var t := sys.turns[n];
    assert TurnOk(sys.core, n, t);
    OpenOk(sys.core, n, t);
    var (core, o) := CreatePending(sys.core, t.key, NewRow(t, t.stage.base));
    hide TurnsOk, RowsApart, TurnOk, OwnStep, CreatePending;
    TurnMoves(sys, core, n, if o == Done then Opened(t.stage.base) else Refused);
  }

  lemma FailOk(s: State, n: int, t: Turn, base: nat)
    requires StoreOk(s) && PendingAt(s.store, t, base)
    ensures MoveOk(s, MarkFailed(s, t.key).0, n, t, Lost)
  {
    hide StoreOk;
    StepKeepsStoreOk(s, Fail(t.key));
  }

  lemma FailKeepsInv(sys: System, n: int, t: Turn, base: nat)
    requires Inv(sys) && n in sys.turns && t == sys.turns[n] && Owns(t) && PendingAt(sys.core.store, t, base)
    ensures Inv(Moved(sys, MarkFailed(sys.core, t.key).0, n, Lost))
    ensures OwnStep(sys.core, MarkFailed(sys.core, t.key).0, t.key, n)
  {
    FailOk(sys.core, n, t, base);
    hide StoreOk, TurnsOk, RowsApart, TurnOk, OwnStep, MarkFailed;
    TurnMoves(sys, MarkFailed(sys.core, t.key).0, n, Lost);
  }

  lemma AskOk(s: State, n: int, t: Turn, evidence: bool)
    requires StoreOk(s) && TurnOk(s, n, t) && t.stage.Opened?
    ensures var base := t.stage.base;
            var (core, o) := CheckCommit(s, TxOf(n, t), t.key, ClaimOf(t, base), evidence);
            MoveOk(s, core, n, t, if o == Proceed then Holding(base) else Losing(base, o))
  {
    hide StoreOk;
    var base := t.stage.base;
    StoreOkRange(s, ChainOf(t), base + 1);
    assert RequestKey(t.key.owner, t.key.mode, t.key.request) == t.key;
    StepKeepsStoreOk(s, Check(TxOf(n, t), t.key.mode, t.key.request, ClaimOf(t, base), evidence));
  }

  lemma AskKeepsInv(sys: System, n: int, evidence: bool)
    requires Inv(sys) && n in sys.turns && sys.turns[n].stage.Opened?
    ensures Inv(Next(sys, Ask(n, evidence))) && OwnStep(sys.core, Next(sys, Ask(n, evidence)).core, sys.turns[n].key, n)
  {
    hide StoreOk;
    var t := sys.turns[n];
    var base := t.stage.base;
    assert TurnOk(sys.core, n, t);
    AskOk(sys.core, n, t, evidence);
    var (core, o) := CheckCommit(sys.core, TxOf(n, t), t.key, ClaimOf(t, base), evidence);
    hide TurnsOk, RowsApart, TurnOk, OwnStep, CheckCommit;
    TurnMoves(sys, core, n, if o == Proceed then Holding(base) else Losing(base, o));
  }

  /** A write is accepted exactly when the turn's base is still the latest version, and
      refused exactly when another turn has committed the version it wanted: the partial
      unique index alone decides, at the moment of the write. */
  lemma WriteAcceptedIff(s: State, n: int, t: Turn)
    requires StoreOk(s) && TurnOk(s, n, t) && (t.stage.Holding? || t.stage.Locked?)
    ensures WriteCommit(s, TxOf(n, t)).1 == Done <==> Latest(s.store, ChainOf(t)) == t.stage.base
    ensures WriteCommit(s, TxOf(n, t)).1 == Conflict <==> HasVersion(s.store, ChainOf(t), t.stage.base + 1)
    ensures WriteCommit(s, TxOf(n, t)).1 == Done || WriteCommit(s, TxOf(n, t)).1 == Conflict
  {
    hide StoreOk;
    var base := t.stage.base;
    StoreOkRange(s, ChainOf(t), base + 1);
    if HasVersion(s.store, ChainOf(t), base + 1) {
      var k :| k in s.store && CommittedIn(s.store, k, ChainOf(t)) && s.store[k].version == base + 1;
      assert k != t.key;
    }
  }

  function PutStage(base: nat, o: Outcome): Stage {
    if o == Done then Won(base + 1) else Losing(base, o)
  }

  lemma PutOk(s: State, n: int, t: Turn)
    requires StoreOk(s) && TurnOk(s, n, t) && t.stage.Holding?
    ensures var (core, o) := WriteCommit(s, TxOf(n, t));
            MoveOk(s, core, n, t, PutStage(t.stage.base, o))
  {
    hide StoreOk;
    var (core, o) := WriteCommit(s, TxOf(n, t));
    WriteAcceptedIff(s, n, t);
    StepKeepsStoreOk(s, Write(TxOf(n, t)));
    hide Taken, Latest;
    OwnStepKeeps(s, core, t.key, n);
  }

  lemma PutIs(sys: System, n: int)
    requires n in sys.turns && sys.turns[n].stage.Holding?
    ensures var (core, o) := WriteCommit(sys.core, TxOf(n, sys.turns[n]));
            Next(sys, Put(n)) == Moved(sys, core, n, PutStage(sys.turns[n].stage.base, o))
  {
    hide WriteCommit, Moved;
  }

  lemma MoveKeepsInv(sys: System, core: State, n: int, stage: Stage)
    requires Inv(sys) && n in sys.turns && Owns(sys.turns[n]) && MoveOk(sys.core, core, n, sys.turns[n], stage)
    ensures Inv(Moved(sys, core, n, stage)) && OwnStep(sys.core, core, sys.turns[n].key, n)
    ensures Moved(sys, core, n, stage).core == core
  {
    hide TurnsOk, RowsApart, TurnOk, OwnStep, StoreOk;
    TurnMoves(sys, core, n, stage);
  }

  lemma PutKeepsInv(sys: System, n: int)
    requires Inv(sys) && n in sys.turns && sys.turns[n].stage.Holding?
    ensures Inv(Next(sys, Put(n))) && OwnStep(sys.core, Next(sys, Put(n)).core, sys.turns[n].key, n)
  {
    var t := sys.turns[n];
    assert Owns(t);
    hide *;
    InvOfTurn(sys, n);
    PutOk(sys.core, n, t);
    PutIs(sys, n);
    var (core, o) := WriteCommit(sys.core, TxOf(n, t));
    MoveKeepsInv(sys, core, n, PutStage(t.stage.base, o));
  }

  /** A write that met a lock has rolled back when the latest version is read again, and is then
      reported as a conflict exactly when the index would refuse it at the moment of that read. */
  lemma LockConflictIff(s: State, n: int, t: Turn)
    requires StoreOk(s) && TurnOk(s, n, t) && t.stage.Locked?
    ensures ResolveLock(s, TxOf(n, t)).1 == Conflict <==> WriteCommit(s, TxOf(n, t)).1 == Conflict
    ensures ResolveLock(s, TxOf(n, t)).1 == Conflict || ResolveLock(s, TxOf(n, t)).1 == Infrastructure
  {
    hide StoreOk;
    WriteAcceptedIff(s, n, t);
    StoreOkRange(s, ChainOf(t), t.stage.base + 1);
  }

  lemma BlockKeepsInv(sys: System, n: int)
    requires Inv(sys) && n in sys.turns && sys.turns[n].stage.Holding?
    ensures Inv(Next(sys, Block(n))) && OwnStep(sys.core, Next(sys, Block(n)).core, sys.turns[n].key, n)
  {
    hide StoreOk;
    var t := sys.turns[n];
    assert TurnOk(sys.core, n, t);
    hide TurnsOk, RowsApart;
    TurnMoves(sys, sys.core, n, Locked(t.stage.base));
  }

  lemma RereadOk(s: State, n: int, t: Turn)
    requires StoreOk(s) && TurnOk(s, n, t) && t.stage.Locked?
    ensures var (core, o) := ResolveLock(s, TxOf(n, t));
            MoveOk(s, core, n, t, if o == Infrastructure then Stalled(t.stage.base) else Losing(t.stage.base, o))
  {
    hide StoreOk;
    var (core, o) := ResolveLock(s, TxOf(n, t));
    LockConflictIff(s, n, t);
    WriteAcceptedIff(s, n, t);
    StepKeepsStoreOk(s, Lock(TxOf(n, t)));
    assert core.store == s.store;
  }

  lemma RereadKeepsInv(sys: System, n: int)
    requires Inv(sys) && n in sys.turns && sys.turns[n].stage.Locked?
    ensures Inv(Next(sys, Reread(n))) && OwnStep(sys.core, Next(sys, Reread(n)).core, sys.turns[n].key, n)
  {
    hide StoreOk;
    var t := sys.turns[n];
    assert TurnOk(sys.core, n, t);
    RereadOk(sys.core, n, t);
    var (core, o) := ResolveLock(sys.core, TxOf(n, t));
    hide TurnsOk, RowsApart, TurnOk, OwnStep, ResolveLock;
    TurnMoves(sys, core, n, if o == Infrastructure then Stalled(t.stage.base) else Losing(t.stage.base, o));
  }

  lemma AbandonKeepsInv(sys: System, n: int)
    requires Inv(sys) && n in sys.turns && sys.turns[n].stage.Opened?
    ensures Inv(Next(sys, Abandon(n))) && OwnStep(sys.core, Next(sys, Abandon(n)).core, sys.turns[n].key, n)
  {
    assert TurnOk(sys.core, n, sys.turns[n]);
    FailKeepsInv(sys, n, sys.turns[n], sys.turns[n].stage.base);
  }

  lemma MarkIsLost(sys: System, n: int)
    requires n in sys.turns && (sys.turns[n].stage.Losing? || sys.turns[n].stage.Stalled?)
    ensures Next(sys, Mark(n)) == Moved(sys, MarkFailed(sys.core, sys.turns[n].key).0, n, Lost)
  {
    hide MarkFailed, Moved;
  }

  lemma MarkedIsPending(sys: System, n: int)
    requires Inv(sys) && n in sys.turns && (sys.turns[n].stage.Losing? || sys.turns[n].stage.Stalled?)
    ensures Owns(sys.turns[n]) && PendingAt(sys.core.store, sys.turns[n], sys.turns[n].stage.base)
  {
    hide StoreOk, RowsApart, PendingAt, HasVersion, CommittedIn;
    assert TurnOk(sys.core, n, sys.turns[n]);
  }

  lemma MarkKeepsInv(sys: System, n: int)
    requires Inv(sys) && n in sys.turns && (sys.turns[n].stage.Losing? || sys.turns[n].stage.Stalled?)
    ensures Inv(Next(sys, Mark(n))) && OwnStep(sys.core, Next(sys, Mark(n)).core, sys.turns[n].key, n)
  {
    hide *;
    MarkIsLost(sys, n);
    MarkedIsPending(sys, n);
    FailKeepsInv(sys, n, sys.turns[n], sys.turns[n].stage.base);
    MovedCore(sys, MarkFailed(sys.core, sys.turns[n].key).0, n, Lost);
  }

  lemma MovedCore(sys: System, core: State, n: int, stage: Stage)
    requires n in sys.turns
    ensures Moved(sys, core, n, stage).core == core
  {
  }

  lemma NextKeepsInv(sys: System, e: Event)
    requires Inv(sys)
    ensures Inv(Next(sys, e))
    ensures e.n in sys.turns ==> OwnStep(sys.core, Next(sys, e).core, sys.turns[e.n].key, e.n)
    ensures e.n !in sys.turns ==> Next(sys, e) == sys
  {
    if e.n in sys.turns {
      var t := sys.turns[e.n];
      assert TurnOk(sys.core, e.n, t);
      assert OwnStep(sys.core, sys.core, t.key, e.n);
      hide Inv, TurnOk, OwnStep;
      match (e, t.stage)
      case (Look(n), Start) => LookKeepsInv(sys, n);
      case (Open(n), Looked(base)) => OpenKeepsInv(sys, n);
      case (Abandon(n), Opened(base)) => AbandonKeepsInv(sys, n);
      case (Ask(n, evidence), Opened(base)) => AskKeepsInv(sys, n, evidence);
      case (Put(n), Holding(base)) => PutKeepsInv(sys, n);
      case (Block(n), Holding(base)) => BlockKeepsInv(sys, n);
      case (Reread(n), Locked(base)) => RereadKeepsInv(sys, n);
      case (Mark(n), Losing(base, why)) => MarkKeepsInv(sys, n);
      case (Mark(n), Stalled(base)) => MarkKeepsInv(sys, n);
      case _ =>
    }
  }

  // ----- whole runs -----

  // Any store with unbroken chains, and turns that have not begun.
  ghost predicate Fresh(sys: System) {
    StoreOk(sys.core) && forall n :: n in sys.turns ==> sys.turns[n].stage.Start?
  }

  /** In every interleaving of any number of turns the invariant holds after every event. */
  lemma {:induction false} RunKeepsInv(sys: System, events: seq<Event>)
    requires Inv(sys)
    ensures Inv(After(sys, events))
    decreases |events|
  {
    if events != [] {
      NextKeepsInv(sys, events[0]);
      RunKeepsInv(Next(sys, events[0]), events[1..]);
    }
  }

  lemma FreshIsInv(sys: System)
    requires Fresh(sys)
    ensures Inv(sys)
  {
  }

  /** In every interleaving the committed versions of each conversation stay exactly 1..N,
      each committed by one turn. */
  lemma VersionsOfRun(sys: System, events: seq<Event>, scope: Scope)
    requires Fresh(sys)
    ensures var store := After(sys, events).core.store;
            && (forall v: nat :: HasVersion(store, scope, v) <==> 1 <= v <= Latest(store, scope))
            && |CommittedKeys(store, scope)| == Latest(store, scope)
  {
    FreshIsInv(sys);
    RunKeepsInv(sys, events);
    var store := After(sys, events).core.store;
    assert DistinctVersions(store) && Contiguous(store, scope);
    OneTurnPerVersion(store, scope);
  }

  /** A committed row is never changed again, by any turn in any order. */
  lemma {:induction false} CommitsAreFinal(sys: System, events: seq<Event>, key: RequestKey)
    requires Inv(sys) && key in sys.core.store && sys.core.store[key].status == Committed
    ensures key in After(sys, events).core.store
    ensures After(sys, events).core.store[key] == sys.core.store[key]
    decreases |events|
  {
    if events != [] {
      NextKeepsInv(sys, events[0]);
      CommitsAreFinal(Next(sys, events[0]), events[1..], key);
    }
  }

  lemma NextKeepsFailed(sys: System, e: Event, key: RequestKey)
    requires Inv(sys) && key in sys.core.store && sys.core.store[key].status == Failed
    ensures key in Next(sys, e).core.store && Next(sys, e).core.store[key].status == Failed
  {
    if e.n in sys.turns {
      InvOfTurn(sys, e.n);
      hide Inv, Latest, Taken, HasVersion, CommittedIn, StoreOk;
    }
  }

  /** A failed row stays failed: turns that follow the pipeline never make the write that could undo it. */
  lemma {:induction false} FailuresAreFinal(sys: System, events: seq<Event>, key: RequestKey)
    requires Inv(sys) && key in sys.core.store && sys.core.store[key].status == Failed
    ensures key in After(sys, events).core.store && After(sys, events).core.store[key].status == Failed
    decreases |events|
  {
    hide Next, Inv;
    if events != [] {
      NextKeepsInv(sys, events[0]);
      NextKeepsFailed(sys, events[0], key);
      FailuresAreFinal(Next(sys, events[0]), events[1..], key);
    }
  }

  predicate SameTurns(turns: map<int, Turn>, turns': map<int, Turn>) {
    forall n :: n in turns ==> n in turns' && turns'[n].(stage := turns[n].stage) == turns[n]
  }

  lemma NextKeepsTurns(sys: System, e: Event)
    ensures SameTurns(sys.turns, Next(sys, e).turns)
  {
    hide CreatePending, CheckCommit, WriteCommit, ResolveLock, MarkFailed, Latest;
  }

  lemma NextKeepsVersion(sys: System, e: Event, scope: Scope, v: nat)
    requires Inv(sys) && HasVersion(sys.core.store, scope, v)
    ensures HasVersion(Next(sys, e).core.store, scope, v)
  {
    NextKeepsInv(sys, e);
    hide Next, Inv, HasVersion, OwnStep;
    if e.n in sys.turns {
      OwnStepKeeps(sys.core, Next(sys, e).core, sys.turns[e.n].key, e.n);
    }
  }

  lemma SameTurnsTransitive(a: map<int, Turn>, b: map<int, Turn>, c: map<int, Turn>)
    requires SameTurns(a, b) && SameTurns(b, c)
    ensures SameTurns(a, c)
  {
  }

  /** Versions, once committed, stay committed, and turns keep their row and conversation. */
  lemma {:induction false} VersionsStay(sys: System, events: seq<Event>, scope: Scope, v: nat)
    requires Inv(sys)
    ensures HasVersion(sys.core.store, scope, v) ==> HasVersion(After(sys, events).core.store, scope, v)
    ensures SameTurns(sys.turns, After(sys, events).turns)
    decreases |events|
  {
    hide Next, Inv, HasVersion;
    if events != [] {
      var next := Next(sys, events[0]);
      hide SameTurns;
      NextKeepsInv(sys, events[0]);
      NextKeepsTurns(sys, events[0]);
      if HasVersion(sys.core.store, scope, v) {
        NextKeepsVersion(sys, events[0], scope, v);
      }
      VersionsStay(next, events[1..], scope, v);
      SameTurnsTransitive(sys.turns, next.turns, After(sys, events).turns);
    }
  }

  /** Between the lock and the later read other turns may commit. A write the index would have
      refused at the lock is reported as a conflict; one it would have accepted is so exactly
      when its version was committed in between. */
  lemma LockedThenReread(sys: System, events: seq<Event>, n: int)
    requires Inv(sys) && n in sys.turns && sys.turns[n].stage.Locked?
    requires n in After(sys, events).turns && After(sys, events).turns[n].stage == sys.turns[n].stage
    ensures
      var later, t := After(sys, events), sys.turns[n];
      ResolveLock(later.core, TxOf(n, t)).1 == Conflict <==>
        || WriteCommit(sys.core, TxOf(n, t)).1 == Conflict
        || (!HasVersion(sys.core.store, ChainOf(t), t.stage.base + 1)
            && HasVersion(later.core.store, ChainOf(t), t.stage.base + 1))
  {
    var later, t := After(sys, events), sys.turns[n];
    RunKeepsInv(sys, events);
    VersionsStay(sys, events, ChainOf(t), t.stage.base + 1);
    assert later.turns[n] == t;
    InvOfTurn(sys, n);
    InvOfTurn(later, n);
    WriteAcceptedIff(sys.core, n, t);
    WriteAcceptedIff(later.core, n, t);
    LockConflictIff(later.core, n, t);
    hide After, WriteCommit, ResolveLock, TurnOk, HasVersion, TurnsOk;
  }

  /** No update is lost: two turns of one conversation that both won committed different
      versions, so turns that began at the same version have at most one winner; and a turn
      refused with a conflict was refused because the version after its base is committed. */
  lemma RaceIsDecided(sys: System, m: int, n: int)
    requires Inv(sys) && m in sys.turns && n in sys.turns
    ensures (m != n && ChainOf(sys.turns[m]) == ChainOf(sys.turns[n])
             && sys.turns[m].stage.Won? && sys.turns[n].stage.Won?)
            ==> sys.turns[m].stage.version != sys.turns[n].stage.version
    ensures (sys.turns[m].stage.Losing? && sys.turns[m].stage.why == Conflict)
            ==> HasVersion(sys.core.store, ChainOf(sys.turns[m]), sys.turns[m].stage.base + 1)
  {
    hide AllContiguous, WellFormed;
    assert TurnOk(sys.core, m, sys.turns[m]) && TurnOk(sys.core, n, sys.turns[n]);
  }
}
