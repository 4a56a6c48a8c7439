/**
 Owners do not see each other: a run of any number of owners over one shared store looks, to
 each owner, exactly like a run of that owner alone.
 */
module OwnerSimulation {
  import opened MemoryStore
  import opened Selections

  function StepOwner(step: Step): string {
    match step
    case Create(key, _) => key.owner
    case Check(tx, _, _, _, _) => tx.owner
    case Write(tx) => tx.owner
    case Lock(tx) => tx.owner
    case Fail(key) => key.owner
  }

  // What the repository of one owner can read: every query it issues asks for its owner_id.
  function OwnRows(store: Store, owner: string): Store {
    map k | k in store && k.owner == owner :: store[k]
  }

  function OwnOpen(open: map<TxId, Ticket>, owner: string): map<TxId, Ticket> {
    map t | t in open && t.owner == owner :: open[t]
  }

  function OwnerView(s: State, owner: string): State {
    State(OwnRows(s.store, owner), OwnOpen(s.open, owner))
  }

  function OwnSteps(steps: seq<Step>, owner: string): seq<Step> {
    if steps == [] then []
    else if StepOwner(steps[0]) == owner then [steps[0]] + OwnSteps(steps[1..], owner)
    else OwnSteps(steps[1..], owner)
  }

  function OwnOutcomes(steps: seq<Step>, outcomes: seq<Outcome>, owner: string): seq<Outcome>
    requires |steps| == |outcomes|
  {
    if steps == [] then []
    else if StepOwner(steps[0]) == owner then [outcomes[0]] + OwnOutcomes(steps[1..], outcomes[1..], owner)
    else OwnOutcomes(steps[1..], outcomes[1..], owner)
  }

  lemma {:induction false} RunLength(s: State, steps: seq<Step>)
    ensures |Run(s, steps).1| == |steps|
    decreases |steps|
  {
    if steps != [] {
      RunLength(Apply(s, steps[0]).0, steps[1..]);
    }
  }

  ghost predicate TicketsOwned(s: State) {
    forall t :: t in s.open ==> s.open[t].key.owner == t.owner
  }

  // The version chain of a conversation lies within its owner's rows.
  lemma OwnChain(store: Store, scope: Scope)
    ensures Latest(OwnRows(store, scope.owner), scope) == Latest(store, scope)
  {
    var own, n := OwnRows(store, scope.owner), Latest(store, scope);
    forall k ensures CommittedIn(own, k, scope) <==> CommittedIn(store, k, scope) {
    }
    if n != 0 {
      var k :| k in store && CommittedIn(store, k, scope) && store[k].version == n;
      assert CommittedIn(own, k, scope) && own[k].version == n;
    }
    assert forall k :: k in own && CommittedIn(own, k, scope) ==> CommittedIn(store, k, scope);
    LatestIs(own, scope, n);
  }

  lemma OwnTaken(store: Store, key: RequestKey, scope: Scope, version: nat)
    ensures Taken(OwnRows(store, scope.owner), key, scope, version) <==> Taken(store, key, scope, version)
  {
    var own := OwnRows(store, scope.owner);
    if Taken(store, key, scope, version) {
      var k :| k in store && k != key && CommittedIn(store, k, scope) && store[k].version == version;
      assert k in own && CommittedIn(own, k, scope);
    }
    if Taken(own, key, scope, version) {
      var k :| k in own && k != key && CommittedIn(own, k, scope) && own[k].version == version;
      assert CommittedIn(store, k, scope);
    }
  }

  lemma OwnUpdate(store: Store, key: RequestKey, m: Memory, owner: string)
    ensures OwnRows(store[key := m], owner) ==
              if key.owner == owner then OwnRows(store, owner)[key := m] else OwnRows(store, owner)
  {
  }

  lemma OwnOpenUpdate(open: map<TxId, Ticket>, tx: TxId, ticket: Ticket, owner: string)
    ensures OwnOpen(open[tx := ticket], owner) ==
              if tx.owner == owner then OwnOpen(open, owner)[tx := ticket] else OwnOpen(open, owner)
    ensures OwnOpen(open - {tx}, owner) ==
              if tx.owner == owner then OwnOpen(open, owner) - {tx} else OwnOpen(open, owner)
  {
  }

  // The state and outcome that one owner sees of a step taken in s.
  ghost predicate Mirrors(s: State, result: (State, Outcome), own: (State, Outcome), mine: bool, owner: string) {
    if mine then own == (OwnerView(result.0, owner), result.1)
    else OwnerView(result.0, owner) == OwnerView(s, owner)
  }

  lemma MirrorCreate(s: State, key: RequestKey, memory: Memory, owner: string)
    ensures Mirrors(s, CreatePending(s, key, memory),
                    CreatePending(OwnerView(s, owner), key, memory), key.owner == owner, owner)
  {
    OwnUpdate(s.store, key, memory.(status := Pending), owner);
  }

  lemma MirrorFail(s: State, key: RequestKey, owner: string)
    ensures Mirrors(s, MarkFailed(s, key), MarkFailed(OwnerView(s, owner), key), key.owner == owner, owner)
  {
    if key in s.store {
      OwnUpdate(s.store, key, s.store[key].(status := Failed), owner);
    }
  }

  lemma MirrorCheck(s: State, tx: TxId, key: RequestKey, claim: Claim, evidence: bool, owner: string)
    requires key.owner == tx.owner
    ensures Mirrors(s, CheckCommit(s, tx, key, claim, evidence),
                    CheckCommit(OwnerView(s, owner), tx, key, claim, evidence), tx.owner == owner, owner)
  {
    OwnChain(s.store, ScopeOf(key, claim.conversation));
    if key in s.store {
      OwnOpenUpdate(s.open, tx, Ticket(key, claim, s.store[key].base + 1), owner);
    }
  }

  lemma MirrorLock(s: State, tx: TxId, owner: string)
    requires TicketsOwned(s)
    ensures Mirrors(s, ResolveLock(s, tx), ResolveLock(OwnerView(s, owner), tx), tx.owner == owner, owner)
  {
    if tx in s.open {
      OwnOpenUpdate(s.open, tx, s.open[tx], owner);
      OwnChain(s.store, ScopeOf(s.open[tx].key, s.open[tx].claim.conversation));
    }
  }

  lemma MirrorWrite(s: State, tx: TxId, owner: string)
    requires TicketsOwned(s)
    ensures Mirrors(s, WriteCommit(s, tx), WriteCommit(OwnerView(s, owner), tx), tx.owner == owner, owner)
  {
    if tx in s.open && s.open[tx].key in s.store {
      var t := s.open[tx];
      var m := s.store[t.key];
      OwnOpenUpdate(s.open, tx, t, owner);
      OwnTaken(s.store, t.key, ScopeOf(t.key, m.conversation), t.target);
      OwnUpdate(s.store, t.key, m.(status := Committed, version := t.target, payload := t.claim.payload), owner);
    }
  }

  /** One step: another owner's is invisible, and one's own does and answers what it would
      have done and answered alone. */
  lemma StepIsSimulated(s: State, step: Step, owner: string)
    requires TicketsOwned(s)
    ensures Mirrors(s, Apply(s, step), Apply(OwnerView(s, owner), step), StepOwner(step) == owner, owner)
    ensures TicketsOwned(Apply(s, step).0)
  {
    TicketsStayOwned(s, step);
    hide Mirrors, TicketsOwned;
    match step
    case Create(key, memory) => MirrorCreate(s, key, memory, owner);
    case Check(tx, mode, request, claim, evidence) =>
      MirrorCheck(s, tx, RequestKey(tx.owner, mode, request), claim, evidence, owner);
    case Write(tx) => MirrorWrite(s, tx, owner);
    case Lock(tx) => MirrorLock(s, tx, owner);
    case Fail(key) => MirrorFail(s, key, owner);
  }

  lemma TicketsStayOwned(s: State, step: Step)
    requires TicketsOwned(s)
    ensures TicketsOwned(Apply(s, step).0)
  {
  }

  // The positions of one owner's steps.
  ghost predicate OwnedAt(steps: seq<Step>, owner: string, at: seq<nat>) {
    && Ascending(at, |steps|)
    && forall i: nat :: i < |steps| ==> (i in at <==> StepOwner(steps[i]) == owner)
  }

  lemma {:induction false} OwnIsPicked(steps: seq<Step>, outcomes: seq<Outcome>, owner: string) returns (at: seq<nat>)
    requires |steps| == |outcomes|
    ensures OwnedAt(steps, owner, at)
    ensures OwnSteps(steps, owner) == Picked(steps, at)
    ensures OwnOutcomes(steps, outcomes, owner) == Picked(outcomes, at)
  {
    if steps == [] {
      at := [];
    } else {
      var rest := OwnIsPicked(steps[1..], outcomes[1..], owner);
      assert steps == [steps[0]] + steps[1..] && outcomes == [outcomes[0]] + outcomes[1..];
      PickedCons(steps[0], steps[1..], rest);
      PickedCons(outcomes[0], outcomes[1..], rest);
      ShiftedMembers(rest);
      at := if StepOwner(steps[0]) == owner then [0] + Shifted(rest) else Shifted(rest);
      hide StepOwner, Shifted;
      assert forall i :: i in at <==> i in Shifted(rest) || (i == 0 && StepOwner(steps[0]) == owner);
      assert forall i: nat :: 0 < i < |steps| ==> steps[i] == steps[1..][i - 1];
    }
  }

  /** Projecting a run of many owners onto one of them gives that owner's own run, with the
      same outcome, conflicts included, at each of its steps. */
  lemma {:induction false} RunIsSimulated(s: State, steps: seq<Step>, owner: string)
    requires TicketsOwned(s)
    ensures |Run(s, steps).1| == |steps|
    ensures Run(OwnerView(s, owner), OwnSteps(steps, owner)) ==
              (OwnerView(Run(s, steps).0, owner), OwnOutcomes(steps, Run(s, steps).1, owner))
    ensures exists at ::
              && OwnedAt(steps, owner, at)
              && OwnSteps(steps, owner) == Picked(steps, at)
              && OwnOutcomes(steps, Run(s, steps).1, owner) == Picked(Run(s, steps).1, at)
    decreases |steps|
  {
    RunLength(s, steps);
    var at := OwnIsPicked(steps, Run(s, steps).1, owner);
    if steps != [] {
      var (s', o) := Apply(s, steps[0]);
      StepIsSimulated(s, steps[0], owner);
      RunIsSimulated(s', steps[1..], owner);
      if StepOwner(steps[0]) == owner {
        var own := OwnSteps(steps, owner);
        assert own[0] == steps[0] && own[1..] == OwnSteps(steps[1..], owner);
      }
    }
  }
}
