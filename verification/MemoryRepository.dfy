/**
 The in-memory repository: the same interface under one lock, with a dictionary by request
 and a second one by conversation. Its atomic commit and the two-step SQLite commit decide
 alike.
 */
module MemoryRepository {
  import opened MemoryStore
  import Turns

  // Commit as one step: check and write at once.
  ghost function CommitAtOnce(store: Store, key: RequestKey, claim: Claim, evidence: bool): (Store, Outcome) {
    if key !in store || store[key].status != Pending || !evidence then (store, Denied)
    else if claim.base != Latest(store, ScopeOf(key, store[key].conversation)) then (store, Conflict)
    else
      (store[key := store[key].(status := Committed, version := store[key].base + 1, payload := claim.payload)], Done)
  }

  class InMemoryMemoryRepository {
    const owner: string
    var byRequest: Store
    var byConversation: map<string, set<RequestKey>>

    // The two dictionaries hold the same memories, all of them the owner's.
    predicate Valid()
      reads this
    {
      && (forall k :: k in byRequest ==> k.owner == owner)
      && (forall k :: k in byRequest ==>
           byRequest[k].conversation in byConversation && k in byConversation[byRequest[k].conversation])
      && (forall c, k :: c in byConversation && k in byConversation[c] ==>
           k in byRequest && byRequest[k].conversation == c)
    }

    constructor (owner: string)
      ensures Valid() && byRequest == map[] && this.owner == owner
    {
      this.owner := owner;
      byRequest := map[];
      byConversation := map[];
    }

    method CreatePending(mode: Mode, request: string, memory: Memory) returns (o: Outcome)
      requires Valid()
      modifies this
      ensures Valid()
      ensures (byRequest, o) ==
                var key := RequestKey(owner, mode, request);
                var (s, answer) := MemoryStore.CreatePending(State(old(byRequest), map[]), key, memory);
                (s.store, answer)
    {
      var key := RequestKey(owner, mode, request);
      if key in byRequest {
        return Duplicate;
      }
      var conversation := memory.conversation;
      byRequest := byRequest[key := memory.(status := Pending)];
      if conversation !in byConversation {
        byConversation := byConversation[conversation := {}];
      }
      byConversation := byConversation[conversation := byConversation[conversation] + {key}];
      return Done;
    }

    // The latest committed version in a conversation, other than by the asking request.
    method LatestOther(mode: Mode, conversation: string, self: RequestKey) returns (latest: nat)
      requires Valid() && self.owner == owner && self.mode == mode
      requires self in byRequest && byRequest[self].status != Committed
      ensures latest == Latest(byRequest, Scope(owner, mode, conversation))
    {
      latest := 0;
      ghost var scope := Scope(owner, mode, conversation);
      var rest := if conversation in byConversation then byConversation[conversation] else {};
      while exists k :: k in rest
        invariant rest <= (if conversation in byConversation then byConversation[conversation] else {})
        invariant forall k :: k in byRequest && CommittedIn(byRequest, k, scope) && k !in rest ==>
                    byRequest[k].version <= latest
        invariant latest == 0 || HasVersion(byRequest, scope, latest)
        decreases rest
      {
        var k :| k in rest;
        rest := rest - {k};
        if byRequest[k].status == Committed && k.mode == mode && k != self && byRequest[k].version > latest {
          assert CommittedIn(byRequest, k, scope);
          latest := byRequest[k].version;
        }
      }
      LatestIs(byRequest, scope, latest);
    }

    method Commit(mode: Mode, request: string, claim: Claim, evidence: bool) returns (o: Outcome)
      requires Valid()
      modifies this
      ensures Valid()
      ensures (byRequest, o) == CommitAtOnce(old(byRequest), RequestKey(owner, mode, request), claim, evidence)
    {
      var key := RequestKey(owner, mode, request);
      if key !in byRequest || byRequest[key].status != Pending || !evidence {
        return Denied;
      }
      var existing := byRequest[key];
      var latest := LatestOther(mode, existing.conversation, key);
      if claim.base != latest {
        return Conflict;
      }
      var committed := existing.(status := Committed, version := existing.base + 1, payload := claim.payload);
      byRequest := byRequest[key := committed];
      return Done;
    }

    method MarkFailed(mode: Mode, request: string) returns (o: Outcome)
      requires Valid()
      modifies this
      ensures Valid()
      ensures (byRequest, o) ==
                var key := RequestKey(owner, mode, request);
                var (s, answer) := MemoryStore.MarkFailed(State(old(byRequest), map[]), key);
                (s.store, answer)
    {
      var key := RequestKey(owner, mode, request);
      if key !in byRequest {
        return Absent;
      }
      byRequest := byRequest[key := byRequest[key].(status := Failed)];
      return Done;
    }
  }

  /** A two-step commit that is turned away at its check is turned away alike by an atomic
      commit at that moment; one that reaches its write does there what an atomic commit would
      do at that moment, whatever happened in between. */
  lemma TwoStepsAreAtomic(s: State, n: int, t: Turns.Turn, evidence: bool)
    requires Turns.StoreOk(s) && Turns.TurnOk(s, n, t)
    ensures t.stage.Opened? ==>
              var claim := Turns.ClaimOf(t, t.stage.base);
              var (after, o) := CheckCommit(s, Turns.TxOf(n, t), t.key, claim, evidence);
              && (o != Proceed ==> (after.store, o) == CommitAtOnce(s.store, t.key, claim, evidence))
              && (o == Proceed <==> CommitAtOnce(s.store, t.key, claim, evidence).1 == Done)
              && (o == Proceed ==> evidence)
    ensures t.stage.Holding? ==>
              var (after, o) := WriteCommit(s, Turns.TxOf(n, t));
              (after.store, o) == CommitAtOnce(s.store, t.key, Turns.ClaimOf(t, t.stage.base), true)
  {
    hide Turns.StoreOk;
    if t.stage.Holding? {
      Turns.WriteAcceptedIff(s, n, t);
    }
  }
}
