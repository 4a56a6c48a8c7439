/**
 What must have happened for a turn to stand where it stands: who commits, with what row, and
 after which of its own events.
 */
module TurnHistory {
  import opened MemoryStore
  import opened Selections
  import opened Turns

  /** At the check, a turn proceeds exactly with its evidence and while its base is the latest
      version; nothing else leaves a ticket behind. */
  lemma AskAcceptedIff(s: State, n: int, t: Turn, evidence: bool)
    requires StoreOk(s) && TurnOk(s, n, t) && t.stage.Opened?
    ensures
      var (core, o) := CheckCommit(s, TxOf(n, t), t.key, ClaimOf(t, t.stage.base), evidence);
      && (o == Proceed <==> evidence && Latest(s.store, ChainOf(t)) == t.stage.base)
      && (o == Conflict <==> evidence && HasVersion(s.store, ChainOf(t), t.stage.base + 1))
      && (o == Denied <==> !evidence)
      && core.store == s.store
      && (o != Proceed ==> core == s)
  {
    StoreOkRange(s, ChainOf(t), t.stage.base + 1);
  }

  // The turn's own events on the way to a stage.
  function Script(n: int, stage: Stage): seq<Event> {
    match stage
    case Looked(_) => [Look(n)]
    case Opened(_) => [Look(n), Open(n)]
    case Holding(_) => [Look(n), Open(n), Ask(n, true)]
    case Locked(_) => [Look(n), Open(n), Ask(n, true), Block(n)]
    case Stalled(_) => [Look(n), Open(n), Ask(n, true), Block(n), Reread(n)]
    case Won(_) => [Look(n), Open(n), Ask(n, true), Put(n)]
    case _ => []
  }

  function StageOf(sys: System, n: int): Stage
    requires n in sys.turns
  {
    sys.turns[n].stage
  }

  lemma ScriptStep(sys: System, e: Event, n: int)
    requires n in sys.turns
    ensures n in Next(sys, e).turns
    ensures var before, after := Script(n, StageOf(sys, n)), Script(n, StageOf(Next(sys, e), n));
            after == before || after == before + [e] || after == []
  {
    hide CreatePending, WriteCommit, ResolveLock, MarkFailed, Latest;
  }

  lemma EmptyEmbeds<T>(all: seq<T>)
    ensures Embeds([], all)
  {
    var none: seq<nat> := [];
    assert Ascending(none, |all|) && Picked(all, none) == [];
  }

  lemma EmbedsItself<T>(all: seq<T>)
    ensures Embeds(all, all)
  {
    EmptyEmbeds<T>([]);
    EmbedsAppend([], [], all);
    assert [] + all == all;
  }

  lemma ScriptStepEmbeds(sys: System, e: Event, n: int)
    requires n in sys.turns
    ensures n in Next(sys, e).turns
    ensures Embeds(Script(n, StageOf(Next(sys, e), n)), Script(n, StageOf(sys, n)) + [e])
  {
    ScriptStep(sys, e, n);
    var before, after := Script(n, StageOf(sys, n)), Script(n, StageOf(Next(sys, e), n));
    hide Embeds, Next, Script;
    EmbedsItself(before);
    EmbedsSnoc(before, before, e);
    EmptyEmbeds(before + [e]);
  }

  lemma ScriptsJoin(before: seq<Event>, middle: seq<Event>, after: seq<Event>, events: seq<Event>)
    requires events != [] && Embeds(middle, before + [events[0]]) && Embeds(after, middle + events[1..])
    ensures Embeds(after, before + events)
  {
    hide Embeds;
    EmbedsAppend(middle, before + [events[0]], events[1..]);
    assert before + [events[0]] + events[1..] == before + events;
    EmbedsTransitive(after, middle + events[1..], before + events);
  }

  /** However the events of all turns are mixed, a turn's own are found in its script's order. */
  lemma {:induction false} ScriptFollowed(sys: System, events: seq<Event>, n: int)
    requires n in sys.turns
    ensures n in After(sys, events).turns
    ensures Embeds(Script(n, StageOf(After(sys, events), n)), Script(n, StageOf(sys, n)) + events)
    decreases |events|
  {
    hide Embeds, Next, Script, StageOf;
    var before := Script(n, StageOf(sys, n));
    if events == [] {
      EmbedsItself(before);
      assert before + events == before;
    } else {
      var next := Next(sys, events[0]);
      ScriptStepEmbeds(sys, events[0], n);
      ScriptFollowed(next, events[1..], n);
      ScriptsJoin(before, Script(n, StageOf(next, n)), Script(n, StageOf(After(sys, events), n)), events);
    }
  }

  lemma WinnersScript(sys: System, events: seq<Event>, n: int)
    requires n in sys.turns && sys.turns[n].stage.Start?
    requires n in After(sys, events).turns && After(sys, events).turns[n].stage.Won?
    ensures Embeds([Look(n), Open(n), Ask(n, true), Put(n)], events)
  {
    hide Embeds, After, Next;
    ScriptFollowed(sys, events, n);
    assert [] + events == events;
  }

  lemma FreshStarts(sys: System, n: int)
    requires Fresh(sys) && n in sys.turns
    ensures sys.turns[n].stage.Start?
  {
  }

  lemma WinnersRow(sys: System, n: int)
    requires Inv(sys) && n in sys.turns && sys.turns[n].stage.Won?
    ensures WonAt(sys.core.store, sys.turns[n], sys.turns[n].stage.version)
  {
    InvOfTurn(sys, n);
  }

  /** A turn that won looked, begun its row, asked with complete evidence and wrote, in this
      order; and what is committed is the row it made, one version above the one it read. */
  lemma WinnerFollowedProtocol(sys: System, events: seq<Event>, n: int)
    requires Fresh(sys) && n in sys.turns
    requires n in After(sys, events).turns && After(sys, events).turns[n].stage.Won?
    ensures Embeds([Look(n), Open(n), Ask(n, true), Put(n)], events)
    ensures WonAt(After(sys, events).core.store, After(sys, events).turns[n], After(sys, events).turns[n].stage.version)
  {
    hide *;
    FreshStarts(sys, n);
    WinnersScript(sys, events, n);
    FreshIsInv(sys);
    RunKeepsInv(sys, events);
    WinnersRow(After(sys, events), n);
  }

  // ----- nobody else commits -----

  predicate IsCommitted(store: Store, key: RequestKey) {
    key in store && store[key].status == Committed
  }

  ghost predicate WonWith(sys: System, key: RequestKey) {
    exists n :: n in sys.turns && sys.turns[n].stage.Won? && sys.turns[n].key == key
  }

  lemma NextCommits(sys: System, e: Event, key: RequestKey)
    requires Inv(sys) && IsCommitted(Next(sys, e).core.store, key)
    ensures IsCommitted(sys.core.store, key) || WonWith(Next(sys, e), key)
  {
    if e.n in sys.turns {
      var t := sys.turns[e.n];
      assert TurnOk(sys.core, e.n, t);
      hide Inv, StoreOk, Latest, Taken, HasVersion;
      if t.stage.Holding? && e.Put? && t.key == key {
        PutIs(sys, e.n);
        assert Next(sys, e).turns[e.n].key == key;
      }
    }
  }

  lemma NextKeepsWinners(sys: System, e: Event, key: RequestKey)
    requires WonWith(sys, key)
    ensures WonWith(Next(sys, e), key)
  {
    var n :| n in sys.turns && sys.turns[n].stage.Won? && sys.turns[n].key == key;
    hide CreatePending, CheckCommit, WriteCommit, ResolveLock, MarkFailed, Latest;
    assert n in Next(sys, e).turns && Next(sys, e).turns[n] == sys.turns[n];
  }

  lemma {:induction false} WinnersStay(sys: System, events: seq<Event>, key: RequestKey)
    requires WonWith(sys, key)
    ensures WonWith(After(sys, events), key)
    decreases |events|
  {
    if events != [] {
      hide Next, WonWith;
      NextKeepsWinners(sys, events[0], key);
      WinnersStay(Next(sys, events[0]), events[1..], key);
    }
  }

  lemma {:induction false} CommitsComeFromWinners(sys: System, events: seq<Event>, key: RequestKey)
    requires Inv(sys) && IsCommitted(After(sys, events).core.store, key)
    ensures IsCommitted(sys.core.store, key) || WonWith(After(sys, events), key)
    decreases |events|
  {
    if events != [] {
      var next := Next(sys, events[0]);
      hide Next, WonWith, Inv, IsCommitted;
      NextKeepsInv(sys, events[0]);
      CommitsComeFromWinners(next, events[1..], key);
      if !WonWith(After(sys, events), key) {
        NextCommits(sys, events[0], key);
        if WonWith(next, key) {
          WinnersStay(next, events[1..], key);
        }
      }
    }
  }

  lemma WinnersAreCommitted(sys: System, key: RequestKey)
    requires Inv(sys) && WonWith(sys, key)
    ensures IsCommitted(sys.core.store, key)
  {
    var n :| n in sys.turns && sys.turns[n].stage.Won? && sys.turns[n].key == key;
    InvOfTurn(sys, n);
  }

  /** After any run the committed rows are those committed before it, unchanged, and the rows of
      the turns that won, and no others. */
  lemma CommittedIffBeforeOrWon(sys: System, events: seq<Event>, key: RequestKey)
    requires Fresh(sys)
    ensures IsCommitted(After(sys, events).core.store, key) <==>
              IsCommitted(sys.core.store, key) || WonWith(After(sys, events), key)
    ensures IsCommitted(sys.core.store, key) ==>
              key in After(sys, events).core.store && After(sys, events).core.store[key] == sys.core.store[key]
  {
    FreshIsInv(sys);
    RunKeepsInv(sys, events);
    if IsCommitted(sys.core.store, key) {
      CommitsAreFinal(sys, events, key);
    }
    if WonWith(After(sys, events), key) {
      WinnersAreCommitted(After(sys, events), key);
    }
    if IsCommitted(After(sys, events).core.store, key) {
      CommitsComeFromWinners(sys, events, key);
    }
  }

  // ----- a turn by itself -----

  lemma PendingLeavesLatest(store: Store, key: RequestKey, m: Memory, scope: Scope)
    requires key !in store && m.status == Pending
    ensures Latest(store[key := m], scope) == Latest(store, scope)
  {
    var after, latest := store[key := m], Latest(store, scope);
    forall k ensures CommittedIn(after, k, scope) <==> CommittedIn(store, k, scope) {
    }
    if latest != 0 {
      var k :| k in store && CommittedIn(store, k, scope) && store[k].version == latest;
      assert CommittedIn(after, k, scope) && after[k].version == latest;
    }
    assert forall k :: k in after && CommittedIn(after, k, scope) ==> CommittedIn(store, k, scope);
    LatestIs(after, scope, latest);
  }

  lemma LooksAlone(sys: System, n: int)
    requires Inv(sys) && n in sys.turns && sys.turns[n].stage.Start?
    ensures
      var t, looked := sys.turns[n], Next(sys, Look(n));
      && Inv(looked) && n in looked.turns && looked.core == sys.core
      && looked.turns[n] == t.(stage := Looked(Latest(sys.core.store, ChainOf(t))))
  {
    LookKeepsInv(sys, n);
    hide Inv, Latest, OwnStep;
  }

  lemma OpensAlone(sys: System, n: int)
    requires Inv(sys) && n in sys.turns && sys.turns[n].stage.Looked?
    ensures
      var t, begun := sys.turns[n], Next(sys, Open(n));
      && Inv(begun) && n in begun.turns
      && (t.key in sys.core.store ==> begun.turns[n] == t.(stage := Refused) && begun.core == sys.core)
      && (t.key !in sys.core.store ==>
           && begun.turns[n] == t.(stage := Opened(t.stage.base))
           && Latest(begun.core.store, ChainOf(t)) == Latest(sys.core.store, ChainOf(t)))
  {
    OpenKeepsInv(sys, n);
    hide Inv, OwnStep, Latest;
    var t := sys.turns[n];
    if t.key !in sys.core.store {
      PendingLeavesLatest(sys.core.store, t.key, NewRow(t, t.stage.base), ChainOf(t));
    }
  }

  lemma AsksAlone(sys: System, n: int, evidence: bool)
    requires Inv(sys) && n in sys.turns && sys.turns[n].stage.Opened?
    requires Latest(sys.core.store, ChainOf(sys.turns[n])) == sys.turns[n].stage.base
    ensures
      var t, asked := sys.turns[n], Next(sys, Ask(n, evidence));
      && Inv(asked) && n in asked.turns && asked.core.store == sys.core.store
      && asked.turns[n] == t.(stage := if evidence then Holding(t.stage.base) else Losing(t.stage.base, Denied))
  {
    var t, base := sys.turns[n], sys.turns[n].stage.base;
    var (core, o) := CheckCommit(sys.core, TxOf(n, t), t.key, ClaimOf(t, base), evidence);
    hide *;
    AskKeepsInv(sys, n, evidence);
    InvOfTurn(sys, n);
    AskIs(sys, n, evidence);
    AskAcceptedIff(sys.core, n, t, evidence);
    MovedIs(sys, core, n, if o == Proceed then Holding(base) else Losing(base, o));
  }

  lemma MovedIs(sys: System, core: State, n: int, stage: Stage)
    requires n in sys.turns
    ensures var moved := Moved(sys, core, n, stage);
            moved.core == core && n in moved.turns && moved.turns[n] == sys.turns[n].(stage := stage)
  {
  }

  lemma AskIs(sys: System, n: int, evidence: bool)
    requires n in sys.turns && sys.turns[n].stage.Opened?
    ensures
      var t, base := sys.turns[n], sys.turns[n].stage.base;
      var (core, o) := CheckCommit(sys.core, TxOf(n, t), t.key, ClaimOf(t, base), evidence);
      Next(sys, Ask(n, evidence)) == Moved(sys, core, n, if o == Proceed then Holding(base) else Losing(base, o))
  {
    hide CheckCommit, Moved;
  }

  lemma WritesAlone(sys: System, n: int)
    requires Inv(sys) && n in sys.turns && sys.turns[n].stage.Holding?
    requires Latest(sys.core.store, ChainOf(sys.turns[n])) == sys.turns[n].stage.base
    ensures n in Next(sys, Put(n)).turns
    ensures Next(sys, Put(n)).turns[n].stage == Won(sys.turns[n].stage.base + 1)
  {
    InvOfTurn(sys, n);
    WriteAcceptedIff(sys.core, n, sys.turns[n]);
    hide Inv, StoreOk, TurnOk, Latest, HasVersion, WriteCommit;
  }

  lemma OneEvent(sys: System, e: Event, rest: seq<Event>)
    ensures After(sys, [e] + rest) == After(Next(sys, e), rest)
  {
    assert ([e] + rest)[1..] == rest;
  }

  lemma FourEvents(sys: System, a: Event, b: Event, c: Event, d: Event)
    ensures After(sys, [a, b, c, d]) == Next(Next(Next(Next(sys, a), b), c), d)
  {
    hide Next;
    assert [a, b, c, d] == [a] + ([b] + ([c] + ([d] + [])));
    OneEvent(sys, a, [b] + ([c] + ([d] + [])));
    OneEvent(Next(sys, a), b, [c] + ([d] + []));
    OneEvent(Next(Next(sys, a), b), c, [d] + []);
    OneEvent(Next(Next(Next(sys, a), b), c), d, []);
  }

  lemma RefusedStays(sys: System, e: Event)
    requires e.n in sys.turns && sys.turns[e.n].stage.Refused?
    ensures Next(sys, e) == sys
  {
  }

  /** A turn that is not disturbed commits the next version exactly when its request is new and
      its evidence complete; a request that is already there changes nothing. */
  lemma AloneWinsIff(sys: System, n: int, evidence: bool)
    requires Fresh(sys) && n in sys.turns
    ensures
      var done := After(sys, [Look(n), Open(n), Ask(n, evidence), Put(n)]);
      var t := sys.turns[n];
      && n in done.turns
      && (done.turns[n].stage == Won(Latest(sys.core.store, ChainOf(t)) + 1) <==> t.key !in sys.core.store && evidence)
      && (t.key in sys.core.store ==> done.core == sys.core)
  {
    FreshIsInv(sys);
    FreshStarts(sys, n);
    hide Inv, Fresh, Latest, After, Next;
    FourEvents(sys, Look(n), Open(n), Ask(n, evidence), Put(n));
    var looked := Next(sys, Look(n));
    LooksAlone(sys, n);
    var begun := Next(looked, Open(n));
    OpensAlone(looked, n);
    if sys.turns[n].key !in sys.core.store {
      AsksAlone(begun, n, evidence);
      var asked := Next(begun, Ask(n, evidence));
      if evidence {
        WritesAlone(asked, n);
      } else {
        LosingWaits(asked, Put(n));
      }
    } else {
      RefusedStays(begun, Ask(n, evidence));
      RefusedStays(begun, Put(n));
    }
  }

  lemma LosingWaits(sys: System, e: Event)
    requires e.n in sys.turns && sys.turns[e.n].stage.Losing? && e.Put?
    ensures Next(sys, e) == sys
  {
  }
}
