/** Runs of the linked list.  The server is kept together with the behaviour of TimerRuns that it has gone through, so
    what is proved about all behaviours holds of everything the heap code has done. */
module TimerSystem {
  import opened TimerModel
  import opened TimerSteps
  import opened TimerLedger
  import opened TimerRefinement
  import opened TimerRuns
  import opened TimerServer

  // ---------------------------------------------------------------- worlds along a sequence of steps

  function NextAll<T(==)>(z: World<T>, steps: seq<Step<T>>): World<T> {
    if steps == [] then z else Next(NextAll(z, steps[..|steps| - 1]), steps[|steps| - 1])
  }

  lemma {:induction false} NextAllState<T>(z: World<T>, steps: seq<Step<T>>)
    ensures NextAll(z, steps).s == RunAll(z.s, steps)
  {
    if steps != [] {
      NextAllState(z, steps[..|steps| - 1]);
    }
  }

  lemma {:induction false} NextAllConcat<T>(z: World<T>, a: seq<Step<T>>, b: seq<Step<T>>)
    ensures NextAll(z, a + b) == NextAll(NextAll(z, a), b)
  {
    if b == [] {
      assert a + b == a;
    } else {
      NextAllConcat(z, a, b[..|b| - 1]);
      assert (a + b)[..|a + b| - 1] == a + b[..|b| - 1];
    }
  }

  lemma NextOne<T>(z: World<T>, step: Step<T>)
    ensures NextAll(z, [step]) == Next(z, step)
  {
    assert [step][..0] == [];
  }

  /** A behaviour goes on by any sequence of steps that is enabled throughout. */
  lemma {:induction false} ExtendAll<T>(board: Board, worlds: seq<World<T>>, steps: seq<Step<T>>, more: seq<Step<T>>)
    returns (longer: seq<World<T>>)
    requires Behaviour(board, worlds, steps) && AllEnabled(worlds[|steps|].s, more)
    ensures Behaviour(board, longer, steps + more)
    ensures worlds <= longer && longer[|steps + more|] == NextAll(worlds[|steps|], more)
  {
    if more == [] {
      assert steps + more == steps;
      longer := worlds;
    } else {
      var before, last := more[..|more| - 1], more[|more| - 1];
      longer := ExtendAll(board, worlds, steps, before);
      NextAllState(worlds[|steps|], before);
      Extend(board, longer, steps + before, last);
      assert steps + more == steps + before + [last];
      longer := longer + [Next(longer[|steps + before|], last)];
    }
  }

  // ---------------------------------------------------------------- one interrupt

  /** What the interrupt adds to the calls: the reached jobs, served now. */
  function CallsDue<T>(w: Ledger<T>): seq<Served<T>> {
    ServeAll(w.jobs[..Reached(w.jobs, w.Origin())], w.now, w.late, w.lost)
  }

  lemma RequestFrame<T>(z: World<T>, r: Step<T>)
    requires IsRequest(r)
    ensures Next(z, r).w.calls == z.w.calls && Next(z, r).w.ran == z.w.ran
    ensures Next(z, r).s.inIrq == z.s.inIrq
  {
  }

  /** Requests make no calls. */
  lemma {:induction false} RequestsFrame<T>(z: World<T>, reqs: seq<Step<T>>, timers: set<T>)
    requires AllRequests(reqs, timers)
    ensures NextAll(z, reqs).w.calls == z.w.calls && NextAll(z, reqs).w.ran == z.w.ran
  {
    hide Next;
    if reqs != [] {
      RequestsFrame(z, reqs[..|reqs| - 1], timers);
      RequestFrame(NextAll(z, reqs[..|reqs| - 1]), reqs[|reqs| - 1]);
    }
  }

  /** A walk runs one call after the other. */
  lemma {:induction false} WalkFrame<T>(z: World<T>, scripts: seq<seq<Step<T>>>, n: nat, timers: set<T>)
    requires n <= |scripts| && AllScripts(scripts, timers)
    ensures NextAll(z, WalkSteps(scripts, n)).w.calls == z.w.calls
    ensures NextAll(z, WalkSteps(scripts, n)).w.ran == z.w.ran + n
  {
    hide NextAll, Do;
    if n == 0 {
      NextNone(z, WalkSteps(scripts, 0));
    } else {
      var before := WalkSteps(scripts, n - 1);
      WalkFrame(z, scripts, n - 1, timers);
      NextAllConcat(z, before, [Step.Call]);
      NextOne(NextAll(z, before), Step.Call);
      NextAllConcat(z, before + [Step.Call], scripts[n - 1]);
      RequestsFrame(NextAll(z, before + [Step.Call]), scripts[n - 1], timers);
    }
  }

  lemma NextNone<T>(z: World<T>, steps: seq<Step<T>>)
    requires steps == []
    ensures NextAll(z, steps) == z
  {
  }

  /** The batch of an interrupt is the reached jobs of the queue. */
  lemma BatchDue<T>(z: World<T>)
    requires Tracks(z.s, z.w)
    ensures |Batch(z.s)| == |CallsDue(z.w)|
    ensures forall k | 0 <= k < |Batch(z.s)| :: Batch(z.s)[k] == CallsDue(z.w)[k].job.timer
  {
    ExpireMatches(Settled(z.s), z.w.Origin(), z.w.jobs);
  }

  /** The steps of one interrupt add exactly the calls that are due, and run each of them. */
  lemma IrqCalls<T>(z: World<T>, scripts: seq<seq<Step<T>>>, timers: set<T>)
    requires Tracks(z.s, z.w) && |scripts| == |Batch(z.s)| && AllScripts(scripts, timers)
    ensures var e := NextAll(z, IrqSteps(scripts));
            e.w.calls == z.w.calls + CallsDue(z.w) && e.w.ran == z.w.ran + |CallsDue(z.w)|
  {
    hide NextAll, Do, WalkSteps;
    var walk, b := WalkSteps(scripts, |scripts|), Next(z, Step.IrqBegin);
    BatchDue(z);
    NextOne(z, Step.IrqBegin);
    if scripts != [] {
      NextAllConcat(z, [Step.IrqBegin], walk);
      WalkFrame(b, scripts, |scripts|, timers);
      NextAllConcat(z, [Step.IrqBegin] + walk, [Step.IrqEnd]);
      NextOne(NextAll(b, walk), Step.IrqEnd);
    }
  }

  /** Calls that a world's books gained were exact, and outside the handler all calls have been run. */
  lemma CallsExact<T>(z: World<T>, earlier: seq<Served<T>>, due: seq<Served<T>>)
    requires WorldInv(z) && !z.s.inIrq && z.w.calls == earlier + due
    ensures z.w.ran == |z.w.calls|
    ensures forall k | 0 <= k < |due| :: Exact(due[k])
  {
    forall k | 0 <= k < |due| ensures Exact(due[k]) {
      assert z.w.calls[|earlier| + k] == due[k];
      assert Closed(z.w, z.w.calls[|earlier| + k]);
    }
  }

  // ---------------------------------------------------------------- the system

  /** One visit of the handler's walk on the linked list. */
  datatype Visit = Visit(timer: TimerEvent, at: nat)

  function VisitsOf(timers: seq<TimerEvent>, at: nat): (r: seq<Visit>)
    ensures |r| == |timers|
    ensures forall k | 0 <= k < |r| :: r[k] == Visit(timers[k], at)
  {
    seq(|timers|, k requires 0 <= k < |timers| => Visit(timers[k], at))
  }

  /** The server, the behaviour it has gone through, and the visits its handler has made. */
  class System {
    const server: TimerServer
    ghost var Steps: seq<Step<TimerEvent>>
    ghost var Worlds: seq<World<TimerEvent>>
    ghost var Visits: seq<Visit>

    /** The world the run has come to. */
    ghost function Here(): World<TimerEvent>
      requires |Worlds| == |Steps| + 1
      reads this
    {
      Worlds[|Steps|]
    }

    ghost function Books(): Ledger<TimerEvent>
      requires |Worlds| == |Steps| + 1
      reads this
    {
      Here().w
    }

    /** The heap is in the last state of a behaviour from start-up, and the walks have visited what its calls say. */
    ghost predicate Valid()
      reads this, server, server.Timers, server.head
    {
      && server.Valid() && !server.InIrq
      && |Worlds| == |Steps| + 1
      && Behaviour(server.board, Worlds, Steps)
      && Here().s == server.Model()
      && Recorded(Visits, Books().calls)
    }

    constructor (board: Board)
      ensures Valid() && fresh(server) && server.board == board && server.Timers == {}
      ensures Steps == [] && Worlds == [TimerRuns.Init<TimerEvent>(board)] && Visits == []
    {
      server := new TimerServer(board);
      Steps, Worlds, Visits := [], [TimerRuns.Init<TimerEvent>(board)], [];
    }

    /** The run so far goes on by the given steps. */
    twostate predicate GoneOn(steps: seq<Step<TimerEvent>>)
      requires old(|Worlds| == |Steps| + 1)
      reads this
    {
      && Steps == old(Steps) + steps
      && |Worlds| == |Steps| + 1
      && old(Worlds) <= Worlds
      && Here() == NextAll(old(Here()), steps)
    }

    /** Writes down the steps the server is about to take. */
    ghost method Note(steps: seq<Step<TimerEvent>>)
      requires |Worlds| == |Steps| + 1 && Behaviour(server.board, Worlds, Steps) && AllEnabled(Here().s, steps)
      modifies this`Steps, this`Worlds
      ensures GoneOn(steps) && Behaviour(server.board, Worlds, Steps)
      ensures Here().s == RunAll(old(Here().s), steps)
    {
      NextAllState(Here(), steps);
      Worlds := ExtendAll(server.board, Worlds, Steps, steps);
      Steps := Steps + steps;
    }

    ghost method NoteOne(step: Step<TimerEvent>)
      requires |Worlds| == |Steps| + 1 && Behaviour(server.board, Worlds, Steps) && Enabled(Here().s, step)
      modifies this`Steps, this`Worlds
      ensures GoneOn([step]) && Behaviour(server.board, Worlds, Steps)
      ensures Here() == Next(old(Here()), step)
    {
      RunOne(Here().s, step);
      NextOne(Here(), step);
      Note([step]);
    }

    /** One hardware tick. */
    method Tick()
      requires Valid() && Enabled(server.Model(), Step.Tick)
      modifies this`Steps, this`Worlds, server`now
      ensures Valid() && GoneOn([Step.Tick])
    {
      hide Behaviour;
      NoteOne(Step.Tick);
      server.Tick();
    }

    /** A timer is initialised. */
    method Init(obj: TimerEvent, callback: Callback)
      requires Valid() && Absent(server.Entries, obj)
      modifies this`Steps, this`Worlds, server`Timers, obj
      ensures Valid() && GoneOn([Step.Init(obj)]) && server.Timers == old(server.Timers) + {obj}
      ensures obj.reloadValue == 0 && !obj.isRunning && obj.next == null && obj.callback == callback
    {
      hide Behaviour;
      ListedIndex(server.Entries, obj);
      NoteOne(Step.Init(obj));
      server.Init(obj, callback);
    }

    /** One request from the application: a start, a stop, or the store of a value. TimerReset is a stop and then a
        start, TimerSetValue a stop and then a store, and anything may happen in between. */
    method Request(r: Step<TimerEvent>)
      requires Valid() && IsRequest(r) && r.timer in server.Timers
      requires r.Store? ==> Absent(server.Entries, r.timer)
      modifies this`Steps, this`Worlds, server, server.Timers
      ensures Valid() && GoneOn([r]) && server.Timers == old(server.Timers)
    {
      hide Behaviour, Do, Record;
      RequestFrame(Here(), r);
      NoteRequest(r);
      AskedOutside(server.Model(), r);
      server.Ask(r);
    }

    /** Outside the handler requests are enabled, and nothing is noted of them. */
    ghost method NoteRequest(r: Step<TimerEvent>)
      requires Valid() && IsRequest(r) && (r.Store? ==> Absent(server.Entries, r.timer))
      modifies this`Steps, this`Worlds
      ensures GoneOn([r]) && |Worlds| == |Steps| + 1 && Behaviour(server.board, Worlds, Steps)
      ensures Here() == Next(old(Here()), r)
    {
      hide Behaviour;
      ListedIndex(server.Entries, r.timer);
      NoteOne(r);
    }

    lemma AskedOutside(s: State<TimerEvent>, r: Step<TimerEvent>)
      requires Inv(s) && !s.inIrq && IsRequest(r)
      ensures Asked(s, r) == Do(s, r)
    {
      if r.Start? {
        StartPasses(s, r.timer);
      }
    }

    /** A low-power pass takes its tests, ... */
    method TestPass() returns (pass: Pass)
      requires Valid() && server.Passing == NoPass
      modifies this`Steps, this`Worlds, server`Passing
      ensures Valid() && GoneOn([Step.PassTest]) && pass == server.Passing
    {
      hide Behaviour;
      NoteOne(Step.PassTest);
      pass := server.TestPass();
    }

    /** ... loads its counter ... */
    method LoadPass() returns (count: nat)
      requires Valid() && server.Passing == Counting
      modifies this`Steps, this`Worlds, server`Passing
      ensures Valid() && GoneOn([Step.PassLoad]) && server.Passing.Loaded? && count == server.Passing.count
    {
      hide Behaviour;
      NoteOne(Step.PassLoad);
      count := server.LoadPass();
    }

    /** ... and stores it, increased, ... */
    method CountPass(count: nat)
      requires Valid() && server.Passing.Loaded? && count == server.Passing.count
      modifies this`Steps, this`Worlds, server`loopedThroughMain, server`Passing
      ensures Valid() && GoneOn([Step.PassAct])
    {
      hide Behaviour;
      NoteOne(Step.PassAct);
      server.CountPass(count);
    }

    /** ... or enters stop mode.  Anything may happen in between. */
    method EnterStop()
      requires Valid() && server.Passing == Entering
      modifies this`Steps, this`Worlds, server`loopedThroughMain, server`sleeps, server`Passing
      ensures Valid() && GoneOn([Step.PassAct])
    {
      hide Behaviour;
      NoteOne(Step.PassAct);
      server.EnterStop();
    }

    /** One timer interrupt, with callbacks that make any harmless requests.  The timers its walk visits are those of
        exactly the jobs that are due, in order; each visit comes at the job's start plus its timeout, plus the late
        ticks and less the losses since; and the whole world is the one that the handler's steps lead to. */
    method Interrupt(asks: nat -> seq<Step<TimerEvent>>, ghost scripts: seq<seq<Step<TimerEvent>>>)
      returns (visited: seq<TimerEvent>)
      requires Valid()
      requires server.Answers(scripts, Batch(server.Model()), asks)
      requires AllScripts(scripts, server.Timers) && AllEnabled(server.Model(), IrqSteps(scripts))
      modifies this, server, server.Timers
      ensures Valid() && GoneOn(IrqSteps(scripts)) && server.Timers == old(server.Timers)
      ensures Visits == old(Visits) + VisitsOf(visited, old(server.now))
      ensures Books().calls == old(Books().calls + CallsDue(Books())) && Books().ran == |Books().calls|
      ensures |visited| == |old(CallsDue(Books()))|
      ensures forall k | 0 <= k < |visited| :: visited[k] == old(CallsDue(Books()))[k].job.timer
      ensures forall k | 0 <= k < |visited| ::
                Exact(old(CallsDue(Books()))[k]) && old(CallsDue(Books()))[k].at == old(server.now)
    {
      hide Behaviour, RunAll, AllEnabled, IrqSteps, WorldInv, NextAll, Recorded, Tracks;
      ghost var z := Here();
      RunInv();
      BatchDue(z);
      IrqCalls(z, scripts, server.Timers);
      Note(IrqSteps(scripts));
      visited := server.IrqHandler(asks, scripts);
      RecordedMore(Visits, z.w.calls, visited, CallsDue(z.w), z.s.now);
      Visits := Visits + VisitsOf(visited, z.s.now);
      RunInv();
      CallsExact(Here(), z.w.calls, CallsDue(z.w));
    }

    /** What holds of every state of a behaviour holds here. */
    lemma RunInv()
      requires |Worlds| == |Steps| + 1 && Behaviour(server.board, Worlds, Steps)
      ensures WorldInv(Here()) && Tracks(Here().s, Here().w) && Here().w.now == Here().s.now
    {
      BehaviourInv(server.board, Worlds, Steps, |Steps|);
    }

    // -------------------------------------------------------------- what follows for the linked list

    /** On an exact counter no visit the handler ever made was early: it was for a start that had lasted its timeout.
        */
    lemma NoVisitEarly(i: nat)
      requires Valid() && server.board.lead == 0 && i < |Visits|
      ensures var c := Books().calls[i];
              && c.job.timer == Visits[i].timer && c.at == Visits[i].at
              && c.job.startedAt + c.job.reload <= Visits[i].at
    {
      NeverEarly(server.board, Worlds, Steps, |Steps|, i);
    }

    /** On a board with a lead, a visit comes early by at most the lead for each arming of the hardware since the
        start. */
    lemma VisitEarlyAtMost(i: nat) returns (m: nat, k: nat)
      requires Valid() && i < |Visits|
      ensures m < k < |Steps| && Steps[m] == Step.Start(Visits[i].timer) && Steps[k] == Step.IrqBegin
      ensures Worlds[k].s.now == Visits[i].at
      ensures var startedAt, timeout := Worlds[m].s.now, Reload(Worlds[m].s, Visits[i].timer);
              Visits[i].at + server.board.lead * (Worlds[k].s.arms - Worlds[m].s.arms) >= startedAt + timeout
    {
      m, k := EarlyAtMost(server.board, Worlds, Steps, |Steps|, i);
    }

    /** On an exact counter with on-time interrupts, every start that was not stopped and whose deadline has passed has
        had its one visit, at exactly its start time plus its timeout. */
    lemma VisitedOnce(k: nat) returns (i: nat)
      requires Valid() && server.board.lead == 0 && Books().late == 0 && k < |Books().started|
      requires var job := Books().started[k]; job !in Books().stopped && job.startedAt + job.reload < server.now
      ensures var job := Books().started[k];
              && i < |Visits| == |Books().calls| && Books().calls[i].job == job
              && Visits[i] == Visit(job.timer, job.startedAt + job.reload)
              && forall j | 0 <= j < |Visits| && j != i :: Books().calls[j].job != job
    {
      RunInv();
      i := Punctual(server.board, Worlds, Steps, |Steps|, k);
    }

    /** With on-time interrupts on an exact counter, visits come in deadline order, start order for equal deadlines. */
    lemma VisitsInOrder(i: nat, k: nat)
      requires Valid() && server.board.lead == 0 && Books().late == 0 && i < k < |Visits|
      ensures Visits[i].at < Visits[k].at ||
              (Visits[i].at == Visits[k].at && Books().calls[i].job.serial < Books().calls[k].job.serial)
    {
      PunctualOrder(server.board, Worlds, Steps, |Steps|, i, k);
    }
  }

  /** The visits made are the calls recorded. */
  ghost predicate Recorded(visits: seq<Visit>, calls: seq<Served<TimerEvent>>) {
    && |visits| == |calls|
    && forall i | 0 <= i < |visits| :: visits[i] == Visit(calls[i].job.timer, calls[i].at)
  }

  lemma RecordedMore(visits: seq<Visit>, calls: seq<Served<TimerEvent>>, visited: seq<TimerEvent>,
                     due: seq<Served<TimerEvent>>, now: nat)
    requires Recorded(visits, calls) && |visited| == |due|
    requires forall k | 0 <= k < |due| :: visited[k] == due[k].job.timer && due[k].at == now
    ensures Recorded(visits + VisitsOf(visited, now), calls + due)
  {
  }
}
