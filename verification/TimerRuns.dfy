/** Statements about every behaviour of the timer server: any sequence of ticks, requests, interrupts at any moment,
    callbacks that make harmless requests of their own, and low-power passes.

    `Enabled` carries the two assumptions that limit these runs, and TimerLimits shows that both are needed: what
    requests a callback may make (`Harmless`), and that a loaded counter is served or re-armed before its 32-bit
    reading wraps. Within that bound interrupts may come as late, and as often without cause, as they like. */
module TimerRuns {
  import opened TimerModel
  import opened Words
  import opened TimerLedger
  import opened TimerRefinement

  ghost predicate WorldInv<T>(z: World<T>) {
    && Inv(z.s)
    && Tracks(z.s, z.w)
    && InOrder(z.w) && Accounted(z.w) && Dated(z.w)
    && (z.s.board.lead == 0 ==> z.w.lost == 0)
  }

  function Init<T>(board: Board): World<T> {
    World(Boot(board), Ledger(0, [], [], 0, [], [], 0, 0))
  }

  predicate Follows<T(==)>(z: World<T>, step: Step<T>, z': World<T>) {
    Enabled(z.s, step) && z' == Next(z, step)
  }

  /** A run from start-up: states[i + 1] follows states[i] by steps[i]. */
  ghost predicate Behaviour<T>(board: Board, states: seq<World<T>>, steps: seq<Step<T>>) {
    && |states| == |steps| + 1
    && states[0] == Init(board)
    && forall i | 0 <= i < |steps| :: Follows(states[i], steps[i], states[i + 1])
  }

  // ---------------------------------------------------------------- the invariant along a run

  lemma InitInv<T>(board: Board)
    ensures WorldInv<T>(Init(board))
  {
  }

  lemma BoardKept<T>(s: State<T>, step: Step<T>)
    ensures Do(s, step).board == s.board
  {
    hide Remove, InsertAfter, Settled, Remaining, Listed;
  }

  lemma NothingLost<T>(w: Ledger<T>, step: Step<T>, timeout: nat)
    ensures Record(w, step, timeout, 0).lost == w.lost
  {
  }

  lemma BooksKept<T>(z: World<T>, step: Step<T>)
    requires Tracks(z.s, z.w) && InOrder(z.w) && Accounted(z.w) && Dated(z.w)
    ensures var w := Next(z, step).w; InOrder(w) && Accounted(w) && Dated(w)
  {
    var timeout, loss := TimeoutOf(z.s, step), Loss(z.s, step);
    TracksNotPast(z.s, z.w);
    RecordOrdered(z.w, step, timeout, loss);
    RecordAccounted(z.w, step, timeout, loss);
    RecordDated(z.w, step, timeout, loss);
  }

  lemma NextInv<T>(z: World<T>, step: Step<T>)
    requires WorldInv(z) && Enabled(z.s, step)
    ensures WorldInv(Next(z, step)) && Next(z, step).s.board == z.s.board
  {
    StepInv(z.s, step);
    StepTracks(z.s, z.w, step);
    BooksKept(z, step);
    BoardKept(z.s, step);
    NothingLost(z.w, step, TimeoutOf(z.s, step));
  }

  /** Safety over whole runs: in every state of every behaviour the delta list tracks the queue of absolute deadlines,
      the trail is ordered, every start is accounted for once, and every call is exact. */
  lemma {:induction false} BehaviourInv<T>(board: Board, states: seq<World<T>>, steps: seq<Step<T>>, n: nat)
    requires Behaviour(board, states, steps) && n < |states|
    ensures WorldInv(states[n]) && states[n].s.board == board
  {
    if n == 0 {
      InitInv<T>(board);
    } else {
      BehaviourInv(board, states, steps, n - 1);
      assert Follows(states[n - 1], steps[n - 1], states[n - 1 + 1]);
      NextInv(states[n - 1], steps[n - 1]);
    }
  }

  // ---------------------------------------------------------------- when callbacks run

  /** The law of service times, for any board and any interrupt latency within the counter's range: a callback runs at
      its start plus its timeout, plus one for every tick since that found the head already due, less what arming
      swallowed since. */
  lemma ServiceTime<T>(board: Board, states: seq<World<T>>, steps: seq<Step<T>>, n: nat, i: nat)
    requires Behaviour(board, states, steps) && n < |states| && i < |states[n].w.calls|
    ensures var c := states[n].w.calls[i];
            && c.job.late0 <= c.late <= states[n].w.late && c.job.lost0 <= c.lost <= states[n].w.lost
            && c.at == c.job.startedAt + c.job.reload + (c.late - c.job.late0) - (c.lost - c.job.lost0)
    ensures board.lead == 0 ==> states[n].w.lost == 0
  {
    BehaviourInv(board, states, steps, n);
    assert Closed(states[n].w, states[n].w.calls[i]);
  }

  /** On an exact counter no callback ever runs before its start time plus its timeout, however often interrupts come
      without cause and however late they are, as long as the 32-bit reading of the counter does not wrap. */
  lemma NeverEarly<T>(board: Board, states: seq<World<T>>, steps: seq<Step<T>>, n: nat, i: nat)
    requires Behaviour(board, states, steps) && n < |states| && i < |states[n].w.calls|
    requires board.lead == 0
    ensures var c := states[n].w.calls[i]; c.job.startedAt + c.job.reload <= c.at
  {
    ServiceTime(board, states, steps, n, i);
  }

  /** Callbacks are served in key order, and in start order where keys are equal. */
  lemma ServiceOrder<T>(board: Board, states: seq<World<T>>, steps: seq<Step<T>>, n: nat, i: nat, k: nat)
    requires Behaviour(board, states, steps) && n < |states| && i < k < |states[n].w.calls|
    ensures Before(states[n].w.calls[i].job, states[n].w.calls[k].job)
  {
    BehaviourInv(board, states, steps, n);
    assert Before(states[n].w.Trail()[i], states[n].w.Trail()[k]);
  }

  lemma CountOne<T>(started: seq<Job<T>>, k: nat)
    requires k < |started|
    requires forall i | 0 <= i < |started| :: started[i].serial == i
    ensures multiset(started)[started[k]] == 1
  {
    var a, b := started[..k], started[k + 1..];
    assert started == a + [started[k]] + b;
    assert started[k] !in a && started[k] !in b;
    assert multiset(started) == multiset(a) + multiset{started[k]} + multiset(b);
  }

  /** Every start is, exactly once, in exactly one of three places: called, still waiting, or stopped. */
  lemma EachStartOnce<T>(board: Board, states: seq<World<T>>, steps: seq<Step<T>>, n: nat, k: nat)
    requires Behaviour(board, states, steps) && n < |states| && k < |states[n].w.started|
    ensures var w := states[n].w; var job := w.started[k];
            multiset(JobsOf(w.calls))[job] + multiset(w.jobs)[job] + multiset(w.stopped)[job] == 1
  {
    BehaviourInv(board, states, steps, n);
    var w := states[n].w;
    CountOne(w.started, k);
    assert multiset(w.Trail()) == multiset(JobsOf(w.calls)) + multiset(w.jobs);
  }

  /** A job still waiting has not missed its due time. */
  lemma WaitingNotPast<T>(z: World<T>, j: nat)
    requires WorldInv(z) && j < |z.w.jobs|
    ensures z.s.now <= z.w.Due(z.w.jobs[j])
    ensures z.w.jobs[j].late0 <= z.w.late && z.w.jobs[j].lost0 <= z.w.lost
  {
    assert Aged(z.w, z.w.jobs[j]);
    TracksNotPast(z.s, z.w);
    JobsOrdered(z.w);
    assert j > 0 ==> Before(z.w.jobs[0], z.w.jobs[j]);
  }

  /** With on-time interrupts on an exact counter, outside the handler: a start that was not stopped and whose deadline
      has passed has had its callback run, at exactly its start time plus its timeout, by exactly one call. */
  lemma Punctual<T>(board: Board, states: seq<World<T>>, steps: seq<Step<T>>, n: nat, k: nat) returns (i: nat)
    requires Behaviour(board, states, steps) && n < |states| && k < |states[n].w.started|
    requires board.lead == 0 && states[n].w.late == 0 && !states[n].s.inIrq
    requires var w := states[n].w; var job := w.started[k];
             job !in w.stopped && job.startedAt + job.reload < w.now
    ensures var w := states[n].w; var job := w.started[k];
            && i < w.ran && w.ran == |w.calls|
            && w.calls[i].job == job
            && w.calls[i].at == job.startedAt + job.reload
            && forall j | 0 <= j < |w.calls| && j != i :: w.calls[j].job != job
  {
    BehaviourInv(board, states, steps, n);
    EachStartOnce(board, states, steps, n, k);
    var w, job := states[n].w, states[n].w.started[k];
    if job in w.jobs {
      var j :| 0 <= j < |w.jobs| && w.jobs[j] == job;
      WaitingNotPast(states[n], j);
      assert false;
    }
    assert job in JobsOf(w.calls);
    i :| 0 <= i < |w.calls| && JobsOf(w.calls)[i] == job;
    ServiceTime(board, states, steps, n, i);
    forall j | 0 <= j < |w.calls| && j != i ensures w.calls[j].job != job {
      ServiceOrder(board, states, steps, n, if i < j then i else j, if i < j then j else i);
    }
  }

  /** With on-time interrupts on an exact counter, callbacks run in deadline order, start order for equal deadlines. */
  lemma PunctualOrder<T>(board: Board, states: seq<World<T>>, steps: seq<Step<T>>, n: nat, i: nat, k: nat)
    requires Behaviour(board, states, steps) && n < |states| && i < k < |states[n].w.calls|
    requires board.lead == 0 && states[n].w.late == 0
    ensures var a, b := states[n].w.calls[i], states[n].w.calls[k];
            && a.at == a.job.startedAt + a.job.reload && b.at == b.job.startedAt + b.job.reload
            && (a.at < b.at || (a.at == b.at && a.job.serial < b.job.serial))
  {
    ServiceOrder(board, states, steps, n, i, k);
    ServiceTime(board, states, steps, n, i);
    ServiceTime(board, states, steps, n, k);
  }

  lemma {:induction false} DeltaInSum<T>(l: seq<Entry<T>>, i: nat)
    requires i < |l|
    ensures l[i].delta <= Sum(l)
  {
    if i > 0 {
      DeltaInSum(l[1..], i - 1);
    }
  }

  /** No stored delta, and no sum of the remaining time and later deltas, exceeds 2^32 - 1 in any state of any run. */
  lemma NoWrap<T>(board: Board, states: seq<World<T>>, steps: seq<Step<T>>, n: nat)
    requires Behaviour(board, states, steps) && n < |states|
    ensures var s := states[n].s;
            && (forall i | 0 <= i < |s.timers| :: s.timers[i].delta < 0x1_0000_0000)
            && (s.timers != [] ==> Remaining(s) + Sum(s.timers[1..]) < 0x1_0000_0000)
  {
    BehaviourInv(board, states, steps, n);
    var s := states[n].s;
    if s.timers != [] {
      TotalSplit(s);
      forall i | 1 <= i < |s.timers| ensures s.timers[i].delta <= UINT32_MAX {
        DeltaInSum(s.timers[1..], i - 1);
      }
    }
  }

  // ---------------------------------------------------------------- the board's lead

  lemma Extend<T>(board: Board, states: seq<World<T>>, steps: seq<Step<T>>, step: Step<T>)
    requires Behaviour(board, states, steps) && Enabled(states[|steps|].s, step)
    ensures Behaviour(board, states + [Next(states[|steps|], step)], steps + [step])
  {
  }

  /** A fresh timer that was just started is the whole list and the whole queue. */
  lemma FirstStart<T>(board: Board, x: T, value: uint32) returns (states: seq<World<T>>, steps: seq<Step<T>>)
    requires board.minimum <= value && board.lead <= value
    ensures Behaviour(board, states, steps)
    ensures states[|steps|] == Started(board, x, value, 0)
  {
    states, steps := [Init(board)], [];
    Extend(board, states, steps, Store(x, value));
    states, steps := states + [Next(states[|steps|], Store(x, value))], steps + [Store(x, value)];
    var z := states[|steps|];
    assert z == World(Boot(board).(reload := map[x := value]), Init(board).w);
    Extend(board, states, steps, Start(x));
    states, steps := states + [Next(z, Start(x))], steps + [Start(x)];
    assert Next(z, Start(x)) == Started(board, x, value, 0);
  }

  /** The state in which x, alone, was started at time 0 and n ticks have passed. */
  function Started<T>(board: Board, x: T, value: uint32, n: nat): World<T>
  {
    World(
      State(board, n, 0, [Entry(x, value)], true, false, [], Service(None, None, false),
            map[x := value], 0, 1, 0, NoPass),
      Ledger(n, [Job(x, 0, 0, value, 0, 0)], [], 0, [], [Job(x, 0, 0, value, 0, 0)], 0, board.lead))
  }

  /** While the head is not due, ticks only move the clock. */
  lemma {:induction false} TicksUntilDue<T>(board: Board, x: T, value: uint32, n: nat)
    returns (states: seq<World<T>>, steps: seq<Step<T>>)
    requires board.minimum <= value && board.lead + n <= value
    ensures Behaviour(board, states, steps)
    ensures states[|steps|] == Started(board, x, value, n)
  {
    if n == 0 {
      states, steps := FirstStart(board, x, value);
    } else {
      states, steps := TicksUntilDue(board, x, value, n - 1);
      Extend(board, states, steps, Tick);
      assert Next(states[|steps|], Tick) == Started(board, x, value, n);
      states, steps := states + [Next(states[|steps|], Tick)], steps + [Tick];
    }
  }

  /** A lone timer on a board with a lead is called `lead` ticks early, without any interrupt being late. */
  lemma LoneTimerEarly<T>(board: Board, x: T, value: uint32) returns (states: seq<World<T>>, steps: seq<Step<T>>)
    requires board.minimum <= value && 1 <= board.lead <= value
    ensures Behaviour(board, states, steps)
    ensures var w := states[|steps|].w;
            && |w.calls| == 1 && w.late == 0
            && w.calls[0].job.timer == x && w.calls[0].job.reload == value
            && w.calls[0].at + board.lead == w.calls[0].job.startedAt + value
  {
    var n := value - board.lead;
    states, steps := TicksUntilDue(board, x, value, n);
    var z := states[|steps|];
    Extend(board, states, steps, IrqBegin);
    states, steps := states + [Next(z, IrqBegin)], steps + [IrqBegin];
    assert Reached(z.w.jobs, z.w.Origin()) == 1;
    assert z.w.jobs[..1] == z.w.jobs;
    assert Next(z, IrqBegin).w.calls == [] + ServeAll(z.w.jobs, n, 0, board.lead);
  }

  /** Some call of the run came before its start time plus its timeout. */
  ghost predicate CallsEarly<T>(states: seq<World<T>>) {
    exists n, i | 0 <= n < |states| && 0 <= i < |states[n].w.calls| ::
      states[n].w.calls[i].at < states[n].w.calls[i].job.startedAt + states[n].w.calls[i].job.reload
  }

  /** In runs whose callbacks make harmless requests and whose counter readings do not wrap, the guarantee that no
      timer is ever early holds on a board if and only if the board's elapsed count is exact. */
  lemma NeverEarlyExactly<T(!new)>(board: Board, x: T)
    ensures board.lead == 0 <==>
            forall states: seq<World<T>>, steps: seq<Step<T>> :: Behaviour(board, states, steps) ==> !CallsEarly(states)
  {
    if board.lead == 0 {
      forall states: seq<World<T>>, steps: seq<Step<T>> | Behaviour(board, states, steps) ensures !CallsEarly(states) {
        forall n, i | 0 <= n < |states| && 0 <= i < |states[n].w.calls|
          ensures states[n].w.calls[i].at >= states[n].w.calls[i].job.startedAt + states[n].w.calls[i].job.reload
        {
          NeverEarly(board, states, steps, n, i);
        }
      }
    } else {
      var value := if board.lead < board.minimum then board.minimum else board.lead;
      var states, steps := LoneTimerEarly(board, x, value);
      assert states[|steps|].w.calls[0].at < states[|steps|].w.calls[0].job.startedAt + value;
      assert CallsEarly(states);
    }
  }

  // ---------------------------------------------------------------- how early at most

  lemma Lengths<T>(board: Board, states: seq<World<T>>, steps: seq<Step<T>>)
    requires Behaviour(board, states, steps)
    ensures |states| == |steps| + 1 && states[0] == Init(board)
  {
  }

  lemma Taken<T>(board: Board, states: seq<World<T>>, steps: seq<Step<T>>, n: nat)
    requires Behaviour(board, states, steps) && n < |steps|
    ensures |states| == |steps| + 1 && states[n + 1] == Next(states[n], steps[n]) && Enabled(states[n].s, steps[n])
  {
    assert Follows(states[n], steps[n], states[n + 1]);
  }

  /** Every start on the books was made by a step of the run. */
  lemma {:induction false} StartedWhen<T>(board: Board, states: seq<World<T>>, steps: seq<Step<T>>, n: nat, k: nat)
    returns (m: nat)
    requires Behaviour(board, states, steps) && n < |states| && k < |states[n].w.started|
    ensures var job := states[n].w.started[k];
            && m < n && steps[m] == Step.Start(job.timer)
            && job == Job(job.timer, k, states[m].w.now, Reload(states[m].s, job.timer),
                          states[m].w.late, states[m].w.lost)
  {
    hide Enabled, Do, Loss, Enqueue, Dequeue, Behaviour;
    Lengths(board, states, steps);
    if n > 0 {
      Taken(board, states, steps, n - 1);
      StartsGrow(states[n - 1], steps[n - 1]);
      if k < |states[n - 1].w.started| {
        m := StartedWhen(board, states, steps, n - 1, k);
      } else {
        m := n - 1;
      }
    }
  }

  lemma StartsGrow<T>(z: World<T>, step: Step<T>)
    ensures var w := Next(z, step).w;
            || w.started == z.w.started
            || (&& step.Start?
                && var timeout := Reload(z.s, step.timer);
                   w.started == z.w.started + [Job(step.timer, |z.w.started|, z.w.now, timeout, z.w.late, z.w.lost)])
  {
    hide Do, Loss;
  }

  /** Every call on the books was made by an interrupt of the run, for a job that was waiting then. */
  lemma {:induction false} CalledWhen<T>(board: Board, states: seq<World<T>>, steps: seq<Step<T>>, n: nat, i: nat)
    returns (k: nat)
    requires Behaviour(board, states, steps) && n < |states| && i < |states[n].w.calls|
    ensures var c := states[n].w.calls[i];
            && k < n && steps[k] == Step.IrqBegin && c.job in states[k].w.jobs
            && c == Served(c.job, states[k].w.now, states[k].w.late, states[k].w.lost)
  {
    hide Enabled, Do, Loss, Enqueue, Dequeue, Reached, Behaviour;
    Lengths(board, states, steps);
    if n > 0 {
      Taken(board, states, steps, n - 1);
      CallsGrow(states[n - 1], steps[n - 1]);
      if i < |states[n - 1].w.calls| {
        k := CalledWhen(board, states, steps, n - 1, i);
      } else {
        k := n - 1;
      }
    }
  }

  lemma CallsGrow<T>(z: World<T>, step: Step<T>)
    ensures var w := Next(z, step).w;
            var due := ServeAll(z.w.jobs[..Reached(z.w.jobs, z.w.Origin())], z.w.now, z.w.late, z.w.lost);
            w.calls == if step == Step.IrqBegin then z.w.calls + due else z.w.calls
  {
    hide Do, Loss;
  }

  /** Each arming of the hardware loses at most the board's lead. */
  lemma {:induction false} LostBounded<T>(board: Board, states: seq<World<T>>, steps: seq<Step<T>>, m: nat, n: nat)
    requires Behaviour(board, states, steps) && m <= n < |states|
    ensures states[m].s.arms <= states[n].s.arms
    ensures states[n].w.lost <= states[m].w.lost + board.lead * (states[n].s.arms - states[m].s.arms)
  {
    hide Behaviour, Next, Enabled;
    Lengths(board, states, steps);
    if m < n {
      LostBounded(board, states, steps, m, n - 1);
      PassesAtMost(board, states, steps, n - 1);
      Taken(board, states, steps, n - 1);
      StepLoses(states[n - 1], steps[n - 1]);
      var earlier, more := states[n - 1].s.arms - states[m].s.arms, states[n].s.arms - states[n - 1].s.arms;
      Budget(board.lead, earlier, more);
    }
  }

  lemma Budget(lead: nat, earlier: nat, more: nat)
    ensures lead * (earlier + more) == lead * earlier + lead * more
    ensures more > 0 ==> lead * more >= lead
  {
  }

  lemma PassesAtMost<T>(board: Board, states: seq<World<T>>, steps: seq<Step<T>>, n: nat)
    requires Behaviour(board, states, steps) && n < |states|
    ensures states[n].s.passes <= 5 && states[n].s.board == board && states[n].w.now == states[n].s.now
  {
    BehaviourInv(board, states, steps, n);
  }

  lemma StepLoses<T>(z: World<T>, step: Step<T>)
    ensures Next(z, step).s.arms >= z.s.arms
    ensures Next(z, step).w.lost <= z.w.lost + if Next(z, step).s.arms == z.s.arms then 0 else z.s.board.lead
  {
    hide Do, Enqueue, Dequeue;
    ArmsGrow(z.s, step);
  }

  lemma ArmsGrow<T>(s: State<T>, step: Step<T>)
    ensures Do(s, step).arms >= s.arms
  {
    hide Remove, InsertAfter, Settled, Remaining, Listed;
  }

  /** How early a callback can be on a board with a lead: it comes at least its timeout after its start, less the lead
      for each time the hardware was armed in between. */
  lemma EarlyAtMost<T>(board: Board, states: seq<World<T>>, steps: seq<Step<T>>, n: nat, i: nat)
    returns (m: nat, k: nat)
    requires Behaviour(board, states, steps) && n < |states| && i < |states[n].w.calls|
    ensures var c := states[n].w.calls[i];
            && m < k < n && steps[m] == Step.Start(c.job.timer) && steps[k] == Step.IrqBegin
            && states[m].s.now == c.job.startedAt && c.job.reload == Reload(states[m].s, c.job.timer)
            && states[k].s.now == c.at
            && c.at + board.lead * (states[k].s.arms - states[m].s.arms) >= c.job.startedAt + c.job.reload
  {
    hide Behaviour, WorldInv;
    var c := states[n].w.calls[i];
    k := CalledWhen(board, states, steps, n, i);
    PassesAtMost(board, states, steps, k);
    var p := WaitingStarted(board, states, steps, k, c.job);
    m := StartedWhen(board, states, steps, k, p);
    PassesAtMost(board, states, steps, m);
    LostBounded(board, states, steps, m, k);
    ServiceTime(board, states, steps, n, i);
  }

  lemma OnTheBooks<T>(started: seq<Job<T>>, trail: seq<Job<T>>, stopped: seq<Job<T>>, job: Job<T>)
    requires multiset(started) == multiset(trail) + multiset(stopped) && job in trail
    ensures job in started
  {
    assert job in multiset(trail);
    assert job in multiset(started);
  }

  /** A waiting job is on the books as started. */
  lemma WaitingStarted<T>(board: Board, states: seq<World<T>>, steps: seq<Step<T>>, k: nat, job: Job<T>)
    returns (p: nat)
    requires Behaviour(board, states, steps) && k < |states| && job in states[k].w.jobs
    ensures p < |states[k].w.started| && states[k].w.started[p] == job
  {
    hide Tracks, Inv, InOrder, Dated;
    BehaviourInv(board, states, steps, k);
    var w := states[k].w;
    var j :| 0 <= j < |w.jobs| && w.jobs[j] == job;
    assert w.Trail()[|w.calls| + j] == job;
    OnTheBooks(w.started, w.Trail(), w.stopped, job);
    p :| 0 <= p < |w.started| && w.started[p] == job;
  }

  // ---------------------------------------------------------------- low power

  /** After n steps: the low-power passes counted since the latest of start-up, the last call of TimerHwStart and the
      last stop entry. */
  ghost function QuietPasses<T>(states: seq<World<T>>, steps: seq<Step<T>>, n: nat): nat
    requires n <= |steps| < |states|
  {
    if n == 0 then 0
    else if states[n].s.arms != states[n - 1].s.arms || states[n].s.sleeps != states[n - 1].s.sleeps then 0
    else if steps[n - 1].PassAct? && states[n - 1].s.pass.Loaded? then QuietPasses(states, steps, n - 1) + 1
    else QuietPasses(states, steps, n - 1)
  }

  /** After n steps: since the latest of those events, a pass has stored a count it had loaded, not 0, before an
      arming. */
  ghost predicate Cut<T>(states: seq<World<T>>, steps: seq<Step<T>>, n: nat)
    requires n <= |steps| < |states|
  {
    && n > 0
    && states[n].s.arms == states[n - 1].s.arms && states[n].s.sleeps == states[n - 1].s.sleeps
    && (|| Cut(states, steps, n - 1)
        || (steps[n - 1].PassAct? && Stale(states[n - 1].s)))
  }

  predicate Stale<T>(s: State<T>) { s.pass.Loaded? && s.pass.count > 0 && s.pass.arms != s.arms }

  predicate HeadRuns<T>(s: State<T>) { s.timers != [] && s.running }

  /** A pass decides to enter stop mode exactly if the head runs and five passes have been counted, to count exactly if
      the head runs and fewer have, and on nothing without a running head. Its tests change nothing else. */
  lemma TestDecides<T>(s: State<T>)
    requires Enabled(s, PassTest)
    ensures var t := Do(s, PassTest);
            && (t.pass == Entering <==> HeadRuns(s) && s.passes >= 5)
            && (t.pass == Counting <==> HeadRuns(s) && s.passes < 5)
            && (t.pass == NoPass <==> !HeadRuns(s))
            && t.(pass := NoPass) == s
  {
  }

  /** State after k low-power passes that nothing interrupts. */
  function LowPowers<T>(s: State<T>, k: nat): State<T> {
    if k == 0 then s else DoLowPower(LowPowers(s, k - 1))
  }

  /** With a running head, five passes in a row count and every sixth sleeps, and they change nothing else. */
  lemma {:induction false} EverySixthSleeps<T>(s: State<T>, k: nat)
    requires HeadRuns(s) && s.pass == NoPass && s.passes <= 5
    ensures LowPowers(s, k) == s.(passes := (s.passes + k) % 6, sleeps := s.sleeps + (s.passes + k) / 6)
  {
    hide DoLowPower;
    if k > 0 {
      EverySixthSleeps(s, k - 1);
      PassCountsOrSleeps(LowPowers(s, k - 1));
      SixthNext(s.passes + (k - 1));
    } else {
      assert s.passes % 6 == s.passes && s.passes / 6 == 0;
    }
  }

  /** One pass with a running head: up to five it counts, at five it sleeps. */
  lemma PassCountsOrSleeps<T>(s: State<T>)
    requires HeadRuns(s) && s.pass == NoPass
    ensures s.passes < 5 ==> DoLowPower(s) == s.(passes := s.passes + 1)
    ensures s.passes >= 5 ==> DoLowPower(s) == s.(passes := 0, sleeps := s.sleeps + 1)
  {
  }

  lemma SixthNext(n: nat)
    ensures n % 6 < 5 ==> (n + 1) % 6 == n % 6 + 1 && (n + 1) / 6 == n / 6
    ensures n % 6 == 5 ==> (n + 1) % 6 == 0 && (n + 1) / 6 == n / 6 + 1
  {
  }

  /** Without a running head no pass ever sleeps. */
  lemma {:induction false} IdleNeverSleeps<T>(s: State<T>, k: nat)
    requires !HeadRuns(s) && s.pass == NoPass
    ensures LowPowers(s, k) == s
  {
    if k > 0 {
      IdleNeverSleeps(s, k - 1);
    }
  }

  /** What a step that is not of a low-power pass does to the pass counter. */
  lemma PassesFollow<T>(s: State<T>, step: Step<T>)
    requires !step.PassTest? && !step.PassLoad? && !step.PassAct?
    ensures var t := Do(s, step);
            && t.sleeps == s.sleeps && t.pass == s.pass && t.arms >= s.arms
            && t.passes == if t.arms == s.arms then s.passes else 0
  {
    match step
    case Start(x) => StartPasses(s, x);
    case Stop(x) => StopPasses(s, x);
    case _ =>
  }

  /** What is known of the counter after n steps: it is never below the number of quiet passes, and equal to it
      exactly if no count was cut; and so for a count that is loaded. */
  ghost predicate Counted<T>(states: seq<World<T>>, steps: seq<Step<T>>, n: nat)
    requires n <= |steps| < |states|
  {
    var s, quiet := states[n].s, QuietPasses(states, steps, n);
    && s.passes >= quiet
    && (s.passes == quiet <==> !Cut(states, steps, n))
    && (s.pass.Loaded? ==>
          && s.pass.arms <= s.arms
          && if s.pass.arms == s.arms then s.pass.count == s.passes else s.passes == 0 && !Cut(states, steps, n))
  }

  lemma {:induction false} PassesCounted<T>(board: Board, states: seq<World<T>>, steps: seq<Step<T>>, n: nat)
    requires Behaviour(board, states, steps) && n < |states|
    ensures Counted(states, steps, n)
  {
    if n > 0 {
      PassesCounted(board, states, steps, n - 1);
      var step := steps[n - 1];
      Taken(board, states, steps, n - 1);
      if !step.PassTest? && !step.PassLoad? && !step.PassAct? {
        PassesFollow(states[n - 1].s, step);
      }
    }
  }

  /** For any interrupts during passes: the counter is the number of quiet passes if and only if no count was cut, and
      else it is larger. */
  lemma PassesAreQuietExactly<T>(board: Board, states: seq<World<T>>, steps: seq<Step<T>>, n: nat)
    requires Behaviour(board, states, steps) && n < |states|
    ensures QuietPasses(states, steps, n) <= states[n].s.passes <= 5
    ensures states[n].s.passes == QuietPasses(states, steps, n) <==> !Cut(states, steps, n)
  {
    PassesCounted(board, states, steps, n);
    BehaviourInv(board, states, steps, n);
  }

  lemma EntryStep<T>(s: State<T>, step: Step<T>)
    requires Enabled(s, step) && s.passes <= 5 && Do(s, step).pass == Entering
    ensures var t := Do(s, step);
            if step.PassTest? then HeadRuns(s) && t.passes == s.passes == 5 && t.arms == s.arms
            else s.pass == Entering && t.arms >= s.arms && t.passes == if t.arms == s.arms then s.passes else 0
  {
    if !step.PassTest? && !step.PassLoad? && !step.PassAct? {
      PassesFollow(s, step);
    }
  }

  /** A pass that is about to enter stop mode has seen a running head and a count of five. */
  lemma {:induction false} EntryTested<T>(board: Board, states: seq<World<T>>, steps: seq<Step<T>>, n: nat)
    returns (m: nat)
    requires Behaviour(board, states, steps) && n < |states| && states[n].s.pass == Entering
    ensures m < n && steps[m] == PassTest && HeadRuns(states[m].s) && states[m].s.passes == 5
    ensures forall k | m < k <= n :: states[k].s.pass == Entering
    ensures states[m].s.arms <= states[n].s.arms
    ensures states[n].s.passes == if states[n].s.arms == states[m].s.arms then 5 else 0
  {
    hide Behaviour, Do, Enabled;
    Lengths(board, states, steps);
    var step, s := steps[n - 1], states[n - 1].s;
    Taken(board, states, steps, n - 1);
    PassesAtMost(board, states, steps, n - 1);
    EntryStep(s, step);
    if step.PassTest? {
      m := n - 1;
    } else {
      m := EntryTested(board, states, steps, n - 1);
    }
  }

  /** A stop entry as it is meant: with a running head, after five passes in which the hardware was neither armed nor
      stopped. */
  ghost predicate Meant<T>(states: seq<World<T>>, steps: seq<Step<T>>, n: nat)
    requires n <= |steps| < |states|
  {
    HeadRuns(states[n].s) && QuietPasses(states, steps, n) == 5
  }

  /** Stop mode is entered exactly by the action of a pass that has seen a running head and a count of five. The entry
      is as it is meant if and only if since then nothing has armed the hardware and the head still runs, and the
      count was not cut. */
  lemma StopModeGate<T>(board: Board, states: seq<World<T>>, steps: seq<Step<T>>, n: nat) returns (m: nat)
    requires Behaviour(board, states, steps) && n < |steps|
    ensures states[n + 1].s.sleeps != states[n].s.sleeps <==> steps[n] == PassAct && states[n].s.pass == Entering
    ensures states[n].s.pass == Entering ==>
              && m < n && steps[m] == PassTest && HeadRuns(states[m].s) && states[m].s.passes == 5
              && (Meant(states, steps, n) <==>
                    HeadRuns(states[n].s) && states[n].s.arms == states[m].s.arms && !Cut(states, steps, n))
  {
    Taken(board, states, steps, n);
    if !steps[n].PassTest? && !steps[n].PassLoad? && !steps[n].PassAct? {
      PassesFollow(states[n].s, steps[n]);
    }
    m := 0;
    if states[n].s.pass == Entering {
      m := EntryTested(board, states, steps, n);
      PassesAreQuietExactly(board, states, steps, n);
    }
  }

  /** Passes are not interrupted. */
  ghost predicate Whole<T>(states: seq<World<T>>, steps: seq<Step<T>>)
    requires |steps| < |states|
  {
    forall i | 0 <= i < |steps| && states[i].s.pass != NoPass :: steps[i].PassLoad? || steps[i].PassAct?
  }

  lemma {:induction false} WholeNotCut<T>(board: Board, states: seq<World<T>>, steps: seq<Step<T>>, n: nat)
    requires Behaviour(board, states, steps) && Whole(states, steps) && n < |states|
    ensures !Cut(states, steps, n) && (states[n].s.pass.Loaded? ==> states[n].s.pass.arms == states[n].s.arms)
  {
    if n > 0 {
      WholeNotCut(board, states, steps, n - 1);
      var step := steps[n - 1];
      Taken(board, states, steps, n - 1);
      if !step.PassTest? && !step.PassLoad? && !step.PassAct? {
        PassesFollow(states[n - 1].s, step);
      }
    }
  }

  /** If passes are not interrupted, the counter is the number of quiet passes and every stop entry is as it is meant.
      */
  lemma WholePassesGate<T>(board: Board, states: seq<World<T>>, steps: seq<Step<T>>, n: nat)
    requires Behaviour(board, states, steps) && Whole(states, steps) && n < |steps|
    ensures states[n].s.passes == QuietPasses(states, steps, n)
    ensures states[n + 1].s.sleeps != states[n].s.sleeps ==> Meant(states, steps, n) && states[n].s.passes == 5
  {
    PassesAreQuietExactly(board, states, steps, n);
    WholeNotCut(board, states, steps, n);
    var m := StopModeGate(board, states, steps, n);
    if states[n].s.pass == Entering {
      var before := EntryTested(board, states, steps, n);
      Taken(board, states, steps, n - 1);
      assert before == n - 1;
    }
  }
}
