/** The delta list refines the queue of absolute deadlines: along every run, the list's partial sums of deltas,
    counted from the head's remaining time, are the due times of the ledger's jobs, in the same order. */
module TimerRefinement {
  import opened TimerModel
  import opened Words
  import opened TimerLedger

  /** Entry by entry: same timer, and the key is `origin` plus the deltas up to and including this entry. */
  predicate Matches<T(==)>(l: seq<Entry<T>>, origin: int, jobs: seq<Job<T>>) {
    && |l| == |jobs|
    && (l != [] ==>
          && l[0].timer == jobs[0].timer
          && jobs[0].Key() == origin + l[0].delta
          && Matches(l[1..], jobs[0].Key(), jobs[1..]))
  }

  ghost predicate Tracks<T>(s: State<T>, w: Ledger<T>) {
    && w.now == s.now
    && Matches(Settled(s), w.Origin(), w.jobs)
    && w.ran <= |w.calls|
    && |s.pending| == |w.calls| - w.ran
    && (forall i | 0 <= i < |s.pending| :: s.pending[i] == w.calls[w.ran + i].job.timer)
  }

  // ---------------------------------------------------------------- list against queue

  lemma {:induction false} MatchesListed<T>(l: seq<Entry<T>>, origin: int, jobs: seq<Job<T>>, x: T)
    requires Matches(l, origin, jobs)
    ensures Listed(l, x) <==> HasJob(jobs, x)
  {
    if l != [] {
      MatchesListed(l[1..], jobs[0].Key(), jobs[1..], x);
    }
  }

  /** The splice by deltas lands where stable insertion by key does. */
  lemma {:induction false} InsertMatches<T>(l: seq<Entry<T>>, origin: int, jobs: seq<Job<T>>, agg: nat, job: Job<T>,
      timeout: nat)
    requires Matches(l, origin, jobs) && agg <= timeout
    requires job.Key() == origin - agg + timeout
    ensures Matches(InsertAfter(l, agg, job.timer, timeout), origin, Enqueue(jobs, job))
  {
    var r, q := InsertAfter(l, agg, job.timer, timeout), Enqueue(jobs, job);
    if l == [] {
      assert r[1..] == [] && q[1..] == [];
    } else if agg + l[0].delta > timeout {
      assert r[1..] == [Entry(l[0].timer, l[0].delta - (timeout - agg))] + l[1..];
      assert r[1..][1..] == l[1..];
      assert q[1..] == jobs;
    } else {
      assert r[1..] == InsertAfter(l[1..], agg + l[0].delta, job.timer, timeout);
      assert q[1..] == Enqueue(jobs[1..], job);
      InsertMatches(l[1..], jobs[0].Key(), jobs[1..], agg + l[0].delta, job, timeout);
    }
  }

  lemma {:induction false} RemoveMatches<T>(l: seq<Entry<T>>, origin: int, jobs: seq<Job<T>>, x: T)
    requires Matches(l, origin, jobs)
    ensures Matches(Remove(l, x), origin, Dequeue(jobs, x))
  {
    var r := Remove(l, x);
    if l == [] {
    } else if l[0].timer == x {
      if |l| > 1 {
        assert r[1..] == l[1..][1..];
      }
    } else {
      assert r[1..] == Remove(l[1..], x);
      RemoveMatches(l[1..], jobs[0].Key(), jobs[1..], x);
    }
  }

  /** The zero prefix of the list is the reached prefix of the queue. */
  lemma {:induction false} ExpireMatches<T>(l: seq<Entry<T>>, origin: int, jobs: seq<Job<T>>)
    requires Matches(l, origin, jobs)
    ensures Expired(l) == Reached(jobs, origin)
    ensures Matches(l[Expired(l)..], origin, jobs[Expired(l)..])
    ensures forall i | 0 <= i < Expired(l) :: jobs[i].timer == l[i].timer
  {
    if l != [] && l[0].delta == 0 {
      ExpireMatches(l[1..], origin, jobs[1..]);
      var n := Expired(l[1..]);
      assert l[1..][n..] == l[n + 1..] && jobs[1..][n..] == jobs[n + 1..];
      forall i | 0 <= i < n + 1 ensures jobs[i].timer == l[i].timer {
        if i > 0 {
          assert jobs[1..][i - 1].timer == l[1..][i - 1].timer;
        }
      }
    } else {
      assert l[0..] == l && jobs[0..] == jobs;
    }
  }

  /** Moving the origin by what the head's delta changes leaves the list where it was. */
  lemma RebaseMatches<T>(l: seq<Entry<T>>, origin: int, jobs: seq<Job<T>>, r: seq<Entry<T>>, origin': int)
    requires Matches(l, origin, jobs)
    requires |r| == |l|
    requires l != [] ==> r[0].timer == l[0].timer && origin' + r[0].delta == origin + l[0].delta && r[1..] == l[1..]
    ensures Matches(r, origin', jobs)
  {
  }

  /** No listed job's due time is in the past. */
  lemma TracksNotPast<T>(s: State<T>, w: Ledger<T>)
    requires Tracks(s, w)
    ensures w.jobs != [] ==> w.Origin() <= w.jobs[0].Key()
  {
  }

  // ---------------------------------------------------------------- one step

  /** What a call of TimerHwStart swallows of the head's delta: the board's lead, as far as there is any delta.
      Re-arming a head that was armed at this very tick swallows nothing more. */
  function Loss<T(==)>(s: State<T>, step: Step<T>): nat {
    var t := Do(s, step);
    if t.arms == s.arms || t.timers == [] || (step.IrqEnd? && s.running) then 0
    else if s.board.lead < t.timers[0].delta then s.board.lead else t.timers[0].delta
  }

  function TimeoutOf<T(==)>(s: State<T>, step: Step<T>): nat {
    if step.Start? then Reload(s, step.timer) else 0
  }

  /** The transition system and the ledger side by side. */
  datatype World<T> = World(s: State<T>, w: Ledger<T>)

  function Next<T(==)>(z: World<T>, step: Step<T>): World<T> {
    World(Do(z.s, step), Record(z.w, step, TimeoutOf(z.s, step), Loss(z.s, step)))
  }

  /** A freshly edited list that is armed now tracks the queue whose origin moves by the loss. */
  lemma ArmMatches<T>(s: State<T>, origin: int, jobs: seq<Job<T>>)
    requires Matches(s.timers, origin, jobs) && s.timers != []
    ensures var loss := if s.board.lead < s.timers[0].delta then s.board.lead else s.timers[0].delta;
            Matches(Settled(Arm(s)), origin + loss, jobs)
  {
  }

  /** A start, but for the note the handler makes of it. */
  function AfterStart<T(==)>(s: State<T>, w: Ledger<T>, x: T): World<T> {
    World(DoStart(s, x), Record(w, Start(x), Reload(s, x), Loss(s, Start(x))))
  }

  lemma StartFirstTracks<T>(s: State<T>, w: Ledger<T>, x: T)
    requires Inv(s) && Tracks(s, w) && s.timers == []
    ensures var z := AfterStart(s, w, x); Tracks(z.s, z.w)
  {
  }

  /** A new front entry that takes its delta from the old one. */
  lemma FrontMatches<T>(l: seq<Entry<T>>, origin: int, jobs: seq<Job<T>>, job: Job<T>, timeout: nat)
    requires Matches(l, origin, jobs) && l != [] && timeout <= l[0].delta && job.Key() == origin + timeout
    ensures Matches([Entry(job.timer, timeout), Entry(l[0].timer, l[0].delta - timeout)] + l[1..], origin, [job] + jobs)
  {
  }

  lemma StartHeadTracks<T>(s: State<T>, w: Ledger<T>, x: T)
    requires Inv(s) && Tracks(s, w) && s.timers != [] && !Listed(s.timers, x) && !HasJob(w.jobs, x)
    requires Reload(s, x) < Remaining(s)
    ensures var z := AfterStart(s, w, x); Tracks(z.s, z.w)
  {
    hide Inv;
    var z, l, timeout := AfterStart(s, w, x), Settled(s), Reload(s, x);
    var job := Job(x, |w.started|, w.now, timeout, w.late, w.lost);
    var edited := s.(timers := [Entry(x, timeout), Entry(l[0].timer, l[0].delta - timeout)] + l[1..]);
    assert l[1..] == s.timers[1..];
    assert z.s == Arm(edited);
    FrontMatches(l, w.Origin(), w.jobs, job, timeout);
    ArmMatches(edited, w.Origin(), z.w.jobs);
  }

  lemma StartLaterTracks<T>(s: State<T>, w: Ledger<T>, x: T)
    requires Inv(s) && Tracks(s, w) && s.timers != [] && !Listed(s.timers, x) && !HasJob(w.jobs, x)
    requires Remaining(s) <= Reload(s, x)
    ensures var z := AfterStart(s, w, x); Tracks(z.s, z.w)
  {
    hide Inv, HasJob;
    var z, timeout := AfterStart(s, w, x), Reload(s, x);
    var job := Job(x, |w.started|, w.now, timeout, w.late, w.lost);
    var rem, rest := Remaining(s), s.timers[1..];
    assert Settled(s)[1..] == rest;
    assert Settled(z.s)[1..] == InsertAfter(rest, rem, x, timeout);
    assert z.w.jobs[1..] == Enqueue(w.jobs[1..], job);
    InsertMatches(rest, w.jobs[0].Key(), w.jobs[1..], rem, job, timeout);
  }

  lemma StartTracks<T>(s: State<T>, w: Ledger<T>, x: T)
    requires Inv(s) && Tracks(s, w)
    ensures var z := Next(World(s, w), Start(x)); Tracks(z.s, z.w)
  {
    var z, t := Next(World(s, w), Start(x)), AfterStart(s, w, x);
    assert z.s == Noted(t.s, x) && z.w == t.w && Settled(z.s) == Settled(t.s);
    SettledListed(s, x);
    MatchesListed(Settled(s), w.Origin(), w.jobs, x);
    if Listed(s.timers, x) {
    } else if s.timers == [] {
      StartFirstTracks(s, w, x);
    } else if Reload(s, x) < Remaining(s) {
      StartHeadTracks(s, w, x);
    } else {
      StartLaterTracks(s, w, x);
    }
  }

  lemma StopTracks<T>(s: State<T>, w: Ledger<T>, x: T)
    requires Inv(s) && Tracks(s, w)
    ensures var z := Next(World(s, w), Stop(x)); Tracks(z.s, z.w)
  {
    var z := Next(World(s, w), Stop(x));
    SettledListed(s, x);
    MatchesListed(Settled(s), w.Origin(), w.jobs, x);
    if !Listed(s.timers, x) {
      StopAbsent(s, x);
    } else if s.timers[0].timer == x {
      var rest := Remove(Settled(s), x);
      RemoveMatches(Settled(s), w.Origin(), w.jobs, x);
      if rest == [] {
        assert Settled(z.s) == [];
      } else if s.running {
        ArmMatches(s.(timers := rest), w.Origin(), z.w.jobs);
        assert z.s == Arm(s.(timers := rest));
      } else {
        assert Settled(z.s) == rest;
      }
    } else {
      assert Settled(s)[1..] == s.timers[1..];
      assert Settled(z.s)[1..] == Remove(s.timers[1..], x);
      RemoveMatches(s.timers[1..], w.jobs[0].Key(), w.jobs[1..], x);
      assert z.w.jobs[1..] == Dequeue(w.jobs[1..], x);
    }
  }

  lemma IrqBeginTracks<T>(s: State<T>, w: Ledger<T>)
    requires Inv(s) && !s.inIrq && Tracks(s, w)
    ensures var z := Next(World(s, w), IrqBegin); Tracks(z.s, z.w)
  {
    var z, l := Next(World(s, w), IrqBegin), Settled(s);
    ExpireMatches(l, w.Origin(), w.jobs);
    var n := Expired(l);
    if l == [] {
    } else if n == 0 {
      assert w.jobs[0..] == w.jobs;
      ArmMatches(s.(timers := l), w.Origin(), w.jobs);
      assert z.s == Arm(s.(timers := l));
    } else {
      assert Settled(z.s) == l[n..];
    }
  }

  lemma IrqEndTracks<T>(s: State<T>, w: Ledger<T>)
    requires Inv(s) && s.inIrq && s.pending == [] && Tracks(s, w)
    ensures var z := Next(World(s, w), IrqEnd); Tracks(z.s, z.w)
  {
  }

  lemma TickTracks<T>(s: State<T>, w: Ledger<T>)
    requires Inv(s) && Enabled(s, Tick) && Tracks(s, w)
    ensures var z := Next(World(s, w), Tick); Tracks(z.s, z.w)
  {
    var z := Next(World(s, w), Tick);
    if s.timers != [] {
      assert Settled(z.s)[1..] == s.timers[1..] == Settled(s)[1..];
      RebaseMatches(Settled(s), w.Origin(), w.jobs, Settled(z.s), z.w.Origin());
    }
  }

  lemma PassiveTracks<T>(s: State<T>, w: Ledger<T>, step: Step<T>)
    requires step.Call? || step.Init? || step.Store? || step.PassTest? || step.PassLoad? || step.PassAct?
    requires Enabled(s, step) && Tracks(s, w)
    ensures var z := Next(World(s, w), step); Tracks(z.s, z.w)
  {
    assert Settled(Do(s, step)) == Settled(s);
  }

  /** The refinement, one step at a time: whatever the step does to the list, it does what the ledger's step does to
      the queue. */
  lemma StepTracks<T>(s: State<T>, w: Ledger<T>, step: Step<T>)
    requires Inv(s) && Enabled(s, step) && Tracks(s, w)
    ensures var z := Next(World(s, w), step); Tracks(z.s, z.w)
  {
    match step
    case Tick => TickTracks(s, w);
    case Init(_) => PassiveTracks(s, w, step);
    case Start(x) => StartTracks(s, w, x);
    case Stop(x) => StopTracks(s, w, x);
    case Store(_, _) => PassiveTracks(s, w, step);
    case IrqBegin => IrqBeginTracks(s, w);
    case Call => PassiveTracks(s, w, step);
    case IrqEnd => IrqEndTracks(s, w);
    case PassTest => PassiveTracks(s, w, step);
    case PassLoad => PassiveTracks(s, w, step);
    case PassAct => PassiveTracks(s, w, step);
  }
}
