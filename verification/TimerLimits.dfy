/** Why the assumptions are needed: inputs beyond them on which the code goes wrong, even on an exact counter. */
module TimerLimits {
  import opened TimerModel
  import opened TimerSteps
  import opened TimerServer
  import opened Words

  const EXACT: Board := Board(0, 0)

  // ---------------------------------------------------------------- callbacks

  /** A callback that starts its own timer leads the walk to nothing it would serve.  So the walk ends there, and any
      timer still to be served loses its callback; `Harmless` allows this to the last callback only. */
  method RestartEndsWalk(server: TimerServer, self: TimerEvent) returns (goesOn: bool)
    requires server.Valid() && server.InIrq && self in server.Timers && Absent(server.Entries, self)
    modifies server, server.Timers
    ensures server.Valid() && server.Model() == DoStart(old(server.Model()), self)
    ensures !goesOn
  {
    server.Start(self);
    goesOn := self.next != null && self.next.timestamp == 0;
  }

  /** A callback that sets the next timer to be served to a positive value ends the walk just the same. */
  method SettingNextEndsWalk(server: TimerServer, self: TimerEvent, next: TimerEvent, value: uint32)
    returns (goesOn: bool)
    requires server.Valid() && server.InIrq && self in server.Timers && next in server.Timers && self != next
    requires Absent(server.Entries, self) && Absent(server.Entries, next) && self.next == next && next.timestamp == 0
    requires value > 0
    modifies server, server.Timers
    ensures server.Valid() && server.Model() == DoSetValue(old(server.Model()), next, value)
    ensures self.next == next && !goesOn
  {
    server.SetValue(next, value);
    goesOn := self.next != null && self.next.timestamp == 0;
  }

  /** The state in which the last callback of a batch runs, `live` is due in d ticks and `other` e ticks after it. */
  ghost predicate LastCallback<T>(s: State<T>, self: T, live: T, other: T, d: nat, e: nat) {
    && s.inIrq && s.pending == [] && s.walk == Service(Some(self), Some(live), false)
    && s.timers == [Entry(live, d), Entry(other, e)] && !s.running
    && Reload(s, live) == d + e
  }

  /** TimerReset of the first live timer, whose timeout makes it tie with the one behind it.  It is not due for another
      d + e ticks, but its timestamp is 0 and the walk goes on to it at once. */
  method ResettingLiveGoesOn(server: TimerServer, self: TimerEvent, live: TimerEvent, other: TimerEvent,
                             ghost d: nat, ghost e: nat)
    returns (goesOn: bool)
    requires server.Valid() && self in server.Timers && live in server.Timers && live != other
    requires Absent(server.Entries, self) && self != live && self.next == live
    requires LastCallback(server.Model(), self, live, other, d, e)
    modifies server, server.Timers
    ensures server.Valid() && server.Model() == DoStart(DoStop(old(server.Model()), live), live)
    ensures server.Entries == [Entry(other, d + e), Entry(live, 0)]
    ensures goesOn && self.next == live
    ensures !Enabled(DoStop(old(server.Model()), live), Step.Start(live))
  {
    ghost var s := server.Model();
    RestartedTies(s, live, other, d, e);
    server.Stop(live);
    server.Start(live);
    assert server.Entries[1].timer == live;
    goesOn := self.next != null && self.next.timestamp == 0;
  }

  lemma RestartedTies<T>(s: State<T>, a: T, b: T, d: nat, e: nat)
    requires a != b && s.timers == [Entry(a, d), Entry(b, e)] && !s.running && Reload(s, a) == d + e
    ensures DoStop(s, a) == s.(timers := [Entry(b, d + e)])
    ensures DoStart(DoStop(s, a), a) == s.(timers := [Entry(b, d + e), Entry(a, 0)])
    ensures !Listed(DoStop(s, a).timers, a) && !Waits(DoStart(DoStop(s, a), a).timers, a)
  {
    assert Settled(s)[2..] == [];
    var t := DoStop(s, a);
    assert t.timers == [Entry(b, d + e)] && t.timers[1..] == [];
    assert !Listed(t.timers, a) && Remaining(t) == d + e;
    assert InsertAfter(t.timers[1..], d + e, a, d + e) == [Entry(a, 0)];
  }

  /** The last timer of a batch, still linked to the first live timer, which has something to wait for. */
  ghost predicate LastServed(server: TimerServer, self: TimerEvent, live: TimerEvent)
    reads server, server.Timers, server.head
  {
    && server.Valid() && server.InIrq && server.Pending == []
    && server.Serving == Service(Some(self), Some(live), false)
    && self in server.Timers && live in server.Timers && self != live && Absent(server.Entries, self)
    && self.next == live && live.timestamp > 0
  }

  /** For requests that start the first live timer the restriction is exact: the walk goes on to it if and only if the
      request is not one that `Enabled` allows. */
  method StartingLiveExactly(server: TimerServer, self: TimerEvent, live: TimerEvent) returns (goesOn: bool)
    requires LastServed(server, self, live)
    modifies server, server.Timers
    ensures server.Model() == DoStart(old(server.Model()), live)
    ensures goesOn <==> !old(Enabled(server.Model(), Step.Start(live)))
  {
    hide Inv;
    ghost var s := server.Model();
    ListedIndex(s.timers, live);
    StartListed(s, live, live);
    server.Start(live);
    WaitsExactly(server.Entries, live);
    goesOn := self.next != null && self.next.timestamp == 0;
  }

  /** And so it is for requests that set it. */
  method SettingLiveExactly(server: TimerServer, self: TimerEvent, live: TimerEvent, value: uint32)
    returns (goesOn: bool)
    requires LastServed(server, self, live)
    modifies server, server.Timers
    ensures server.Model() == DoSetValue(old(server.Model()), live, value)
    ensures goesOn <==> !Enabled(DoStop(old(server.Model()), live), Step.Store(live, value))
  {
    hide Inv;
    StopListed(server.Model(), live, live);
    StopWalk(server.Model(), live);
    server.SetValue(live, value);
    goesOn := self.next != null && self.next.timestamp == 0;
  }

  lemma StopWalk<T>(s: State<T>, x: T)
    ensures var t := DoStop(s, x);
            t.inIrq == s.inIrq && t.pending == s.pending && t.walk == s.walk && t.board == s.board
  {
  }

  lemma {:induction false} WaitsExactly<T>(l: seq<Entry<T>>, x: T)
    requires Distinct(l) && Listed(l, x)
    ensures exists i | 0 <= i < |l| :: l[i].timer == x && (Waits(l, x) <==> l[i].delta > 0)
  {
    if l[0].timer != x {
      WaitsExactly(l[1..], x);
      var i :| 0 <= i < |l[1..]| && l[1..][i].timer == x && (Waits(l[1..], x) <==> l[1..][i].delta > 0);
      assert l[i + 1] == l[1..][i];
    }
  }

  /** The state of a run that has armed the timers l at time 0 on an exact board. */
  function Armed<T>(now: nat, l: seq<Entry<T>>, reload: map<T, uint32>): State<T> {
    State(EXACT, now, 0, l, true, false, [], Service(None, None, false), reload, 0, 1, 0, NoPass)
  }

  /** One more enabled step of a run from start-up. */
  lemma Took<T>(steps: seq<Step<T>>, s: State<T>, step: Step<T>)
    requires AllEnabled(Boot(EXACT), steps) && RunAll(Boot(EXACT), steps) == s && Enabled(s, step)
    ensures AllEnabled(Boot(EXACT), steps + [step]) && RunAll(Boot(EXACT), steps + [step]) == Do(s, step)
  {
    RunOne(s, step);
    RunAllConcat(Boot(EXACT), steps, [step]);
  }

  /** Three timers, set to 1, 3 and 4. */
  lemma ThreeSet<T>(c: T, a: T, b: T) returns (steps: seq<Step<T>>)
    requires c != a && c != b && a != b
    ensures AllEnabled(Boot(EXACT), steps)
    ensures RunAll(Boot(EXACT), steps) == Boot(EXACT).(reload := map[c := 1, a := 3, b := 4])
  {
    hide RunAll, AllEnabled;
    var boot: State<T> := Boot(EXACT);
    steps := [];
    Nothing(boot);
    Took(steps, boot, Store(c, 1));
    steps := steps + [Store(c, 1)];
    Took(steps, boot.(reload := map[c := 1]), Store(a, 3));
    steps := steps + [Store(a, 3)];
    Took(steps, boot.(reload := map[c := 1, a := 3]), Store(b, 4));
    steps := steps + [Store(b, 4)];
  }

  /** Started together, they are due one after the other. */
  lemma ThreeStarted<T>(c: T, a: T, b: T) returns (steps: seq<Step<T>>)
    requires c != a && c != b && a != b
    ensures AllEnabled(Boot(EXACT), steps)
    ensures RunAll(Boot(EXACT), steps) == Armed(0, [Entry(c, 1), Entry(a, 2), Entry(b, 1)], map[c := 1, a := 3, b := 4])
  {
    hide RunAll, AllEnabled, InsertAfter, Remaining, Settled;
    var m := map[c := 1, a := 3, b := 4];
    steps := ThreeSet(c, a, b);
    Took(steps, Boot(EXACT).(reload := m), Start(c));
    steps := steps + [Step.Start(c)];
    StartsBehind([], c, 1, a, 3, m);
    assert [Entry(c, 1)] + [] == [Entry(c, 1)];
    Took(steps, Armed(0, [Entry(c, 1)], m), Start(a));
    steps := steps + [Step.Start(a)];
    assert [Entry(c, 1)] + [Entry(a, 2)] == [Entry(c, 1), Entry(a, 2)];
    SumOne(a, 2);
    StartsBehind([Entry(a, 2)], c, 1, b, 4, m);
    Took(steps, Armed(0, [Entry(c, 1), Entry(a, 2)], m), Start(b));
    steps := steps + [Step.Start(b)];
  }

  lemma SumOne<T>(x: T, d: nat)
    ensures Sum([Entry(x, d)]) == d
  {
    assert [Entry(x, d)][1..] == [];
  }

  lemma Nothing<T>(s: State<T>)
    ensures RunAll(s, []) == s && AllEnabled(s, [])
  {
  }

  /** A timer that is due after all others goes to the end. */
  lemma StartsBehind<T>(rest: seq<Entry<T>>, head: T, first: nat, x: T, timeout: uint32, reload: map<T, uint32>)
    requires !Listed(rest, x) && x != head && x in reload && reload[x] == timeout
    requires first + Sum(rest) <= timeout
    ensures var s := Armed(0, [Entry(head, first)] + rest, reload);
            Do(s, Step.Start(x)) == s.(timers := s.timers + [Entry(x, timeout - first - Sum(rest))])
  {
    var s := Armed(0, [Entry(head, first)] + rest, reload);
    assert s.timers[1..] == rest;
    InsertLast(rest, first, x, timeout);
    assert !Listed(s.timers, x) && Remaining(s) == first;
    assert DoStart(s, x).timers == [Entry(head, first)] + InsertAfter(rest, first, x, timeout);
  }

  lemma {:induction false} InsertLast<T>(l: seq<Entry<T>>, agg: nat, x: T, timeout: nat)
    requires agg + Sum(l) <= timeout
    ensures InsertAfter(l, agg, x, timeout) == l + [Entry(x, timeout - agg - Sum(l))]
  {
    if l != [] {
      InsertLast(l[1..], agg + l[0].delta, x, timeout);
      assert l == [l[0]] + l[1..];
    }
  }

  /** The callback of `ResettingLiveGoesOn` is reached: after one tick the first of the three expires, the second is
      due in 2 ticks and the third one tick after it. */
  lemma TieReached<T>(c: T, a: T, b: T) returns (steps: seq<Step<T>>)
    requires c != a && c != b && a != b
    ensures AllEnabled(Boot(EXACT), steps)
    ensures LastCallback(RunAll(Boot(EXACT), steps), c, a, b, 2, 1)
  {
    hide RunAll, AllEnabled;
    steps := ThreeStarted(c, a, b);
    var l, m := [Entry(c, 1), Entry(a, 2), Entry(b, 1)], map[c := 1, a := 3, b := 4];
    Took(steps, Armed(0, l, m), Tick);
    steps := steps + [Step.Tick];
    var due := Armed(1, l, m);
    Took(steps, due, IrqBegin);
    steps := steps + [Step.IrqBegin];
    assert Settled(due) == [Entry(c, 0), Entry(a, 2), Entry(b, 1)];
    assert Settled(due)[1..] == [Entry(a, 2), Entry(b, 1)];
    assert Expired(Settled(due)[1..]) == 0;
    assert Settled(due)[..1] == [Entry(c, 0)];
    var walking := Do(due, IrqBegin);
    assert walking.pending == [c] && walking.timers == [Entry(a, 2), Entry(b, 1)];
    Took(steps, walking, Call);
    steps := steps + [Step.Call];
  }

  // ---------------------------------------------------------------- latency

  /** The server holds just h and x, with timeouts 5 and 2^32 - 1. */
  ghost predicate Holds(server: TimerServer, h: TimerEvent, x: TimerEvent, s: State<TimerEvent>)
    reads server, server.Timers, server.head
  {
    && server.Linked() && server.Programmed() && server.Model() == s
    && h != x && server.Timers == {h, x} && h.callback == x.callback == NoCallback
  }

  ghost function Timeouts(h: TimerEvent, x: TimerEvent): map<TimerEvent, uint32> {
    map[h := 5, x := UINT32_MAX]
  }

  /** The invariant of a server with one running timer. */
  lemma OneRunning(s: State<TimerEvent>, x: TimerEvent, d: uint32)
    requires s.timers == [Entry(x, d)] && s.running && !s.inIrq && s.board == EXACT
    requires s.pending == [] && s.walk == Service(None, None, false) && s.passes == 0 && s.pass == NoPass
    requires s.armedAt <= s.now <= s.armedAt + UINT32_MAX
    ensures Inv(s)
  {
    assert s.timers[1..] == [];
    SumOne(x, Remaining(s));
    assert Settled(s) == [Entry(x, Remaining(s))];
  }

  /** h and x are new and have no callbacks. */
  method TwoTimers() returns (server: TimerServer, h: TimerEvent, x: TimerEvent)
    ensures fresh(server) && fresh(h) && fresh(x) && server.Valid()
    ensures Holds(server, h, x, Boot<TimerEvent>(EXACT).(reload := map[h := 0, x := 0]))
  {
    hide Inv;
    server := new TimerServer(EXACT);
    h := new TimerEvent();
    x := new TimerEvent();
    server.Init(h, NoCallback);
    server.Init(x, NoCallback);
  }

  /** Their timeouts are set. */
  method SetBoth(server: TimerServer, h: TimerEvent, x: TimerEvent)
    requires server.Valid() && Holds(server, h, x, Boot<TimerEvent>(EXACT).(reload := map[h := 0, x := 0]))
    modifies server, server.Timers
    ensures server.Valid() && Holds(server, h, x, Boot<TimerEvent>(EXACT).(reload := Timeouts(h, x)))
  {
    SetOne(server, h, 5);
    SetOne(server, x, UINT32_MAX);
    assert map[h := 0, x := 0][h := 5][x := UINT32_MAX] == Timeouts(h, x);
  }

  method SetOne(server: TimerServer, obj: TimerEvent, value: uint32)
    requires server.Valid() && server.Entries == [] && server.board == EXACT && obj in server.Timers
    modifies server, server.Timers
    ensures server.Valid() && server.Timers == old(server.Timers)
    ensures server.Model() == old(server.Model().(reload := server.Model().reload[obj := value]))
    ensures forall y | y in server.Timers :: y.callback == old(y.callback)
  {
    hide Inv, DoSetValue;
    SetIdle(server.Model(), obj, value);
    server.SetValue(obj, value);
  }

  lemma SetIdle<T>(s: State<T>, x: T, value: uint32)
    requires s.timers == [] && s.board.minimum <= value
    ensures DoSetValue(s, x, value) == s.(reload := s.reload[x := value])
  {
  }

  /** h is started at time 0. */
  method StartFirst() returns (server: TimerServer, h: TimerEvent, x: TimerEvent)
    ensures fresh(server) && fresh(h) && fresh(x)
    ensures Holds(server, h, x, Armed<TimerEvent>(0, [Entry(h, 5)], Timeouts(h, x)))
  {
    hide Inv;
    server, h, x := TwoTimers();
    SetBoth(server, h, x);
    server.Start(h);
  }

  lemma LateStart(h: TimerEvent, x: TimerEvent)
    requires h != x
    ensures DoStart(Armed<TimerEvent>(UINT32_MAX, [Entry(h, 5)], Timeouts(h, x)), x) ==
            Armed<TimerEvent>(UINT32_MAX, [Entry(h, 5), Entry(x, UINT32_MAX)], Timeouts(h, x))
  {
    var s := Armed<TimerEvent>(UINT32_MAX, [Entry(h, 5)], Timeouts(h, x));
    assert s.timers[1..] == [] && Remaining(s) == 0 && !Listed(s.timers, x);
    assert InsertAfter(s.timers[1..], 0, x, UINT32_MAX) == [Entry(x, UINT32_MAX)];
  }

  /** The interrupt of a lone timer that is due and has no callback. */
  lemma OneDue(s: State<TimerEvent>, x: TimerEvent, d: uint32)
    requires s.timers == [Entry(x, d)] && s.running && !s.inIrq && s.board == EXACT && s.armedAt + d == s.now
    ensures Batch(s) == [x] && AllEnabled(s, IrqSteps([[]]))
  {
    var begun := Do(s, Step.IrqBegin);
    assert Settled(s) == [Entry(x, 0)] && Settled(s)[1..] == [] && Expired(Settled(s)) == 1;
    assert Settled(s)[..1] == [Entry(x, 0)] && Settled(s)[..1][1..] == [];
    IrqRuns(s, [[]]);
    WalkNone(begun, [[]]);
    WalkNext(begun, [[]], 0);
    Nothing(Do(begun, Step.Call));
  }

  /** Nobody serves it for as long as the counter can tell, and then x is started. */
  method StartLate(server: TimerServer, h: TimerEvent, x: TimerEvent)
    requires Holds(server, h, x, Armed<TimerEvent>(0, [Entry(h, 5)], Timeouts(h, x)))
    modifies server, server.Timers
    ensures Holds(server, h, x, Armed<TimerEvent>(UINT32_MAX, [Entry(h, 5), Entry(x, UINT32_MAX)], Timeouts(h, x)))
  {
    hide Inv;
    while server.now < UINT32_MAX
      invariant server.now <= UINT32_MAX
      invariant Holds(server, h, x, Armed<TimerEvent>(server.now, [Entry(h, 5)], Timeouts(h, x)))
      modifies server`now
    {
      OneRunning(server.Model(), h, 5);
      server.Tick();
    }
    OneRunning(server.Model(), h, 5);
    LateStart(h, x);
    server.Start(x);
  }

  /** One more tick, and to the counter no time has passed: h counts its 5 ticks again, and stopping it hands them on
      to x, whose timestamp wraps. */
  method StopWraps(server: TimerServer, h: TimerEvent, x: TimerEvent)
    requires Holds(server, h, x, Armed<TimerEvent>(UINT32_MAX, [Entry(h, 5), Entry(x, UINT32_MAX)], Timeouts(h, x)))
    modifies server, server.Timers
    ensures !old(Enabled(server.Model(), Step.Tick))
    ensures Holds(server, h, x, Armed<TimerEvent>(WORD, [Entry(x, 4)], Timeouts(h, x)).(armedAt := WORD, arms := 2))
  {
    server.now := server.now + 1;
    server.StopRunning(h);
  }

  /** x is served when the hardware times out. */
  method Fires(server: TimerServer, h: TimerEvent, x: TimerEvent) returns (visited: seq<TimerEvent>)
    requires Holds(server, h, x, Armed<TimerEvent>(WORD, [Entry(x, 4)], Timeouts(h, x)).(armedAt := WORD, arms := 2))
    modifies server, server.Timers
    ensures visited == [x] && server.now == WORD + 4
  {
    hide Inv;
    while server.now < WORD + 4
      invariant WORD <= server.now <= WORD + 4
      invariant Holds(server, h, x,
                      Armed<TimerEvent>(server.now, [Entry(x, 4)], Timeouts(h, x)).(armedAt := WORD, arms := 2))
      modifies server`now
    {
      OneRunning(server.Model(), x, 4);
      server.Tick();
    }
    OneRunning(server.Model(), x, 4);
    OneDue(server.Model(), x, 4);
    visited := server.IrqHandler(_ => [], [[]]);
  }

  /** Latency beyond the counter's range, on an exact counter. x is started with a timeout of 2^32 - 1 ticks and
      served 5 ticks later, because h was not served for 2^32 ticks and then stopped. So `Enabled` has to bound how
      long a loaded counter goes unserved, for "never early" and for "no wrap" alike. */
  method LatencyNeedsItsBound() returns (server: TimerServer, x: TimerEvent, startedAt: nat, timeout: nat,
                                         visited: seq<TimerEvent>)
    ensures server.board == EXACT
    ensures startedAt == timeout == UINT32_MAX
    ensures visited == [x] && server.now == startedAt + 5 < startedAt + timeout
  {
    hide Inv;
    var h;
    server, h, x := StartFirst();
    StartLate(server, h, x);
    assert server.Reloads()[x] == x.reloadValue;
    startedAt, timeout := server.now, x.reloadValue;
    StopWraps(server, h, x);
    visited := Fires(server, h, x);
  }

  // ---------------------------------------------------------------- setting a timer that an interrupt starts

  const CALLS: Callback := Callback(0)

  ghost predicate Stands(server: TimerServer, timers: set<TimerEvent>, s: State<TimerEvent>)
    reads server, server.Timers, server.head
  {
    server.Linked() && server.Model() == s && server.Timers == timers
  }

  /** y is due, x and w have timeouts 10 and 15. */
  ghost function YDue(y: TimerEvent, x: TimerEvent, w: TimerEvent): State<TimerEvent> {
    Armed<TimerEvent>(1, [Entry(y, 1)], Times(y, x, w, 1, 10, 15))
  }

  method NewTimers() returns (server: TimerServer, y: TimerEvent, x: TimerEvent, w: TimerEvent)
    ensures fresh(server) && fresh(y) && fresh(x) && fresh(w) && server.Valid()
    ensures y != x && y != w && x != w && y.callback == CALLS && w.callback == NoCallback
    ensures Stands(server, {y, x, w}, Boot<TimerEvent>(EXACT).(reload := Times(y, x, w, 0, 0, 0)))
  {
    hide Inv;
    server := new TimerServer(EXACT);
    y := new TimerEvent();
    x := new TimerEvent();
    w := new TimerEvent();
    server.Init(y, CALLS);
    server.Init(x, NoCallback);
    server.Init(w, NoCallback);
  }

  method SetThree(server: TimerServer, y: TimerEvent, x: TimerEvent, w: TimerEvent)
    requires server.Valid() && y != x && y != w && x != w
    requires Stands(server, {y, x, w}, Boot<TimerEvent>(EXACT).(reload := Times(y, x, w, 0, 0, 0)))
    modifies server, server.Timers
    ensures server.Valid() && y.callback == old(y.callback) && w.callback == old(w.callback)
    ensures Stands(server, {y, x, w}, Boot<TimerEvent>(EXACT).(reload := Times(y, x, w, 1, 10, 15)))
  {
    hide Stands, Boot, Inv, Times;
    TimesSet(y, x, w);
    SetIn(server, y, 1, {y, x, w}, Times(y, x, w, 0, 0, 0));
    SetIn(server, x, 10, {y, x, w}, Times(y, x, w, 1, 0, 0));
    SetIn(server, w, 15, {y, x, w}, Times(y, x, w, 1, 10, 0));
  }

  ghost function Times(y: TimerEvent, x: TimerEvent, w: TimerEvent, a: uint32, b: uint32, c: uint32):
    map<TimerEvent, uint32>
  {
    map[y := a, x := b, w := c]
  }

  lemma TimesSet(y: TimerEvent, x: TimerEvent, w: TimerEvent)
    requires y != x && y != w && x != w
    ensures Times(y, x, w, 0, 0, 0)[y := 1] == Times(y, x, w, 1, 0, 0)
    ensures Times(y, x, w, 1, 0, 0)[x := 10] == Times(y, x, w, 1, 10, 0)
    ensures Times(y, x, w, 1, 10, 0)[w := 15] == Times(y, x, w, 1, 10, 15)
  {
  }

  method SetIn(server: TimerServer, obj: TimerEvent, value: uint32, ghost timers: set<TimerEvent>,
               ghost reload: map<TimerEvent, uint32>)
    requires server.Valid() && obj in timers
    requires Stands(server, timers, Boot<TimerEvent>(EXACT).(reload := reload))
    modifies server, server.Timers
    ensures server.Valid() && Stands(server, timers, Boot<TimerEvent>(EXACT).(reload := reload[obj := value]))
    ensures forall t | t in timers :: t.callback == old(t.callback)
    ensures server.Timers == old(server.Timers)
  {
    SetOne(server, obj, value);
  }

  method StartY(server: TimerServer, y: TimerEvent, x: TimerEvent, w: TimerEvent)
    requires server.Valid() && y != x && y != w && x != w
    requires Stands(server, {y, x, w}, Boot<TimerEvent>(EXACT).(reload := Times(y, x, w, 1, 10, 15)))
    modifies server, server.Timers
    ensures server.Valid() && y.callback == old(y.callback) && w.callback == old(w.callback)
    ensures Stands(server, {y, x, w}, YDue(y, x, w))
  {
    hide Inv;
    server.Start(y);
    server.Tick();
  }

  /** The callback of y starts x and w, which is harmless. */
  lemma StartsBoth(y: TimerEvent, x: TimerEvent, w: TimerEvent)
    requires y != x && y != w && x != w
    ensures var s, scripts := YDue(y, x, w), [[Step.Start(x), Step.Start(w)]];
            && Batch(s) == [y] && AllEnabled(s, IrqSteps(scripts))
            && RunAll(s, IrqSteps(scripts)) == Both(1, 10, y, x, w)
  {
    hide RunAll, AllEnabled, InsertAfter;
    var s, reqs := YDue(y, x, w), [Step.Start(x), Step.Start(w)];
    assert Settled(s) == [Entry(y, 0)] && Settled(s)[1..] == [] && Expired(Settled(s)) == 1;
    assert Settled(s)[..1] == [Entry(y, 0)] && Settled(s)[..1][1..] == [];
    var begun := Do(s, Step.IrqBegin);
    var called := Do(begun, Step.Call);
    var first := Do(called, Step.Start(x));
    assert called.timers == [] && first.timers == [Entry(x, 10)] && first.timers[1..] == [];
    InsertLast([], 10, w, 15);
    assert !Listed(first.timers, w) && Remaining(first) == 10;
    assert [Entry(x, 10)] + ([] + [Entry(w, 5)]) == [Entry(x, 10), Entry(w, 5)];
    var second := Do(first, Step.Start(w));
    TwoRequests(called, Step.Start(x), Step.Start(w));
    IrqRuns(s, [reqs]);
    WalkNone(begun, [reqs]);
    Nothing(begun);
    WalkNext(begun, [reqs], 0);
  }

  lemma TwoRequests<T>(s: State<T>, a: Step<T>, b: Step<T>)
    ensures RunAll(s, [a, b]) == Do(Do(s, a), b)
    ensures AllEnabled(s, [a, b]) <==> Enabled(s, a) && Enabled(Do(s, a), b)
  {
    assert [a, b] == [a] + [b];
    RunOne(s, a);
    RunOne(Do(s, a), b);
    RunAllConcat(s, [a], [b]);
  }

  /** x is due `first` ticks after time 1, and w 5 ticks after x. */
  ghost function Both(now: nat, first: nat, y: TimerEvent, x: TimerEvent, w: TimerEvent): State<TimerEvent> {
    Armed<TimerEvent>(now, [Entry(x, first), Entry(w, 5)], Times(y, x, w, 1, 10, 15)).(armedAt := 1, arms := 3)
  }

  /** The stores of TimerSetValue on a timer that is listed by now: what `Enabled` rules out. */
  method StoreListed(server: TimerServer, x: TimerEvent, value: uint32)
    requires server.Linked() && server.Entries != [] && x == server.Entries[0].timer && x in server.Timers
    modifies server, server.Timers
    ensures server.Linked() && server.Timers == old(server.Timers)
    ensures server.Model() == old(server.Model().(timers := server.Entries[0 := Entry(x, value)],
                                                  reload := server.Model().reload[x := value]))
    ensures forall t | t in server.Timers :: t.callback == old(t.callback)
    ensures !old(Enabled(server.Model(), Step.Store(x, value)))
  {
    ghost var m := server.Reloads();
    server.SetDelta(x, value, 0);
    x.reloadValue := value;
    assert server.Reloads() == m[x := value];
  }

  /** Main sets x to 2: its TimerStop has nothing to stop, then the interrupt of y starts x and w, and then the stores
      land on the running x. One tick later x is stopped, and w inherits what the stores left of x's delta. */
  method InterruptedSet(server: TimerServer, y: TimerEvent, x: TimerEvent, w: TimerEvent) returns (startedAt: nat)
    requires server.Valid() && y != x && y != w && x != w && y.callback == CALLS && w.callback == NoCallback
    requires Stands(server, {y, x, w}, YDue(y, x, w))
    modifies server, server.Timers
    ensures server.Valid() && w.callback == NoCallback && startedAt == 1 && server.now == 2
    ensures server.Timers == {y, x, w} && LoneW(server.Model(), w)
  {
    hide Inv;
    StopThenInterrupt(server, y, x, w);
    startedAt := server.now;
    StoreListed(server, x, 2);
    server.now := server.now + 1;
    StopX(server, x, w);
    OneRunning(server.Model(), w, 6);
  }

  method StopThenInterrupt(server: TimerServer, y: TimerEvent, x: TimerEvent, w: TimerEvent)
    requires server.Valid() && y != x && y != w && x != w && y.callback == CALLS && w.callback == NoCallback
    requires Stands(server, {y, x, w}, YDue(y, x, w))
    modifies server, server.Timers
    ensures server.Valid() && Stands(server, {y, x, w}, Both(1, 10, y, x, w)) && w.callback == NoCallback
  {
    hide Inv, RunAll, AllEnabled, IrqSteps;
    StopAbsentY(y, x, w);
    server.Stop(x);
    StartsBoth(y, x, w);
    var visited := server.IrqHandler(_ => [Step.Start(x), Step.Start(w)], [[Step.Start(x), Step.Start(w)]]);
  }

  lemma StopAbsentY(y: TimerEvent, x: TimerEvent, w: TimerEvent)
    requires y != x
    ensures DoStop(YDue(y, x, w), x) == YDue(y, x, w)
  {
    assert [Entry(y, 1)][1..] == [];
    StopAbsent(YDue(y, x, w), x);
  }

  /** w alone, armed at time 2 for 6 ticks. */
  ghost predicate LoneW(s: State<TimerEvent>, w: TimerEvent) {
    && s.timers == [Entry(w, 6)] && s.running && s.armedAt == 2 && !s.inIrq && s.board == EXACT
    && s.pending == [] && s.walk == Service(None, None, false) && s.passes == 0 && s.pass == NoPass
  }

  method StopX(server: TimerServer, x: TimerEvent, w: TimerEvent)
    requires server.Linked() && server.Entries == [Entry(x, 2), Entry(w, 5)] && server.head == x && x.isRunning
    requires var s := server.Model();
             s.armedAt == 1 && s.now == 2 && !s.inIrq && s.board == EXACT && s.pending == [] &&
             s.walk == Service(None, None, false) && s.pass == NoPass
    modifies server, server.Timers
    ensures server.Linked() && server.Programmed() && LoneW(server.Model(), w) && server.now == 2
    ensures server.Timers == old(server.Timers) && (forall t | t in server.Timers :: t.callback == old(t.callback))
  {
    assert server.Entries[1].timer == w;
    server.StopRunning(x);
  }

  /** An interrupt inside TimerSetValue, on an exact counter with nothing late. w is started with timeout 15 and
      served 7 ticks later. So `Enabled` has to keep interrupts from starting a timer that is being set. */
  method SettingNeedsItsTimer() returns (server: TimerServer, w: TimerEvent, startedAt: nat, timeout: nat,
                                         visited: seq<TimerEvent>)
    ensures server.board == EXACT
    ensures visited == [w] && timeout == 15 && server.now == startedAt + 7 < startedAt + timeout
  {
    hide Inv;
    var y, x;
    server, y, x, w := NewTimers();
    SetThree(server, y, x, w);
    StartY(server, y, x, w);
    assert server.Reloads()[w] == w.reloadValue;
    timeout := w.reloadValue;
    startedAt := InterruptedSet(server, y, x, w);
    visited := FiresW(server, w);
  }

  method FiresW(server: TimerServer, w: TimerEvent) returns (visited: seq<TimerEvent>)
    requires server.Valid() && LoneW(server.Model(), w) && server.now == 2 && w.callback == NoCallback
    modifies server, server.Timers
    ensures visited == [w] && server.now == 8
  {
    hide Inv;
    while server.now < 8
      invariant 2 <= server.now <= 8 && server.Valid() && LoneW(server.Model(), w)
      modifies server`now
    {
      OneRunning(server.Model(), w, 6);
      server.Tick();
    }
    OneDue(server.Model(), w, 6);
    visited := server.IrqHandler(_ => [], [[]]);
  }

  /** With a large value the same stores break the bound on the sum of deltas. */
  lemma StoreBreaksTheBound(y: TimerEvent, x: TimerEvent, w: TimerEvent)
    requires x != w
    ensures var s := Both(1, UINT32_MAX, y, x, w); Remaining(s) + Sum(s.timers[1..]) > UINT32_MAX
  {
    var s := Both(1, UINT32_MAX, y, x, w);
    assert s.timers[1..] == [Entry(w, 5)];
    SumOne(w, 5);
  }

  // ---------------------------------------------------------------- interrupts during low-power passes

  predicate Counts<T>(s: State<T>) {
    s.timers != [] && s.running && !s.inIrq && s.pass == NoPass
  }

  /** Low-power passes that nothing interrupts. */
  lemma {:induction false} SomePasses<T>(steps: seq<Step<T>>, s: State<T>, n: nat) returns (more: seq<Step<T>>)
    requires AllEnabled(Boot(EXACT), steps) && RunAll(Boot(EXACT), steps) == s
    requires Counts(s) && s.passes + n <= PASSES_BEFORE_STOP
    ensures AllEnabled(Boot(EXACT), more) && RunAll(Boot(EXACT), more) == s.(passes := s.passes + n)
    decreases n
  {
    hide RunAll, AllEnabled;
    if n == 0 {
      more := steps;
    } else {
      Took(steps, s, PassTest);
      Took(steps + [Step.PassTest], s.(pass := Counting), PassLoad);
      Took(steps + [Step.PassTest] + [Step.PassLoad], s.(pass := Loaded(s.passes, s.arms)), PassAct);
      more := SomePasses(steps + [Step.PassTest] + [Step.PassLoad] + [Step.PassAct], s.(passes := s.passes + 1), n - 1);
    }
  }

  lemma Alone<T>(x: T, timeout: uint32) returns (steps: seq<Step<T>>)
    requires timeout > 0
    ensures AllEnabled(Boot(EXACT), steps)
    ensures RunAll(Boot(EXACT), steps) == Armed(0, [Entry(x, timeout)], map[x := timeout])
  {
    hide RunAll, AllEnabled;
    var boot: State<T> := Boot(EXACT);
    Nothing(boot);
    Took([], boot, Store(x, timeout));
    steps := [] + [Step.Store(x, timeout)];
    Took(steps, boot.(reload := map[x := timeout]), Start(x));
    steps := steps + [Step.Start(x)];
  }

  /** A pass has seen a running head and a full count; then an interrupt expires that head. The pass enters stop mode
      all the same, with an empty list. */
  lemma EntersStopEmpty<T>(x: T) returns (before: seq<Step<T>>)
    ensures AllEnabled(Boot(EXACT), before + [Step.PassAct])
    ensures RunAll(Boot(EXACT), before).timers == [] && RunAll(Boot(EXACT), before).sleeps == 0
    ensures RunAll(Boot(EXACT), before + [Step.PassAct]).sleeps == 1
  {
    hide RunAll, AllEnabled, DoIrqBegin, DoIrqEnd, DoCall;
    var s := Armed(0, [Entry(x, 1)], map[x := 1]);
    before := Alone(x, 1);
    before := SomePasses(before, s, 5);
    var full := s.(passes := 5);
    Took(before, full, PassTest);
    before := before + [Step.PassTest];
    Took(before, full.(pass := Entering), Tick);
    before := before + [Step.Tick];
    var due := full.(pass := Entering, now := 1);
    ExpiresAlone(due, x);
    Took(before, due, IrqBegin);
    before := before + [Step.IrqBegin];
    Took(before, Do(due, IrqBegin), Call);
    before := before + [Step.Call];
    Took(before, Do(Do(due, IrqBegin), Call), IrqEnd);
    before := before + [Step.IrqEnd];
    Took(before, Do(Do(Do(due, IrqBegin), Call), IrqEnd), PassAct);
  }

  /** The steps of an interrupt that expires the only timer. */
  lemma ExpiresAlone<T>(due: State<T>, x: T)
    requires due.timers == [Entry(x, 1)] && Remaining(due) == 0 && !due.inIrq
    ensures var b := Do(due, Step.IrqBegin);
            var c := Do(b, Step.Call);
            var e := Do(c, Step.IrqEnd);
            && Enabled(due, Step.IrqBegin) && Enabled(b, Step.Call) && Enabled(c, Step.IrqEnd)
            && e.timers == [] && !e.inIrq && e.pass == due.pass && e.sleeps == due.sleeps && e.passes == due.passes
  {
    assert Settled(due) == [Entry(x, 0)] && Settled(due)[1..] == [] && Expired(Settled(due)) == 1;
    assert Settled(due)[..1] == [Entry(x, 0)] && Settled(due)[..1][1..] == [];
  }

  /** A pass has loaded a count of 4; then the hardware is armed, which clears the counter, and the pass stores 5. So
      the next pass enters stop mode, one counted pass after the arming. */
  lemma EntersStopEarly<T>(x: T, y: T) returns (before: seq<Step<T>>)
    requires x != y
    ensures AllEnabled(Boot(EXACT), before + [Step.Start(y)] + [Step.PassAct] + [Step.PassTest] + [Step.PassAct])
    ensures RunAll(Boot(EXACT), before).arms < RunAll(Boot(EXACT), before + [Step.Start(y)]).arms
    ensures RunAll(Boot(EXACT), before + [Step.Start(y)]).passes == 0 && RunAll(Boot(EXACT), before).sleeps == 0
    ensures
      RunAll(Boot(EXACT), before + [Step.Start(y)] + [Step.PassAct] + [Step.PassTest] + [Step.PassAct]).sleeps == 1
  {
    hide RunAll, AllEnabled;
    var s := Armed(0, [Entry(x, 10)], map[x := 10]);
    before := Alone(x, 10);
    before := SomePasses(before, s, 4);
    var loaded := s.(passes := 4, pass := Loaded(4, 1));
    Took(before, s.(passes := 4), PassTest);
    before := before + [Step.PassTest];
    Took(before, s.(passes := 4, pass := Counting), PassLoad);
    before := before + [Step.PassLoad];
    StartsFirst(loaded, x, y);
    Took(before, loaded, Start(y));
    var armed := Do(loaded, Start(y));
    Took(before + [Step.Start(y)], armed, PassAct);
    Took(before + [Step.Start(y)] + [Step.PassAct], Do(armed, PassAct), PassTest);
    Took(before + [Step.Start(y)] + [Step.PassAct] + [Step.PassTest], Do(Do(armed, PassAct), PassTest), PassAct);
  }

  /** A timer with no timeout goes in front of one that still waits, and the hardware is armed. */
  lemma StartsFirst<T>(s: State<T>, x: T, y: T)
    requires x != y && s.timers == [Entry(x, 10)] && y !in s.reload && Remaining(s) == 10
    ensures var t := Do(s, Step.Start(y));
            && t.timers != [] && t.running && t.arms == s.arms + 1 && t.passes == 0 && t.pass == s.pass
            && t.sleeps == s.sleeps && t.inIrq == s.inIrq
  {
    assert s.timers[1..] == [] && !Listed(s.timers, y);
  }
}
