/** The timer server as a transition system over values.

    The list is a sequence of entries whose `delta` is relative to the entry before it, exactly as the `Timestamp`
    fields of the linked list are. Interrupt-disabled sections are single steps. The interrupt handler is split at the
    points where application code runs: `IrqBegin` (decrement, unlink what expired), one `Call` for each callback of
    the walk, and `IrqEnd` (re-arm). Requests a callback makes are ordinary `Start`, `Stop` and `Store` steps between
    those.

    Code that runs with interrupts enabled is several steps: setting a value is `Stop` and then `Store`, a reset is
    `Stop` and then `Start`, and a low-power pass is its test, the load of its counter and its action.

    The walk of the source follows the links of the unlinked nodes after their callbacks have run, so the value model
    represents it only for callbacks that leave those links alone. `Harmless` says which requests do, and `Enabled`
    asks it of every request made inside the handler; TimerLimits has inputs on which other requests go wrong. */
module TimerModel {
  import opened Words

  const PASSES_BEFORE_STOP: nat := 5

  /** What the board layer adds to the elapsed tick count (`lead`), and its minimum timeout.
      An exact counter has lead 0; HAL/src/timer-board.c has lead 1 and minimum 1. */
  datatype Board = Board(lead: uint32, minimum: uint32)

  datatype Option<+T> = None | Some(value: T)

  datatype Entry<T> = Entry(timer: T, delta: nat)

  /** How far a low-power pass has come: it has decided to count, or loaded the counter it is going to increase (`arms`
      remembers how often the hardware had been armed by then), or decided to enter stop mode. */
  datatype Pass = NoPass | Counting | Loaded(count: nat, arms: nat) | Entering

  /** Inside the handler: the timer whose callback runs, the first timer that did not expire, and whether the callback
      has started its own timer again. */
  datatype Service<T> = Service(self: Option<T>, live: Option<T>, restarted: bool)

  /** `running` is the head's IsRunning flag; `pending` holds the expired timers whose callback has not run yet;
      `arms` and `sleeps` count the calls of TimerHwStart and TimerHwEnterLowPowerStopMode. */
  datatype State<T> = State(
    board: Board, now: nat, armedAt: nat,
    timers: seq<Entry<T>>, running: bool,
    inIrq: bool, pending: seq<T>, walk: Service<T>,
    reload: map<T, uint32>, passes: nat, arms: nat, sleeps: nat, pass: Pass)

  datatype Step<T> =
    | Tick
    | Init(timer: T)
    | Start(timer: T)
    | Stop(timer: T)
    | Store(timer: T, value: uint32)
    | IrqBegin
    | Call
    | IrqEnd
    | PassTest
    | PassLoad
    | PassAct

  function Boot<T>(board: Board): State<T> {
    State(board, 0, 0, [], false, false, [], Service(None, None, false), map[], 0, 0, 0, NoPass)
  }

  // ---------------------------------------------------------------- delta lists

  function Sum<T>(l: seq<Entry<T>>): nat {
    if l == [] then 0 else l[0].delta + Sum(l[1..])
  }

  predicate Listed<T(==)>(l: seq<Entry<T>>, x: T) {
    l != [] && (l[0].timer == x || Listed(l[1..], x))
  }

  /** No timer is listed twice. */
  predicate Distinct<T(==)>(l: seq<Entry<T>>) {
    l != [] ==> !Listed(l[1..], l[0].timer) && Distinct(l[1..])
  }

  /** Splices x into the part of the list that starts `agg` ticks from now, `timeout >= agg` ticks from now. */
  function InsertAfter<T>(l: seq<Entry<T>>, agg: nat, x: T, timeout: nat): seq<Entry<T>>
    requires agg <= timeout
  {
    if l == [] then
      [Entry(x, timeout - agg)]
    else if agg + l[0].delta > timeout then
      [Entry(x, timeout - agg), Entry(l[0].timer, l[0].delta - (timeout - agg))] + l[1..]
    else
      [l[0]] + InsertAfter(l[1..], agg + l[0].delta, x, timeout)
  }

  /** Unlinks x; its delta is merged into its successor's. */
  function Remove<T(==)>(l: seq<Entry<T>>, x: T): seq<Entry<T>> {
    if l == [] then
      []
    else if l[0].timer == x then
      if |l| == 1 then [] else [Entry(l[1].timer, l[1].delta + l[0].delta)] + l[2..]
    else
      [l[0]] + Remove(l[1..], x)
  }

  /** The number of leading entries with nothing left to wait for. */
  function Expired<T>(l: seq<Entry<T>>): (n: nat)
    ensures n <= |l|
    ensures forall i | 0 <= i < n :: l[i].delta == 0
    ensures n < |l| ==> l[n].delta > 0
  {
    if l == [] || l[0].delta != 0 then 0 else 1 + Expired(l[1..])
  }

  function TimersOf<T>(l: seq<Entry<T>>): (r: seq<T>)
    ensures |r| == |l|
    ensures forall i | 0 <= i < |l| :: r[i] == l[i].timer
  {
    if l == [] then [] else [l[0].timer] + TimersOf(l[1..])
  }

  // ---------------------------------------------------------------- the hardware counter

  /** TimerGetValue: the board's 64-bit count cut down to 32 bits. */
  function Elapsed<T>(s: State<T>): nat {
    (s.now - s.armedAt + s.board.lead) % WORD
  }

  /** What is left of the head's timeout, never less than zero. */
  function Remaining<T>(s: State<T>): nat
    requires s.timers != []
  {
    var head := s.timers[0].delta;
    if s.running then (if Elapsed(s) > head then 0 else head - Elapsed(s)) else head
  }

  /** The list with the head's delta brought up to date, so that every delta is relative to `now`. */
  function Settled<T>(s: State<T>): seq<Entry<T>> {
    if s.timers == [] then [] else [Entry(s.timers[0].timer, Remaining(s))] + s.timers[1..]
  }

  /** TimerSetTimeout for a running head. */
  function Arm<T>(s: State<T>): State<T> {
    s.(armedAt := s.now, running := true, passes := 0, arms := s.arms + 1)
  }

  // ---------------------------------------------------------------- the operations

  function Reload<T(==)>(s: State<T>, x: T): uint32 {
    if x in s.reload then s.reload[x] else 0
  }

  function DoStart<T(==)>(s: State<T>, x: T): State<T> {
    var timeout := Reload(s, x);
    if Listed(s.timers, x) then
      s
    else if s.timers == [] then
      Arm(s.(timers := [Entry(x, timeout)]))
    else if timeout < Remaining(s) then
      Arm(s.(timers := [Entry(x, timeout), Entry(s.timers[0].timer, Remaining(s) - timeout)] + s.timers[1..]))
    else
      s.(timers := [s.timers[0]] + InsertAfter(s.timers[1..], Remaining(s), x, timeout))
  }

  function DoStop<T(==)>(s: State<T>, x: T): State<T> {
    if s.timers == [] then
      s
    else if s.timers[0].timer == x then
      var rest := Remove(Settled(s), x);
      if rest == [] then s.(timers := [], running := false)
      else if s.running then Arm(s.(timers := rest))
      else s.(timers := rest)
    else
      s.(timers := [s.timers[0]] + Remove(s.timers[1..], x))
  }

  function DoStore<T(==)>(s: State<T>, x: T, value: uint32): State<T> {
    s.(reload := s.reload[x := if value < s.board.minimum then s.board.minimum else value])
  }

  /** TimerSetValue without an interrupt in between. */
  function DoSetValue<T(==)>(s: State<T>, x: T, value: uint32): State<T> {
    DoStore(DoStop(s, x), x, value)
  }

  function DoIrqBegin<T>(s: State<T>): State<T> {
    var l := Settled(s);
    var n := Expired(l);
    if l == [] then s
    else if n == 0 then Arm(s.(timers := l))
    else s.(timers := l[n..], running := false, inIrq := true, pending := TimersOf(l[..n]),
            walk := Service(None, First(l[n..]), false))
  }

  function DoIrqEnd<T>(s: State<T>): State<T> {
    (if s.timers == [] then s else Arm(s)).(inIrq := false, walk := Service(None, None, false))
  }

  function First<T>(l: seq<Entry<T>>): Option<T> {
    if l == [] then None else Some(l[0].timer)
  }

  /** The next expired timer is handed to its callback. */
  function DoCall<T>(s: State<T>): State<T> {
    if s.pending == [] then s
    else s.(pending := s.pending[1..], walk := s.walk.(self := Some(s.pending[0]), restarted := false))
  }

  /** Remembers that a callback has started its own timer. */
  function Noted<T(==)>(s: State<T>, x: T): State<T> {
    if s.walk.self == Some(x) then s.(walk := s.walk.(restarted := true)) else s
  }

  /** Lines 414 and 416: is the head running, and is there anything left to count? */
  function DoPassTest<T>(s: State<T>): State<T> {
    if s.timers == [] || !s.running then s
    else s.(pass := if s.passes < PASSES_BEFORE_STOP then Counting else Entering)
  }

  /** The load of line 418. */
  function DoPassLoad<T>(s: State<T>): State<T> {
    if s.pass.Counting? then s.(pass := Loaded(s.passes, s.arms)) else s
  }

  /** The store of line 418, or lines 422 to 425. */
  function DoPassAct<T>(s: State<T>): State<T> {
    match s.pass
    case Loaded(count, _) => s.(passes := count + 1, pass := NoPass)
    case Entering => s.(passes := 0, sleeps := s.sleeps + 1, pass := NoPass)
    case _ => s
  }

  /** TimerLowPowerHandler without an interrupt in between. */
  function DoLowPower<T>(s: State<T>): State<T> {
    DoPassAct(DoPassLoad(DoPassTest(s)))
  }

  function Do<T(==)>(s: State<T>, step: Step<T>): State<T> {
    match step
    case Tick => s.(now := s.now + 1)
    case Init(x) => s.(reload := s.reload[x := 0])
    case Start(x) => Noted(DoStart(s, x), x)
    case Stop(x) => DoStop(s, x)
    case Store(x, value) => DoStore(s, x, value)
    case IrqBegin => DoIrqBegin(s)
    case Call => DoCall(s)
    case IrqEnd => DoIrqEnd(s)
    case PassTest => DoPassTest(s)
    case PassLoad => DoPassLoad(s)
    case PassAct => DoPassAct(s)
  }

  /** x is listed with something left to wait for. */
  predicate Waits<T(==)>(l: seq<Entry<T>>, x: T) {
    l != [] && (if l[0].timer == x then l[0].delta > 0 else Waits(l[1..], x))
  }

  /** x is listed, and what is due after it is due later. */
  predicate Spaced<T(==)>(l: seq<Entry<T>>, x: T) {
    l != [] && (if l[0].timer == x then |l| > 1 ==> l[1].delta > 0 else Spaced(l[1..], x))
  }

  /** The requests a callback can make without changing what the walk meets next. Starting its own timer overwrites
      the link the walk follows, which only the last callback of an interrupt can afford; from then on its timer has
      to stay listed with a successor that is due later. Before that, starting or setting a timer still to be served
      would change that timer's link or timestamp, and the first timer that did not expire has to keep a positive
      timestamp: it may be started while it is listed, or if that leaves it something to wait for, and set to a
      positive value. */
  predicate Harmless<T(==)>(s: State<T>, request: Step<T>) {
    && s.walk.self.Some?
    && if s.walk.restarted then Spaced(TimersAfter(s, request), s.walk.self.value)
       else
         match request
         case Start(x) =>
           if s.walk.self == Some(x) then s.pending == []
           else x !in s.pending && (s.walk.live == Some(x) ==> Listed(s.timers, x) || Waits(DoStart(s, x).timers, x))
         case Stop(_) => true
         case Store(x, value) => x !in s.pending && (s.walk.live == Some(x) ==> value > 0 || s.board.minimum > 0)
         case _ => false
  }

  function TimersAfter<T(==)>(s: State<T>, request: Step<T>): seq<Entry<T>> {
    match request
    case Start(x) => DoStart(s, x).timers
    case Stop(x) => DoStop(s, x).timers
    case _ => s.timers
  }

  /** What the environment promises: ticks and interrupts do not nest into the handler, the walk finishes before
      the handler re-arms, callbacks make harmless requests, timers are initialised and set while they are not in the
      list (so no interrupt starts a timer that is being set), one low-power pass ends before the next begins, and a
      loaded counter is served or re-armed before its 32-bit reading wraps. */
  predicate Enabled<T(==)>(s: State<T>, step: Step<T>) {
    match step
    case Tick => !s.inIrq && (s.timers != [] ==> s.now + 1 - s.armedAt + s.board.lead <= UINT32_MAX)
    case Init(x) => !s.inIrq && !Listed(s.timers, x)
    case Start(_) => s.inIrq ==> Harmless(s, step)
    case Stop(_) => s.inIrq ==> Harmless(s, step)
    case Store(x, _) => !Listed(s.timers, x) && (s.inIrq ==> Harmless(s, step))
    case IrqBegin => !s.inIrq
    case Call => s.inIrq && s.pending != []
    case IrqEnd => s.inIrq && s.pending == []
    case PassTest => !s.inIrq && s.pass == NoPass
    case PassLoad => !s.inIrq && s.pass == Counting
    case PassAct => !s.inIrq && (s.pass.Loaded? || s.pass == Entering)
  }

  // ---------------------------------------------------------------- the invariant

  /** The counter reading is in range, and inside the handler a running head was armed at this very tick. */
  ghost predicate Clocked<T>(s: State<T>) {
    && s.armedAt <= s.now
    && (s.running ==> s.timers != [] && s.now - s.armedAt + s.board.lead <= UINT32_MAX)
    && (s.running && s.inIrq ==> s.armedAt == s.now)
  }

  /** Every 32-bit quantity the list code forms is bounded by the total, which fits. */
  ghost predicate Bounded<T>(s: State<T>) {
    && (s.timers != [] ==> s.timers[0].delta <= UINT32_MAX)
    && Total(s) <= UINT32_MAX
  }

  /** The pass counter never exceeds five, whatever interrupts a pass. */
  ghost predicate Gated<T>(s: State<T>) {
    && s.passes <= PASSES_BEFORE_STOP
    && (s.pass == Counting ==> s.passes < PASSES_BEFORE_STOP)
    && (s.pass.Loaded? ==> s.passes <= s.pass.count < PASSES_BEFORE_STOP)
  }

  /** Outside the handler nothing is pending or being served and the head is running. */
  ghost predicate Phased<T>(s: State<T>) {
    !s.inIrq ==> s.pending == [] && s.walk == Service(None, None, false) && (s.timers != [] ==> s.running)
  }

  ghost predicate Inv<T>(s: State<T>) {
    Clocked(s) && Distinct(s.timers) && Bounded(s) && Phased(s) && Gated(s)
  }

  /** Ticks from now until the last timer of the list is due. */
  function Total<T>(s: State<T>): nat {
    Sum(Settled(s))
  }

  lemma TotalSplit<T>(s: State<T>)
    requires s.timers != []
    ensures Total(s) == Remaining(s) + Sum(s.timers[1..])
  {
  }

  lemma ArmedRemaining<T>(s: State<T>)
    requires s.timers != []
    ensures Remaining(Arm(s)) == if s.board.lead > s.timers[0].delta then 0 else s.timers[0].delta - s.board.lead
    ensures Total(Arm(s)) <= Sum(s.timers)
  {
  }

  lemma {:induction false} SumConcat<T>(a: seq<Entry<T>>, b: seq<Entry<T>>)
    ensures Sum(a + b) == Sum(a) + Sum(b)
  {
    if a == [] {
      assert a + b == b;
    } else {
      assert (a + b)[1..] == a[1..] + b;
      SumConcat(a[1..], b);
    }
  }

  /** Inserting never takes the total above the larger of the old total and the new timeout. */
  lemma {:induction false} InsertSum<T>(l: seq<Entry<T>>, agg: nat, x: T, timeout: nat)
    requires agg <= timeout
    ensures agg + Sum(InsertAfter(l, agg, x, timeout)) == if agg + Sum(l) > timeout then agg + Sum(l) else timeout
  {
    var r := InsertAfter(l, agg, x, timeout);
    if l == [] {
      assert r[1..] == [];
    } else if agg + l[0].delta > timeout {
      assert r[1..] == [Entry(l[0].timer, l[0].delta - (timeout - agg))] + l[1..];
      assert r[1..][1..] == l[1..];
    } else {
      assert r[1..] == InsertAfter(l[1..], agg + l[0].delta, x, timeout);
      InsertSum(l[1..], agg + l[0].delta, x, timeout);
    }
  }

  /** Unlinking only merges deltas: the total never grows, and is kept unless the last entry goes. */
  lemma {:induction false} RemoveSum<T>(l: seq<Entry<T>>, x: T)
    ensures Sum(Remove(l, x)) <= Sum(l)
    ensures l != [] && l[|l| - 1].timer != x ==> Sum(Remove(l, x)) == Sum(l)
  {
    var r := Remove(l, x);
    if l == [] {
    } else if l[0].timer == x {
      if |l| > 1 {
        assert r[1..] == l[2..] == l[1..][1..];
      }
    } else {
      assert r[1..] == Remove(l[1..], x);
      RemoveSum(l[1..], x);
    }
  }

  lemma {:induction false} InsertListed<T>(l: seq<Entry<T>>, agg: nat, x: T, timeout: nat, y: T)
    requires agg <= timeout
    ensures Listed(InsertAfter(l, agg, x, timeout), y) <==> y == x || Listed(l, y)
  {
    var r := InsertAfter(l, agg, x, timeout);
    if l == [] {
      assert r[1..] == [];
    } else if agg + l[0].delta > timeout {
      assert r[1..] == [Entry(l[0].timer, l[0].delta - (timeout - agg))] + l[1..];
      assert r[1..][1..] == l[1..];
    } else {
      assert r[1..] == InsertAfter(l[1..], agg + l[0].delta, x, timeout);
      InsertListed(l[1..], agg + l[0].delta, x, timeout, y);
    }
  }

  lemma {:induction false} InsertDistinct<T>(l: seq<Entry<T>>, agg: nat, x: T, timeout: nat)
    requires agg <= timeout && Distinct(l) && !Listed(l, x)
    ensures Distinct(InsertAfter(l, agg, x, timeout))
  {
    var r := InsertAfter(l, agg, x, timeout);
    if l == [] {
      assert r[1..] == [];
    } else if agg + l[0].delta > timeout {
      assert r[1..] == [Entry(l[0].timer, l[0].delta - (timeout - agg))] + l[1..];
      assert r[1..][1..] == l[1..];
    } else {
      assert r[1..] == InsertAfter(l[1..], agg + l[0].delta, x, timeout);
      InsertDistinct(l[1..], agg + l[0].delta, x, timeout);
      InsertListed(l[1..], agg + l[0].delta, x, timeout, l[0].timer);
    }
  }

  lemma {:induction false} RemoveListed<T>(l: seq<Entry<T>>, x: T, y: T)
    requires Distinct(l)
    ensures Listed(Remove(l, x), y) <==> y != x && Listed(l, y)
  {
    var r := Remove(l, x);
    if l == [] {
    } else if l[0].timer == x {
      if |l| > 1 {
        assert r[1..] == l[1..][1..];
      }
    } else {
      assert r[1..] == Remove(l[1..], x);
      RemoveListed(l[1..], x, y);
    }
  }

  lemma {:induction false} RemoveDistinct<T>(l: seq<Entry<T>>, x: T)
    requires Distinct(l)
    ensures Distinct(Remove(l, x))
  {
    var r := Remove(l, x);
    if l == [] {
    } else if l[0].timer == x {
      if |l| > 1 {
        assert r[1..] == l[1..][1..];
      }
    } else {
      assert r[1..] == Remove(l[1..], x);
      RemoveDistinct(l[1..], x);
      RemoveListed(l[1..], x, l[0].timer);
    }
  }

  lemma {:induction false} RemoveAbsent<T>(l: seq<Entry<T>>, x: T)
    requires !Listed(l, x)
    ensures Remove(l, x) == l
  {
    if l != [] {
      RemoveAbsent(l[1..], x);
    }
  }

  lemma {:induction false} SuffixDistinct<T>(l: seq<Entry<T>>, n: nat)
    requires n <= |l| && Distinct(l)
    ensures Distinct(l[n..])
  {
    if n == 0 {
      assert l[0..] == l;
    } else {
      SuffixDistinct(l[1..], n - 1);
      assert l[1..][n - 1..] == l[n..];
    }
  }

  lemma SettledListed<T>(s: State<T>, x: T)
    ensures Listed(Settled(s), x) <==> Listed(s.timers, x)
    ensures Distinct(Settled(s)) <==> Distinct(s.timers)
  {
  }

  /** Starting x lists x and keeps every other timer listed, each once. */
  lemma StartListed<T>(s: State<T>, x: T, y: T)
    requires Distinct(s.timers)
    ensures Distinct(DoStart(s, x).timers)
    ensures Listed(DoStart(s, x).timers, y) <==> y == x || Listed(s.timers, y)
  {
    var timeout, r := Reload(s, x), DoStart(s, x).timers;
    if Listed(s.timers, x) {
    } else if s.timers == [] {
      assert r[1..] == [];
    } else if timeout < Remaining(s) {
      assert r[1..] == [Entry(s.timers[0].timer, Remaining(s) - timeout)] + s.timers[1..];
      assert r[1..][1..] == s.timers[1..];
    } else {
      assert r[1..] == InsertAfter(s.timers[1..], Remaining(s), x, timeout);
      InsertListed(s.timers[1..], Remaining(s), x, timeout, y);
      InsertListed(s.timers[1..], Remaining(s), x, timeout, s.timers[0].timer);
      InsertDistinct(s.timers[1..], Remaining(s), x, timeout);
    }
  }

  /** Stopping x takes x out and nothing else. */
  lemma StopListed<T>(s: State<T>, x: T, y: T)
    requires Distinct(s.timers)
    ensures Distinct(DoStop(s, x).timers)
    ensures Listed(DoStop(s, x).timers, y) <==> y != x && Listed(s.timers, y)
  {
    if s.timers == [] {
    } else if s.timers[0].timer == x {
      SettledListed(s, y);
      RemoveListed(Settled(s), x, y);
      RemoveDistinct(Settled(s), x);
    } else {
      var r := DoStop(s, x).timers;
      assert r[1..] == Remove(s.timers[1..], x);
      RemoveListed(s.timers[1..], x, y);
      RemoveListed(s.timers[1..], x, s.timers[0].timer);
      RemoveDistinct(s.timers[1..], x);
    }
  }

  lemma StopAbsent<T>(s: State<T>, x: T)
    requires !Listed(s.timers, x)
    ensures DoStop(s, x) == s
  {
    if s.timers != [] {
      RemoveAbsent(s.timers[1..], x);
      assert s.timers == [s.timers[0]] + s.timers[1..];
    }
  }

  lemma StartHeadTotal<T>(s: State<T>, x: T)
    requires s.timers != [] && !Listed(s.timers, x) && Reload(s, x) < Remaining(s)
    ensures Total(DoStart(s, x)) <= Total(s)
  {
    var timeout, rem, rest := Reload(s, x), Remaining(s), s.timers[1..];
    var edited := s.(timers := [Entry(x, timeout), Entry(s.timers[0].timer, rem - timeout)] + rest);
    TotalSplit(s);
    ArmedRemaining(edited);
    assert edited.timers[1..] == [Entry(s.timers[0].timer, rem - timeout)] + rest;
    assert edited.timers[1..][1..] == rest;
  }

  lemma StartLaterTotal<T>(s: State<T>, x: T)
    requires s.timers != [] && !Listed(s.timers, x) && Remaining(s) <= Reload(s, x)
    ensures Total(DoStart(s, x)) <= if Total(s) > Reload(s, x) then Total(s) else Reload(s, x)
  {
    var t := DoStart(s, x);
    TotalSplit(s);
    TotalSplit(t);
    assert t.timers[1..] == InsertAfter(s.timers[1..], Remaining(s), x, Reload(s, x));
    InsertSum(s.timers[1..], Remaining(s), x, Reload(s, x));
  }

  /** Starting a timer never raises the total above the larger of the old total and the new timeout. */
  lemma StartTotal<T>(s: State<T>, x: T)
    ensures Total(DoStart(s, x)) <= if Total(s) > Reload(s, x) then Total(s) else Reload(s, x)
  {
    if Listed(s.timers, x) {
    } else if s.timers == [] {
      var edited := s.(timers := [Entry(x, Reload(s, x))]);
      ArmedRemaining(edited);
      assert edited.timers[1..] == [];
    } else if Reload(s, x) < Remaining(s) {
      StartHeadTotal(s, x);
    } else {
      StartLaterTotal(s, x);
    }
  }

  /** Stopping a timer never raises the total. */
  lemma StopTotal<T>(s: State<T>, x: T)
    ensures Total(DoStop(s, x)) <= Total(s)
    ensures DoStop(s, x).timers != [] ==>
              DoStop(s, x).timers[0].delta <= Total(s) || DoStop(s, x).timers[0] == s.timers[0]
  {
    var t := DoStop(s, x);
    if s.timers != [] {
      TotalSplit(s);
      if s.timers[0].timer == x {
        RemoveSum(Settled(s), x);
        if t.timers != [] {
          ArmedRemaining(s.(timers := t.timers));
          TotalSplit(t);
        }
      } else {
        TotalSplit(t);
        assert t.timers[1..] == Remove(s.timers[1..], x);
        RemoveSum(s.timers[1..], x);
      }
    }
  }

  lemma StopPasses<T>(s: State<T>, x: T)
    ensures var t := DoStop(s, x);
            && t.sleeps == s.sleeps && t.pass == s.pass && t.arms >= s.arms
            && t.passes == if t.arms == s.arms then s.passes else 0
  {
  }

  lemma StartPasses<T>(s: State<T>, x: T)
    ensures var t := DoStart(s, x);
            && t.sleeps == s.sleeps && t.pass == s.pass && t.arms >= s.arms
            && t.passes == if t.arms == s.arms then s.passes else 0
  {
  }

  lemma StartInv<T>(s: State<T>, x: T)
    requires Inv(s)
    ensures Inv(DoStart(s, x))
  {
    StartPasses(s, x);
    StartTotal(s, x);
    StartListed(s, x, x);
  }

  lemma StopInv<T>(s: State<T>, x: T)
    requires Inv(s)
    ensures Inv(DoStop(s, x))
  {
    StopPasses(s, x);
    StopTotal(s, x);
    StopListed(s, x, x);
  }

  lemma IrqBeginInv<T>(s: State<T>)
    requires Inv(s) && !s.inIrq
    ensures Inv(DoIrqBegin(s))
    ensures Total(DoIrqBegin(s)) <= Total(s)
  {
    var l, t := Settled(s), DoIrqBegin(s);
    if l != [] {
      var n := Expired(l);
      assert l == l[..n] + l[n..];
      SumConcat(l[..n], l[n..]);
      SettledListed(s, l[0].timer);
      SuffixDistinct(l, n);
      if n == 0 {
        ArmedRemaining(s.(timers := l));
        TotalSplit(s);
      } else if n < |l| {
        TotalSplit(t);
        assert Sum(l[n..]) == l[n].delta + Sum(l[n..][1..]);
      }
    }
  }

  lemma IrqEndInv<T>(s: State<T>)
    requires Inv(s) && s.inIrq && s.pending == []
    ensures Inv(DoIrqEnd(s))
  {
  }

  lemma TickInv<T>(s: State<T>)
    requires Inv(s) && Enabled(s, Tick)
    ensures Inv(Do(s, Tick))
  {
  }

  lemma ReloadInv<T>(s: State<T>, reload: map<T, uint32>)
    requires Inv(s)
    ensures Inv(s.(reload := reload))
  {
  }

  lemma NotedInv<T>(s: State<T>, x: T)
    requires Inv(s)
    ensures Inv(Noted(s, x))
  {
    assert Settled(Noted(s, x)) == Settled(s);
  }

  lemma StoreInv<T>(s: State<T>, x: T, value: uint32)
    requires Inv(s)
    ensures Inv(DoStore(s, x, value))
  {
    hide Inv;
    ReloadInv(s, DoStore(s, x, value).reload);
  }

  lemma CallInv<T>(s: State<T>)
    requires Inv(s) && Enabled(s, Call)
    ensures Inv(Do(s, Call))
  {
  }

  lemma PassInv<T>(s: State<T>, t: State<T>)
    requires Inv(s) && Gated(t) && t == s.(passes := t.passes, sleeps := t.sleeps, pass := t.pass)
    ensures Inv(t)
  {
    assert Settled(t) == Settled(s);
  }

  /** Every enabled step keeps the invariant: the total stays at most 2^32 - 1, no timer is listed twice, and
      outside the handler the head is running and nothing is pending. */
  lemma StepInv<T>(s: State<T>, step: Step<T>)
    requires Inv(s) && Enabled(s, step)
    ensures Inv(Do(s, step))
  {
    match step
    case Tick => TickInv(s);
    case Init(x) => ReloadInv(s, s.reload[x := 0]);
    case Start(x) =>
      StartInv(s, x);
      NotedInv(DoStart(s, x), x);
    case Stop(x) => StopInv(s, x);
    case Store(x, value) => StoreInv(s, x, value);
    case IrqBegin => IrqBeginInv(s);
    case Call => CallInv(s);
    case IrqEnd => IrqEndInv(s);
    case PassTest => PassInv(s, DoPassTest(s));
    case PassLoad => PassInv(s, DoPassLoad(s));
    case PassAct => PassInv(s, DoPassAct(s));
  }
}
