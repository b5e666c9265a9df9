/** The list read as a map from timer to absolute deadline, and what each request does to that map. */
module TimerDeadlines {
  import opened TimerModel
  import opened Words
  import opened TimerRefinement

  function Deadlines<T(==)>(l: seq<Entry<T>>, base: int): map<T, int> {
    if l == [] then map[]
    else Deadlines(l[1..], base + l[0].delta)[l[0].timer := base + l[0].delta]
  }

  function DeadlineMap<T(==)>(s: State<T>): map<T, int> {
    Deadlines(Settled(s), s.now)
  }

  /** The same map with every deadline brought forward. */
  function Sooner<T(==)>(m: map<T, int>, ticks: int): map<T, int> {
    map x | x in m :: m[x] - ticks
  }

  lemma {:induction false} DeadlineKeys<T>(l: seq<Entry<T>>, base: int, x: T)
    ensures x in Deadlines(l, base) <==> Listed(l, x)
  {
    if l != [] {
      DeadlineKeys(l[1..], base + l[0].delta, x);
    }
  }

  lemma {:induction false} InsertDeadlines<T>(l: seq<Entry<T>>, base: int, agg: nat, x: T, timeout: nat)
    requires agg <= timeout && !Listed(l, x)
    ensures Deadlines(InsertAfter(l, agg, x, timeout), base) == Deadlines(l, base)[x := base - agg + timeout]
  {
    var r := InsertAfter(l, agg, x, timeout);
    if l == [] {
      assert r[1..] == [];
    } else if agg + l[0].delta > timeout {
      assert r[1..] == [Entry(l[0].timer, l[0].delta - (timeout - agg))] + l[1..];
      assert r[1..][1..] == l[1..];
      assert Deadlines(r[1..], base + r[0].delta) == Deadlines(l, base);
    } else {
      assert r[1..] == InsertAfter(l[1..], agg + l[0].delta, x, timeout);
      InsertDeadlines(l[1..], base + l[0].delta, agg + l[0].delta, x, timeout);
    }
  }

  lemma {:induction false} RemoveDeadlines<T>(l: seq<Entry<T>>, base: int, x: T)
    requires Distinct(l)
    ensures Deadlines(Remove(l, x), base) == Deadlines(l, base) - {x}
  {
    var r := Remove(l, x);
    if l == [] {
    } else if l[0].timer == x {
      DeadlineKeys(l[1..], base + l[0].delta, x);
      if |l| > 1 {
        assert r[1..] == l[1..][1..];
        assert Deadlines(r, base) == Deadlines(l[1..], base + l[0].delta);
      }
    } else {
      assert r[1..] == Remove(l[1..], x);
      RemoveDeadlines(l[1..], base + l[0].delta, x);
    }
  }

  lemma {:induction false} ShiftDeadlines<T>(l: seq<Entry<T>>, base: int, ticks: int)
    ensures Deadlines(l, base - ticks) == Sooner(Deadlines(l, base), ticks)
  {
    if l != [] {
      ShiftDeadlines(l[1..], base + l[0].delta, ticks);
    }
  }

  /** Arming now keeps every deadline, but for what the board's lead takes off all of them alike. */
  lemma ArmDeadlines<T>(s: State<T>)
    requires s.timers != []
    ensures var loss := if s.board.lead < s.timers[0].delta then s.board.lead else s.timers[0].delta;
            DeadlineMap(Arm(s)) == Sooner(Deadlines(s.timers, s.now), loss)
  {
    var loss := if s.board.lead < s.timers[0].delta then s.board.lead else s.timers[0].delta;
    ArmedRemaining(s);
    assert Settled(Arm(s))[1..] == s.timers[1..];
    assert DeadlineMap(Arm(s)) == Deadlines(s.timers, s.now - loss);
    ShiftDeadlines(s.timers, s.now, loss);
  }

  lemma StartFirstDeadline<T>(s: State<T>, x: T)
    requires Inv(s) && s.timers == []
    ensures DeadlineMap(DoStart(s, x)) == Sooner(DeadlineMap(s)[x := s.now + Reload(s, x)], Loss(s, Start(x)))
  {
    var edited := s.(timers := [Entry(x, Reload(s, x))]);
    assert edited.timers[1..] == [];
    ArmDeadlines(edited);
    assert Deadlines(edited.timers, s.now) == DeadlineMap(s)[x := s.now + Reload(s, x)];
  }

  lemma FrontDeadlines<T>(l: seq<Entry<T>>, base: int, x: T, timeout: nat)
    requires l != [] && !Listed(l, x) && timeout <= l[0].delta
    ensures Deadlines([Entry(x, timeout), Entry(l[0].timer, l[0].delta - timeout)] + l[1..], base) ==
            Deadlines(l, base)[x := base + timeout]
  {
  }

  lemma StartHeadDeadline<T>(s: State<T>, x: T)
    requires Inv(s) && s.timers != [] && !Listed(s.timers, x) && Reload(s, x) < Remaining(s)
    ensures DeadlineMap(DoStart(s, x)) == Sooner(DeadlineMap(s)[x := s.now + Reload(s, x)], Loss(s, Start(x)))
  {
    hide Inv;
    var l, timeout := Settled(s), Reload(s, x);
    var edited := s.(timers := [Entry(x, timeout), Entry(l[0].timer, l[0].delta - timeout)] + l[1..]);
    assert l[1..] == s.timers[1..];
    assert DoStart(s, x) == Arm(edited);
    SettledListed(s, x);
    FrontDeadlines(l, s.now, x, timeout);
    ArmDeadlines(edited);
  }

  lemma StartLaterDeadline<T>(s: State<T>, x: T)
    requires Inv(s) && s.timers != [] && !Listed(s.timers, x) && Remaining(s) <= Reload(s, x)
    ensures DeadlineMap(DoStart(s, x)) == DeadlineMap(s)[x := s.now + Reload(s, x)]
  {
    hide Inv;
    var rem, rest := Remaining(s), s.timers[1..];
    assert Settled(s)[1..] == rest;
    assert Settled(DoStart(s, x))[1..] == InsertAfter(rest, rem, x, Reload(s, x));
    InsertDeadlines(rest, s.now + rem, rem, x, Reload(s, x));
  }

  /** Starting an unlisted timer adds one deadline, now plus its reload value, and moves no other (beyond the loss). */
  lemma StartDeadline<T>(s: State<T>, x: T)
    requires Inv(s)
    ensures DeadlineMap(DoStart(s, x)) ==
            if x in DeadlineMap(s) then DeadlineMap(s)
            else Sooner(DeadlineMap(s)[x := s.now + Reload(s, x)], Loss(s, Start(x)))
  {
    DeadlineKeys(Settled(s), s.now, x);
    SettledListed(s, x);
    if Listed(s.timers, x) {
    } else if s.timers == [] {
      StartFirstDeadline(s, x);
    } else if Reload(s, x) < Remaining(s) {
      StartHeadDeadline(s, x);
    } else {
      StartLaterDeadline(s, x);
      assert Loss(s, Start(x)) == 0;
    }
  }

  lemma StopHeadDeadline<T>(s: State<T>, x: T)
    requires Inv(s) && s.timers != [] && s.timers[0].timer == x
    ensures DeadlineMap(DoStop(s, x)) == Sooner(DeadlineMap(s) - {x}, Loss(s, Stop(x)))
  {
    var rest := Remove(Settled(s), x);
    SettledListed(s, x);
    RemoveDeadlines(Settled(s), s.now, x);
    if rest != [] && s.running {
      ArmDeadlines(s.(timers := rest));
    } else {
      assert Settled(DoStop(s, x)) == rest;
      assert Loss(s, Stop(x)) == 0;
    }
  }

  lemma StopLaterDeadline<T>(s: State<T>, x: T)
    requires Inv(s) && s.timers != [] && s.timers[0].timer != x
    ensures DeadlineMap(DoStop(s, x)) == DeadlineMap(s) - {x}
  {
    hide Remove;
    assert Settled(s)[1..] == s.timers[1..];
    assert Settled(DoStop(s, x))[1..] == Remove(s.timers[1..], x);
    RemoveDeadlines(s.timers[1..], s.now + Remaining(s), x);
  }

  /** Stopping a timer removes its deadline and moves no other (beyond the loss); an absent one changes nothing. */
  lemma StopDeadline<T>(s: State<T>, x: T)
    requires Inv(s)
    ensures DeadlineMap(DoStop(s, x)) == Sooner(DeadlineMap(s) - {x}, Loss(s, Stop(x)))
  {
    if s.timers == [] {
    } else if s.timers[0].timer == x {
      StopHeadDeadline(s, x);
    } else {
      StopLaterDeadline(s, x);
      assert Loss(s, Stop(x)) == 0;
    }
  }

  /** Start loads the hardware exactly if it changes the head, which then is the timer started, with a timeout that
      counts from now. Otherwise the hardware and its pass counter are left alone. */
  lemma StartArms<T>(s: State<T>, x: T)
    requires Inv(s)
    ensures var t, changed := DoStart(s, x), First(DoStart(s, x).timers) != First(s.timers);
            && t.arms == s.arms + (if changed then 1 else 0)
            && t.armedAt == (if changed then s.now else s.armedAt)
            && t.passes == (if changed then 0 else s.passes)
            && t.running == (changed || s.running)
            && (changed ==> First(t.timers) == Some(x) && t.timers[0].delta == Reload(s, x))
  {
    hide Inv;
  }

  /** Stop loads the hardware exactly if it takes out a running head with a successor; one that is not running, as it
      may be in the interrupt handler, is taken out without. */
  lemma StopArms<T>(s: State<T>, x: T)
    requires Inv(s)
    ensures var t := DoStop(s, x);
            var armed := s.running && t.timers != [] && First(t.timers) != First(s.timers);
            && t.arms == s.arms + (if armed then 1 else 0)
            && t.armedAt == (if armed then s.now else s.armedAt)
            && t.passes == (if armed then 0 else s.passes)
            && t.running == (s.running && t.timers != [])
  {
    hide Bounded, Gated, Remaining;
    if |s.timers| > 1 && s.timers[0].timer == x {
      assert s.timers[1..][0].timer != x;
      assert Remove(Settled(s), x)[0].timer == s.timers[1].timer;
    }
  }

  /** An interrupt loads the hardware at its start exactly if it has come too early, and else at its end exactly if a
      timer is left. */
  lemma IrqArms<T>(s: State<T>)
    requires Inv(s) && !s.inIrq
    ensures var early := s.timers != [] && Remaining(s) > 0;
            var b := DoIrqBegin(s);
            && b.arms == s.arms + (if early then 1 else 0) && b.armedAt == (if early then s.now else s.armedAt)
            && (b.inIrq <==> s.timers != [] && !early) && (b.inIrq ==> !b.running)
    ensures var e, left := DoIrqEnd(s), s.timers != [];
            && e.arms == s.arms + (if left then 1 else 0) && e.armedAt == (if left then s.now else s.armedAt)
            && (left ==> e.running)
  {
  }

  /** TimerReset: stop, then start. */
  function DoReset<T(==)>(s: State<T>, x: T): State<T> {
    DoStart(DoStop(s, x), x)
  }

  /** On an exact counter, resetting a timer sets its deadline to now plus its reload value, whether or not it was
      listed and wherever it stood, and moves no other. */
  lemma ResetDeadline<T>(s: State<T>, x: T)
    requires Inv(s) && s.board.lead == 0
    ensures DeadlineMap(DoReset(s, x)) == DeadlineMap(s)[x := s.now + Reload(s, x)]
  {
    var stopped := DoStop(s, x);
    StopInv(s, x);
    StopExact(s, x);
    StartExact(stopped, x);
  }

  /** On an exact counter nothing is lost, and stop is exactly removal. */
  lemma StopExact<T>(s: State<T>, x: T)
    requires Inv(s) && s.board.lead == 0
    ensures DeadlineMap(DoStop(s, x)) == DeadlineMap(s) - {x}
    ensures DoStop(s, x).board == s.board && DoStop(s, x).now == s.now && DoStop(s, x).reload == s.reload
  {
    hide Inv;
    StopDeadline(s, x);
  }

  /** On an exact counter, start is exactly the addition of one deadline. */
  lemma StartExact<T>(s: State<T>, x: T)
    requires Inv(s) && s.board.lead == 0
    ensures DeadlineMap(DoStart(s, x)) ==
            if x in DeadlineMap(s) then DeadlineMap(s) else DeadlineMap(s)[x := s.now + Reload(s, x)]
  {
    StartDeadline(s, x);
  }

  /** Initialising a timer sets its reload value to 0, whatever the board's minimum is, so that a start would wait for
      nothing. It moves no deadline, leaves the other reload values alone and does nothing to the hardware. */
  lemma InitDeadline<T>(s: State<T>, x: T)
    requires Inv(s) && Enabled(s, Init(x))
    ensures var t := Do(s, Init(x));
            && Reload(t, x) == 0 && (forall y | y != x :: Reload(t, y) == Reload(s, y))
            && DeadlineMap(t) == DeadlineMap(s) && x !in DeadlineMap(t)
            && t.armedAt == s.armedAt && t.arms == s.arms && t.passes == s.passes && t.sleeps == s.sleeps
    ensures s.board.lead == 0 ==> DeadlineMap(DoStart(Do(s, Init(x)), x)) == DeadlineMap(s)[x := s.now]
  {
    hide Inv, DoStart;
    var t := Do(s, Step.Init(x));
    assert Settled(t) == Settled(s);
    DeadlineKeys(Settled(s), s.now, x);
    SettledListed(s, x);
    if s.board.lead == 0 {
      StepInv(s, Init(x));
      StartExact(t, x);
    }
  }

  /** Storing a timer's value moves no deadline, whatever came between it and the stop before it. */
  lemma StoreDeadline<T>(s: State<T>, x: T, value: uint32)
    requires Enabled(s, Store(x, value))
    ensures DeadlineMap(Do(s, Store(x, value))) == DeadlineMap(s) && x !in DeadlineMap(s)
    ensures Reload(DoStore(s, x, value), x) == if value < s.board.minimum then s.board.minimum else value
    ensures forall y | y != x :: Reload(DoStore(s, x, value), y) == Reload(s, y)
  {
    assert Settled(DoStore(s, x, value)) == Settled(s);
    DeadlineKeys(Settled(s), s.now, x);
    SettledListed(s, x);
  }

  /** On an exact counter and without an interrupt in between, setting a timer's value withdraws its deadline and
      moves no other. */
  lemma SetValueDeadline<T>(s: State<T>, x: T, value: uint32)
    requires Inv(s) && s.board.lead == 0
    ensures DeadlineMap(DoSetValue(s, x, value)) == DeadlineMap(s) - {x}
  {
    hide Inv, DoStop, Deadlines;
    StopExact(s, x);
    assert Settled(DoSetValue(s, x, value)) == Settled(DoStop(s, x));
  }

  /** A tick moves no deadline, unless the head was due already: then it delays all of them by one. */
  lemma TickDeadline<T>(s: State<T>)
    requires Inv(s) && Enabled(s, Tick)
    ensures DeadlineMap(Do(s, Tick)) ==
            if s.timers != [] && Remaining(s) == 0 then Sooner(DeadlineMap(s), -1) else DeadlineMap(s)
  {
    var t := Do(s, Tick);
    if s.timers != [] {
      assert Settled(t)[1..] == s.timers[1..] == Settled(s)[1..];
      ShiftDeadlines(Settled(s), s.now, -1);
    }
  }

  /** The deadlines still to come after an instant. */
  function Later<T(==)>(m: map<T, int>, now: int): map<T, int> {
    map x | x in m && m[x] > now :: m[x]
  }

  lemma {:induction false} DeadlinesFrom<T>(l: seq<Entry<T>>, base: int, y: T)
    requires l != [] && y in Deadlines(l, base)
    ensures Deadlines(l, base)[y] >= base + l[0].delta
  {
    if y != l[0].timer {
      DeadlinesFrom(l[1..], base + l[0].delta, y);
    }
  }

  /** The entries without anything left to wait for are those whose deadline has come. */
  lemma {:induction false} ExpireDeadlines<T>(l: seq<Entry<T>>, base: int)
    requires Distinct(l)
    ensures Deadlines(l[Expired(l)..], base) == Later(Deadlines(l, base), base)
  {
    if l == [] {
    } else if l[0].delta != 0 {
      forall y | y in Deadlines(l, base) ensures Deadlines(l, base)[y] > base {
        DeadlinesFrom(l, base, y);
      }
    } else {
      ExpireDeadlines(l[1..], base);
      DeadlineKeys(l[1..], base, l[0].timer);
      assert l[Expired(l)..] == l[1..][Expired(l[1..])..];
    }
  }

  /** On an exact counter, an interrupt withdraws exactly the deadlines that have come, serves exactly their timers,
      and moves no other deadline; one that comes too early withdraws none. */
  lemma IrqDeadline<T>(s: State<T>)
    requires Inv(s) && !s.inIrq && s.board.lead == 0
    ensures DeadlineMap(DoIrqBegin(s)) == Later(DeadlineMap(s), s.now)
    ensures forall y :: y in DoIrqBegin(s).pending <==> y in DeadlineMap(s) && DeadlineMap(s)[y] <= s.now
  {
    var l, t := Settled(s), DoIrqBegin(s);
    if l != [] {
      SettledListed(s, l[0].timer);
      ExpireDeadlines(l, s.now);
      assert Settled(t) == l[Expired(l)..];
      forall y ensures y in t.pending <==> y in DeadlineMap(s) && DeadlineMap(s)[y] <= s.now {
        ExpiredDue(l, s.now, y);
      }
    }
  }

  /** A timer is in the expired prefix exactly when its deadline has come. */
  lemma {:induction false} ExpiredDue<T>(l: seq<Entry<T>>, base: int, y: T)
    requires Distinct(l)
    ensures y in TimersOf(l[..Expired(l)]) <==> y in Deadlines(l, base) && Deadlines(l, base)[y] <= base
  {
    if l == [] {
    } else if l[0].delta != 0 {
      if y in Deadlines(l, base) {
        DeadlinesFrom(l, base, y);
      }
    } else {
      ExpiredDue(l[1..], base, y);
      DeadlineKeys(l[1..], base, l[0].timer);
      assert l[..Expired(l)] == [l[0]] + l[1..][..Expired(l[1..])];
      assert l[..Expired(l)][1..] == l[1..][..Expired(l[1..])];
    }
  }
}
