/** The timer server over its linked list: nodes spliced in place, timestamps in wrapping 32-bit arithmetic.

    Every operation is proved to do to the heap what the matching step of TimerModel does to its value. TimerStart and
    TimerStop run with interrupts disabled, and the handler is not interrupted by itself, so those are atomic. Setting
    a value and a low-power pass are not: they come in parts, and as wholes for when no interrupt falls between these.
    */
module TimerServer {
  import opened TimerModel
  import opened TimerSteps
  import opened Words

  datatype Callback = NoCallback | Callback(address: nat)

  class TimerEvent {
    var timestamp: uint32
    var reloadValue: uint32
    var isRunning: bool
    var callback: Callback
    var next: TimerEvent?

    constructor ()
      ensures timestamp == 0 && reloadValue == 0 && !isRunning && callback == NoCallback && next == null
    {
      timestamp, reloadValue, isRunning, callback, next := 0, 0, false, NoCallback, null;
    }
  }

  ghost predicate Absent<T>(l: seq<Entry<T>>, x: T) {
    forall i | 0 <= i < |l| :: l[i].timer != x
  }

  /** The node behind the k-th. */
  ghost function After(l: seq<Entry<TimerEvent>>, k: nat): TimerEvent? {
    if k + 1 < |l| then l[k + 1].timer else null
  }

  lemma {:induction false} ListedIndex<T>(l: seq<Entry<T>>, x: T)
    ensures Listed(l, x) <==> exists i | 0 <= i < |l| :: l[i].timer == x
  {
    if l != [] {
      ListedIndex(l[1..], x);
      if Listed(l[1..], x) {
        var i :| 0 <= i < |l[1..]| && l[1..][i].timer == x;
        assert l[i + 1].timer == x;
      }
      forall i | 1 <= i < |l| && l[i].timer == x ensures Listed(l[1..], x) {
        assert l[1..][i - 1].timer == x;
      }
    }
  }

  lemma {:induction false} DistinctIndex<T>(l: seq<Entry<T>>)
    ensures Distinct(l) <==> forall i, j | 0 <= i < j < |l| :: l[i].timer != l[j].timer
  {
    if l != [] {
      DistinctIndex(l[1..]);
      ListedIndex(l[1..], l[0].timer);
      if Distinct(l) {
        forall i, j | 0 <= i < j < |l| ensures l[i].timer != l[j].timer {
          assert l[j] == l[1..][j - 1];
          if i > 0 {
            assert l[i] == l[1..][i - 1];
          }
        }
      }
      if forall i, j | 0 <= i < j < |l| :: l[i].timer != l[j].timer {
        assert forall i | 0 <= i < |l[1..]| :: l[1..][i] == l[i + 1];
      }
    }
  }

  lemma Apart<T>(l: seq<Entry<T>>, k: nat)
    requires Distinct(l) && k < |l|
    ensures forall i | 0 <= i < |l| && i != k :: l[i].timer != l[k].timer
  {
    DistinctIndex(l);
  }

  lemma DistinctUpdate<T>(l: seq<Entry<T>>, k: nat, delta: nat)
    requires Distinct(l) && k < |l|
    ensures Distinct(l[k := Entry(l[k].timer, delta)])
  {
    DistinctIndex(l);
    DistinctIndex(l[k := Entry(l[k].timer, delta)]);
  }

  lemma DistinctPut<T>(l: seq<Entry<T>>, k: nat, e: Entry<T>)
    requires Distinct(l) && k <= |l|
    requires forall i | 0 <= i < |l| :: l[i].timer != e.timer
    ensures Distinct(l[..k] + [e] + l[k..])
  {
    var r := l[..k] + [e] + l[k..];
    DistinctIndex(l);
    DistinctIndex(r);
    forall i, j | 0 <= i < j < |r| ensures r[i].timer != r[j].timer {
      assert r[i] == if i < k then l[i] else if i == k then e else l[i - 1];
      assert r[j] == if j < k then l[j] else if j == k then e else l[j - 1];
    }
  }

  lemma DistinctDelete<T>(l: seq<Entry<T>>, k: nat)
    requires Distinct(l) && k < |l|
    ensures Distinct(l[..k] + l[k + 1..])
  {
    var r := l[..k] + l[k + 1..];
    DistinctIndex(l);
    DistinctIndex(r);
    assert forall i | 0 <= i < |r| :: r[i] == l[if i < k then i else i + 1];
  }

  lemma {:induction false} RemoveIndex<T>(l: seq<Entry<T>>, x: T, k: nat)
    requires k < |l| && l[k].timer == x
    requires forall i | 0 <= i < k :: l[i].timer != x
    ensures Remove(l, x) ==
            l[..k] + if k + 1 < |l| then [Entry(l[k + 1].timer, l[k + 1].delta + l[k].delta)] + l[k + 2..] else []
  {
    if k > 0 {
      RemoveIndex(l[1..], x, k - 1);
      assert l[..k] == [l[0]] + l[1..][..k - 1];
      if k + 1 < |l| {
        assert l[1..][k + 1..] == l[k + 2..];
      }
    }
  }

  /** Where the splice goes: at the first k whose successor is due strictly after the new timer. */
  lemma {:induction false} InsertIndex<T>(l: seq<Entry<T>>, start: nat, x: T, timeout: nat, k: nat)
    requires k <= |l| && start + Sum(l[..k]) <= timeout
    requires k < |l| ==> start + Sum(l[..k]) + l[k].delta > timeout
    ensures start <= timeout
    ensures var left := timeout - start - Sum(l[..k]);
            InsertAfter(l, start, x, timeout) ==
            l[..k] + [Entry(x, left)] + if k < |l| then [Entry(l[k].timer, l[k].delta - left)] + l[k + 1..] else []
  {
    if k > 0 {
      assert l[..k] == [l[0]] + l[1..][..k - 1];
      assert l[..k][1..] == l[1..][..k - 1];
      InsertIndex(l[1..], start + l[0].delta, x, timeout, k - 1);
      if k < |l| {
        assert l[1..][k..] == l[k + 1..];
      }
    }
  }

  /** The list with x put in behind entry k, and the successor's delta reduced by x's. */
  function Spliced<T>(l: seq<Entry<T>>, k: nat, x: T, left: nat): seq<Entry<T>>
    requires k < |l| && (k + 1 < |l| ==> left <= l[k + 1].delta)
  {
    l[..k + 1] + [Entry(x, left)] +
    if k + 1 < |l| then [Entry(l[k + 1].timer, l[k + 1].delta - left)] + l[k + 2..] else []
  }

  lemma SplicedIsInsert<T>(l: seq<Entry<T>>, start: nat, x: T, timeout: nat, k: nat)
    requires k < |l| && start + Sum(l[1..k + 1]) <= timeout
    requires k + 1 < |l| ==> start + Sum(l[1..k + 1]) + l[k + 1].delta > timeout
    ensures start <= timeout
    ensures [l[0]] + InsertAfter(l[1..], start, x, timeout) == Spliced(l, k, x, timeout - start - Sum(l[1..k + 1]))
  {
    assert l[1..][..k] == l[1..k + 1];
    InsertIndex(l[1..], start, x, timeout, k);
    assert l[..k + 1] == [l[0]] + l[1..k + 1];
    if k + 1 < |l| {
      assert l[1..][k + 1..] == l[k + 2..];
    }
  }

  lemma SplicedInSteps<T>(l: seq<Entry<T>>, k: nat, x: T, left: nat, reduced: seq<Entry<T>>)
    requires k < |l| && (k + 1 < |l| ==> left <= l[k + 1].delta)
    requires reduced == if k + 1 < |l| then l[k + 1 := Entry(l[k + 1].timer, l[k + 1].delta - left)] else l
    ensures Spliced(l, k, x, left) == reduced[..k + 1] + [Entry(x, left)] + reduced[k + 1..]
  {
  }

  /** Reducing the successor's delta and then putting x in is the insertion. */
  lemma SpliceInserts<T>(l: seq<Entry<T>>, start: nat, x: T, timeout: nat, k: nat, left: nat, reduced: seq<Entry<T>>)
    requires k < |l| && start + Sum(l[1..k + 1]) + left == timeout
    requires k + 1 < |l| ==> left < l[k + 1].delta
    requires reduced == if k + 1 < |l| then l[k + 1 := Entry(l[k + 1].timer, l[k + 1].delta - left)] else l
    ensures start <= timeout
    ensures [l[0]] + InsertAfter(l[1..], start, x, timeout) == reduced[..k + 1] + [Entry(x, left)] + reduced[k + 1..]
  {
    SplicedIsInsert(l, start, x, timeout, k);
    SplicedInSteps(l, k, x, left, reduced);
  }

  /** The list with x put in front and the old head left with what remains beyond x's timeout. */
  function PutFirst<T>(l: seq<Entry<T>>, x: T, timeout: nat, remaining: nat): seq<Entry<T>>
    requires l != [] ==> timeout <= remaining
  {
    if l == [] then [Entry(x, timeout)]
    else [Entry(x, timeout), Entry(l[0].timer, remaining - timeout)] + l[1..]
  }

  lemma PartSum<T>(l: seq<Entry<T>>, k: nat)
    requires k + 1 < |l|
    ensures Sum(l[1..k + 2]) == Sum(l[1..k + 1]) + l[k + 1].delta <= Sum(l[1..])
  {
    assert l[1..k + 2] == l[1..k + 1] + [l[k + 1]];
    assert [l[k + 1]][1..] == [];
    SumConcat(l[1..k + 1], [l[k + 1]]);
    assert l[1..] == l[1..k + 2] + l[k + 2..];
    SumConcat(l[1..k + 2], l[k + 2..]);
  }

  lemma {:induction false} PairSum<T>(l: seq<Entry<T>>, k: nat)
    requires k + 1 < |l|
    ensures l[k].delta + l[k + 1].delta <= Sum(l)
  {
    if k > 0 {
      PairSum(l[1..], k - 1);
    }
  }

  /** A request lists no timer but the one it starts. */
  lemma RequestListed<T>(s: State<T>, r: Step<T>, y: T)
    requires Distinct(s.timers) && !Listed(s.timers, y)
    requires IsRequest(r) && r != Step.Start(y)
    ensures !Listed(Do(s, r).timers, y)
  {
    match r
    case Start(x) => StartListed(s, x, y);
    case Stop(x) => StopListed(s, x, y);
    case Store(_, _) =>
  }

  lemma {:induction false} WaitsIndex<T>(l: seq<Entry<T>>, x: T)
    requires Waits(l, x)
    ensures exists i | 0 <= i < |l| :: l[i].timer == x && l[i].delta > 0
  {
    if l[0].timer != x {
      WaitsIndex(l[1..], x);
      var i :| 0 <= i < |l[1..]| && l[1..][i].timer == x && l[1..][i].delta > 0;
      assert l[i + 1] == l[1..][i];
    }
  }

  lemma {:induction false} SpacedIndex<T>(l: seq<Entry<T>>, x: T)
    requires Distinct(l) && Spaced(l, x)
    ensures exists i | 0 <= i < |l| :: l[i].timer == x && (i + 1 < |l| ==> l[i + 1].delta > 0)
  {
    if l[0].timer != x {
      SpacedIndex(l[1..], x);
      var i :| 0 <= i < |l[1..]| && l[1..][i].timer == x && (i + 1 < |l[1..]| ==> l[1..][i + 1].delta > 0);
      assert l[i + 1] == l[1..][i] && (i + 2 < |l| ==> l[i + 2] == l[1..][i + 1]);
    }
  }

  lemma {:induction false} InsertSpaced<T>(l: seq<Entry<T>>, agg: nat, x: T, timeout: nat)
    requires agg <= timeout && !Listed(l, x)
    ensures Spaced(InsertAfter(l, agg, x, timeout), x)
  {
    var r := InsertAfter(l, agg, x, timeout);
    if l != [] && agg + l[0].delta <= timeout {
      assert r[1..] == InsertAfter(l[1..], agg + l[0].delta, x, timeout);
      InsertSpaced(l[1..], agg + l[0].delta, x, timeout);
    }
  }

  /** What is due after a timer that was just started is due later. */
  lemma StartSpaced<T>(s: State<T>, x: T)
    requires !Listed(s.timers, x)
    ensures Spaced(DoStart(s, x).timers, x)
  {
    if s.timers != [] && Remaining(s) <= Reload(s, x) {
      assert DoStart(s, x).timers[1..] == InsertAfter(s.timers[1..], Remaining(s), x, Reload(s, x));
      InsertSpaced(s.timers[1..], Remaining(s), x, Reload(s, x));
    }
  }

  /** What a request does to everything but the note of a restart. */
  function Asked<T(==)>(s: State<T>, r: Step<T>): State<T> {
    match r
    case Start(x) => DoStart(s, x)
    case _ => Do(s, r)
  }

  /** The first timer that an interrupt does not expire. */
  ghost function FirstLive(s: State<TimerEvent>): TimerEvent? {
    var n := Expired(Settled(s));
    if n < |s.timers| then s.timers[n].timer else null
  }

  /** The state after the running head has been taken out and its successor, now with the given delta, been armed. */
  function PassedOn<T>(s: State<T>, delta: nat): State<T> {
    if |s.timers| <= 1 then s.(timers := [], running := false)
    else Arm(s.(timers := [Entry(s.timers[1].timer, delta)] + s.timers[2..]))
  }

  /** With the exact sum for a delta, that is the model's stop. */
  lemma PassedOnIsStop<T>(s: State<T>, x: T, delta: nat)
    requires s.running && s.timers != [] && s.timers[0].timer == x
    requires |s.timers| > 1 ==> delta == s.timers[1].delta + Remaining(s)
    ensures PassedOn(s, delta) == DoStop(s, x)
  {
    assert |s.timers| > 1 ==> Settled(s)[2..] == s.timers[2..];
  }

  ghost function Opt(x: TimerEvent?): Option<TimerEvent> {
    if x == null then None else var t: TimerEvent := x; Some(t)
  }

  class TimerServer {
    const board: Board

    var head: TimerEvent?
    var loopedThroughMain: nat

    // the hardware counter, and the calls made to it
    var now: nat
    var armedAt: nat
    var loaded: uint32
    var arms: nat
    var sleeps: nat

    ghost var Timers: set<TimerEvent>            // every initialised timer
    ghost var Entries: seq<Entry<TimerEvent>>    // the chain from head, with its timestamps
    ghost var InIrq: bool
    ghost var Pending: seq<TimerEvent>
    ghost var Serving: Service<TimerEvent>
    ghost var Passing: Pass                      // how far the current low-power pass has come

    /** The chain from head is finite, acyclic and free of duplicates, and only its first node may be running. */
    ghost predicate Linked()
      reads this`Timers, this`Entries, this`head, Timers`timestamp, Timers`next, Timers`isRunning
    {
      && (forall i | 0 <= i < |Entries| :: Entries[i].timer in Timers)
      && Distinct(Entries)
      && head == (if Entries == [] then null else Entries[0].timer)
      && (forall i {:trigger Entries[i].timer.timestamp} | 0 <= i < |Entries| ::
            Entries[i].timer.timestamp == Entries[i].delta)
      && (forall i {:trigger Entries[i].timer.next} | 0 <= i < |Entries| :: Entries[i].timer.next == After(Entries, i))
      && (forall i {:trigger Entries[i].timer.isRunning} | 1 <= i < |Entries| :: !Entries[i].timer.isRunning)
    }

    ghost function Reloads(): map<TimerEvent, uint32>
      reads this`Timers, Timers`reloadValue
    {
      map x | x in Timers :: x.reloadValue
    }

    ghost function Model(): State<TimerEvent>
      reads this, Timers`reloadValue, (if head == null then {} else {head})`isRunning
    {
      State(board, now, armedAt, Entries, head != null && head.isRunning, InIrq, Pending, Serving,
            Reloads(), loopedThroughMain, arms, sleeps, Passing)
    }

    /** The timeout in the hardware is the running head's timestamp. */
    ghost predicate Programmed()
      reads this, head
    {
      head != null && head.isRunning ==> loaded == head.timestamp
    }

    ghost predicate Valid()
      reads this, Timers, head
    {
      Linked() && Inv(Model()) && Programmed()
    }

    constructor (board: Board)
      ensures Valid() && Model() == Boot(board) && Timers == {}
    {
      this.board := board;
      head, loopedThroughMain := null, 0;
      now, armedAt, loaded, arms, sleeps := 0, 0, 0, 0, 0;
      Timers, Entries, InIrq, Pending := {}, [], false, [];
      Serving, Passing := Service(None, None, false), NoPass;
    }

    /** TimerSetTimeout and TimerHwStart. */
    method SetTimeout(obj: TimerEvent)
      modifies this`loopedThroughMain, this`armedAt, this`loaded, this`arms
      ensures loopedThroughMain == 0 && armedAt == now && loaded == obj.timestamp && arms == old(arms) + 1
    {
      loopedThroughMain := 0;
      armedAt, loaded, arms := now, obj.timestamp, arms + 1;
    }

    /** TimerGetValue: the 64-bit elapsed count of the board, returned as 32 bits. */
    method GetValue() returns (value: uint32)
      ensures value == Elapsed(Model())
    {
      value := (now - armedAt + board.lead) % WORD;
    }

    /** TimerExists. */
    method Exists(obj: TimerEvent) returns (found: bool)
      requires Linked()
      ensures found <==> !Absent(Entries, obj)
    {
      var cur := head;
      ghost var k := 0;
      while cur != null
        invariant 0 <= k <= |Entries|
        invariant cur == if k < |Entries| then Entries[k].timer else null
        invariant forall i | 0 <= i < k :: Entries[i].timer != obj
        decreases |Entries| - k
      {
        if cur == obj {
          return true;
        }
        cur := cur.next;
        k := k + 1;
      }
      return false;
    }

    /** Writes the timestamp of the k-th node of the chain. */
    method SetDelta(obj: TimerEvent, value: uint32, ghost k: nat)
      requires Linked() && k < |Entries| && obj == Entries[k].timer
      modifies this`Entries, obj`timestamp
      ensures Linked()
      ensures obj.timestamp == value
      ensures Entries == old(Entries)[k := Entry(obj, value)]
    {
      Apart(Entries, k);
      DistinctUpdate(Entries, k, value);
      obj.timestamp := value;
      ghost var l := Entries;
      Entries := Entries[k := Entry(obj, value)];
      assert forall i | 0 <= i < |Entries| :: Entries[i].timer == l[i].timer && (i != k ==> Entries[i] == l[i]);
    }

    /** The two link writes every splice makes. */
    method LinkAfter(prev: TimerEvent, obj: TimerEvent, cur: TimerEvent?, ghost k: nat)
      requires Linked() && k < |Entries| && prev == Entries[k].timer && cur == After(Entries, k)
      requires obj in Timers && Absent(Entries, obj) && !obj.isRunning
      modifies this`Entries, prev`next, obj`next
      ensures Linked()
      ensures Entries == old(Entries[..k + 1] + [Entry(obj, obj.timestamp)] + Entries[k + 1..])
      ensures obj.next == cur
    {
      ghost var l := Entries;
      Apart(l, k);
      DistinctPut(l, k + 1, Entry(obj, obj.timestamp));
      prev.next := obj;
      obj.next := cur;
      Entries := Entries[..k + 1] + [Entry(obj, obj.timestamp)] + Entries[k + 1..];
      forall i | 0 <= i < |Entries|
        ensures Entries[i].timer in Timers && Entries[i].timer.timestamp == Entries[i].delta
        ensures Entries[i].timer.next == After(Entries, i)
        ensures i > 0 ==> !Entries[i].timer.isRunning
      {
        assert Entries[i] == if i <= k then l[i] else if i == k + 1 then Entry(obj, obj.timestamp) else l[i - 1];
        if i < k {
          assert l[i].timer.next == After(old(Entries), i);
        } else if i > k + 1 {
          assert l[i - 1].timer.next == After(old(Entries), i - 1);
        }
      }
    }

    /** Writes the timestamp of a node outside the chain. */
    method SetUnlisted(obj: TimerEvent, value: uint32)
      requires Linked() && Absent(Entries, obj)
      modifies obj`timestamp, obj`isRunning
      ensures Linked()
      ensures obj.timestamp == value && !obj.isRunning
    {
      obj.timestamp := value;
      obj.isRunning := false;
    }

    /** Splices obj in between prev and cur, `aggregated` ticks having been counted up to prev; cur gives up what
        obj's delta takes. */
    method Splice(prev: TimerEvent, obj: TimerEvent, cur: TimerEvent?, aggregated: uint32, ghost start: uint32,
        ghost k: nat)
      requires Linked() && k < |Entries| && prev == Entries[k].timer && cur == After(Entries, k)
      requires obj in Timers && Absent(Entries, obj) && !obj.isRunning
      requires start <= aggregated == start + Sum(Entries[1..k + 1]) <= obj.timestamp
      requires cur != null ==> obj.timestamp - aggregated < cur.timestamp
      modifies this`Entries, prev`next, obj`next, obj`timestamp, (if cur == null then {} else {cur})`timestamp
      ensures Linked()
      ensures Entries == old([Entries[0]] + InsertAfter(Entries[1..], start, obj, obj.timestamp))
      ensures obj.next == cur
      ensures cur != null ==> cur.timestamp > 0
    {
      ghost var l, timeout, left := Entries, obj.timestamp, obj.timestamp - aggregated;
      obj.timestamp := Sub32(obj.timestamp, aggregated);
      if cur != null {
        SetDelta(cur, Sub32(cur.timestamp, obj.timestamp), k + 1);
      }
      SpliceInserts(l, start, obj, timeout, k, left, Entries);
      LinkAfter(prev, obj, cur, k);
    }

    /** The loop of TimerInsertTimer.  Besides obj it touches only the link of obj's predecessor, which is k-th in the
        chain, and the timestamp of its successor. */
    method SpliceInOrder(obj: TimerEvent, remainingTime: uint32) returns (ghost k: nat)
      requires Linked() && Entries != [] && obj in Timers && Absent(Entries, obj) && !obj.isRunning
      requires remainingTime <= obj.timestamp
      requires remainingTime + Sum(Entries[1..]) <= UINT32_MAX
      modifies this`Entries, Timers`timestamp, Timers`next
      ensures Linked()
      ensures Entries == old([Entries[0]] + InsertAfter(Entries[1..], remainingTime, obj, obj.timestamp))
      ensures k < |old(Entries)| && obj.next == After(old(Entries), k) && (obj.next != null ==> obj.next.timestamp > 0)
      ensures forall x | x in Timers && x != obj && x != old(Entries)[k].timer :: x.next == old(x.next)
      ensures forall x | x in Timers && x != obj && x != obj.next :: x.timestamp == old(x.timestamp)
    {
      ghost var timeout := obj.timestamp;
      var prev, cur := head, head.next;
      assert prev == Entries[0].timer;
      assert Entries[1..1] == [];
      k := 0;
      if cur == null {
        Splice(prev, obj, null, remainingTime, remainingTime, 0);
      } else {
        PartSum(Entries, 0);
        var aggregated: uint32, aggregatedNext: uint32 := remainingTime, Add32(remainingTime, cur.timestamp);
        while prev != null
          invariant Linked() && Entries == old(Entries) && obj.timestamp == timeout
          invariant 0 <= k && k + 1 < |Entries| && prev == Entries[k].timer && cur == Entries[k + 1].timer
          invariant forall x | x in Timers :: x.next == old(x.next) && x.timestamp == old(x.timestamp)
          invariant aggregated == remainingTime + Sum(Entries[1..k + 1]) <= timeout
          invariant aggregatedNext == remainingTime + Sum(Entries[1..k + 2]) == aggregated + cur.timestamp
          decreases |Entries| - k
        {
          if aggregatedNext > obj.timestamp {
            Splice(prev, obj, cur, aggregated, remainingTime, k);
            break;
          } else {
            prev := cur;
            cur := cur.next;
            k := k + 1;
            if cur == null {
              aggregated := aggregatedNext;
              Splice(prev, obj, null, aggregated, remainingTime, k);
              break;
            } else {
              PartSum(Entries, k);
              aggregated := aggregatedNext;
              aggregatedNext := Add32(aggregatedNext, cur.timestamp);
            }
          }
        }
      }
    }

    /** TimerInsertTimer: splices obj in behind the running head, whose remaining time is given. */
    method InsertTimer(obj: TimerEvent, remainingTime: uint32)
      requires Linked() && Programmed() && Entries != [] && obj in Timers && Absent(Entries, obj) && !obj.isRunning
      requires remainingTime <= obj.timestamp
      requires remainingTime + Sum(Entries[1..]) <= UINT32_MAX
      modifies this`Entries, Timers`timestamp, Timers`next
      ensures Linked() && Programmed()
      ensures Model() ==
              old(Model().(timers := [Entries[0]] + InsertAfter(Entries[1..], remainingTime, obj, obj.timestamp)))
      ensures obj.next != null ==> obj.next.timestamp > 0
      ensures forall x | x in Timers && x != obj && Absent(old(Entries), x) ::
                x.next == old(x.next) && x.timestamp == old(x.timestamp)
      ensures forall x | x in Timers && x != obj && old(x.timestamp) > 0 :: x.timestamp > 0
    {
      ghost var k := SpliceInOrder(obj, remainingTime);
    }

    /** Puts obj in front of the chain as the running head. */
    method LinkFront(obj: TimerEvent, cur: TimerEvent?)
      requires Linked() && obj in Timers && Absent(Entries, obj) && cur == head
      modifies this`Entries, this`head, obj`next, obj`isRunning, (if cur == null then {} else {cur})`isRunning
      ensures Linked() && head == obj && obj.isRunning && obj.next == cur
      ensures Entries == [Entry(obj, obj.timestamp)] + old(Entries)
    {
      ghost var l := Entries;
      if cur != null {
        cur.isRunning := false;
      }
      obj.next := cur;
      obj.isRunning := true;
      head := obj;
      Entries := [Entry(obj, obj.timestamp)] + Entries;
      DistinctPut(l, 0, Entries[0]);
      assert l[..0] + [Entries[0]] + l[0..] == Entries;
      forall i | 0 <= i < |Entries|
        ensures Entries[i].timer in Timers && Entries[i].timer.timestamp == Entries[i].delta
        ensures Entries[i].timer.next == After(Entries, i)
        ensures i > 0 ==> !Entries[i].timer.isRunning
      {
        if i > 0 {
          assert Entries[i] == l[i - 1] && l[i - 1].timer.next == After(old(Entries), i - 1);
        }
      }
    }

    /** TimerInsertNewHeadTimer: obj becomes the running head; the old head keeps what remains beyond obj's timeout. */
    method InsertNewHead(obj: TimerEvent, remainingTime: uint32)
      requires Linked() && obj in Timers && Absent(Entries, obj)
      requires Entries != [] ==> obj.timestamp < remainingTime
      modifies this`Entries, this`head, this`loopedThroughMain, this`armedAt, this`loaded, this`arms
      modifies Timers`timestamp, Timers`next, Timers`isRunning
      ensures Linked() && Programmed()
      ensures Model() == old(Arm(Model().(timers := PutFirst(Entries, obj, obj.timestamp, remainingTime))))
      ensures obj.next == old(head) && (obj.next != null ==> obj.next.timestamp > 0)
      ensures forall x | x in Timers && x != obj :: x.next == old(x.next)
      ensures forall x | x in Timers && x != obj && x != obj.next :: x.timestamp == old(x.timestamp)
    {
      hide Distinct;
      var cur := head;
      ghost var l := Entries;
      if cur != null {
        SetDelta(cur, Sub32(remainingTime, obj.timestamp), 0);
      }
      LinkFront(obj, cur);
      assert Entries == PutFirst(l, obj, obj.timestamp, remainingTime);
      SetTimeout(head);
    }

    /** The head's remaining time, as TimerStart and TimerStop work it out. */
    method RemainingTime() returns (remainingTime: uint32)
      requires Linked() && head != null
      ensures remainingTime == Remaining(Model())
    {
      if head.isRunning {
        var elapsedTime := GetValue();
        if elapsedTime > head.timestamp {
          elapsedTime := head.timestamp;
        }
        remainingTime := Sub32(head.timestamp, elapsedTime);
      } else {
        remainingTime := head.timestamp;
      }
    }

    /** The part of TimerStart that runs when obj is not listed yet. */
    method StartUnlisted(obj: TimerEvent)
      requires Linked() && obj in Timers && Absent(Entries, obj) && !Listed(Entries, obj)
      requires Entries != [] ==> Remaining(Model()) + Sum(Entries[1..]) <= UINT32_MAX
      requires Programmed()
      modifies this`Entries, this`head, this`loopedThroughMain, this`armedAt, this`loaded, this`arms
      modifies Timers`timestamp, Timers`next, Timers`isRunning
      ensures Linked() && Programmed()
      ensures Model() == DoStart(old(Model()), obj)
      ensures forall x | x in Timers && x != obj && Absent(old(Entries), x) ::
                x.next == old(x.next) && x.timestamp == old(x.timestamp)
      ensures forall x | x in Timers && x != obj && old(x.timestamp) > 0 :: x.timestamp > 0
      ensures obj.next != null ==> obj.next.timestamp > 0
    {
      ghost var s, timeout := Model(), obj.reloadValue;
      assert Reload(s, obj) == timeout;
      SetUnlisted(obj, obj.reloadValue);
      assert Model() == s;
      if head == null {
        InsertNewHead(obj, obj.timestamp);
      } else {
        var remainingTime := RemainingTime();
        if obj.timestamp < remainingTime {
          InsertNewHead(obj, remainingTime);
        } else {
          InsertTimer(obj, remainingTime);
        }
      }
    }

    /** TimerStart. */
    method Start(obj: TimerEvent?)
      requires Valid() && (obj != null ==> obj in Timers)
      modifies this`Entries, this`head, this`loopedThroughMain, this`armedAt, this`loaded, this`arms
      modifies Timers`timestamp, Timers`next, Timers`isRunning
      ensures Valid()
      ensures Model() == if obj == null then old(Model()) else DoStart(old(Model()), obj)
      ensures forall x | x in Timers && x != obj && Absent(old(Entries), x) ::
                x.next == old(x.next) && x.timestamp == old(x.timestamp)
      ensures forall x | x in Timers && x != obj && old(x.timestamp) > 0 :: x.timestamp > 0
      ensures obj != null && old(Absent(Entries, obj)) && obj.next != null ==> obj.next.timestamp > 0
      ensures obj != null && old(!Absent(Entries, obj)) ==> obj.timestamp == old(obj.timestamp)
    {
      if obj == null {
        return;
      }
      var found := Exists(obj);
      ListedIndex(Entries, obj);
      if found {
        return;
      }
      StartInv(Model(), obj);
      if Entries != [] {
        TotalSplit(Model());
      }
      StartUnlisted(obj);
    }

    /** Takes the head out of the chain. */
    method PopHead()
      requires Linked() && head != null
      modifies this`head, this`Entries
      ensures Linked() && (head != null ==> !head.isRunning)
      ensures Entries == old(Entries)[1..]
    {
      ghost var l := Entries;
      if head.next != null {
        head := head.next;
      } else {
        head := null;
      }
      Entries := Entries[1..];
      assert forall i | 0 <= i < |Entries| :: Entries[i] == l[i + 1];
      forall i | 0 <= i < |Entries|
        ensures Entries[i].timer.next == After(Entries, i) && !Entries[i].timer.isRunning
      {
        assert l[i + 1].timer.next == After(old(Entries), i + 1);
      }
    }

    /** Takes the head out of the chain; its successor inherits its remaining time, in 32 bits. */
    method PassOn(remainingTime: uint32)
      requires Linked() && head != null && head.next != null
      modifies this`head, this`Entries, head.next`timestamp
      ensures Linked() && |old(Entries)| > 1 && head == old(head.next)
      ensures head.timestamp == Add32(old(head.next.timestamp), remainingTime)
      ensures Entries == [Entry(old(Entries)[1].timer, head.timestamp)] + old(Entries)[2..]
    {
      ghost var l := Entries;
      PopHead();
      SetDelta(head, Add32(head.timestamp, remainingTime), 0);
      assert Entries == [Entry(l[1].timer, head.timestamp)] + l[2..];
    }

    /** Marks the head running and loads the hardware with its timestamp. */
    method ArmHead()
      requires Linked() && head != null
      modifies head`isRunning, this`loopedThroughMain, this`armedAt, this`loaded, this`arms
      ensures Linked() && Programmed() && Model() == Arm(old(Model()))
    {
      Apart(Entries, 0);
      head.isRunning := true;
      SetTimeout(head);
    }

    /** The branch of TimerStop for a head that is running.  The successor gets the sum of its own timestamp and the
        remaining time, modulo 2^32, and is armed. */
    method StopRunning(obj: TimerEvent)
      requires Linked() && head == obj && head.isRunning
      modifies this`Entries, this`head, this`loopedThroughMain, this`armedAt, this`loaded, this`arms
      modifies obj`isRunning, (if obj.next == null then {} else {obj.next})`isRunning
      modifies (if obj.next == null then {} else {obj.next})`timestamp
      ensures Linked() && Programmed() && head == obj.next && head != obj
      ensures head != null ==> head.timestamp == (old(obj.next.timestamp) + old(Remaining(Model()))) % 0x1_0000_0000
      ensures obj.isRunning == (head == null) && (head != null ==> head.isRunning)
      ensures Model() == PassedOn(old(Model()), if head == null then 0 else head.timestamp)
    {
      hide Remaining, Distinct;
      ghost var s := Model();
      Apart(Entries, 0);
      var remainingTime := RemainingTime();
      if head.next != null {
        head.isRunning := false;
        PassOn(remainingTime);
        assert Model() == s.(timers := Entries, running := false);
        ArmHead();
      } else {
        PopHead();
        assert Model() == s.(timers := [], running := false);
      }
    }

    /** The branch of TimerStop for a head that is not started yet. */
    method StopWaiting(obj: TimerEvent)
      requires Linked() && head == obj && !head.isRunning
      requires |Entries| > 1 ==> Entries[1].delta + Remaining(Model()) <= UINT32_MAX
      modifies this`Entries, this`head, (if obj.next == null then {} else {obj.next})`timestamp
      ensures Linked() && Programmed() && Model() == DoStop(old(Model()), obj)
      ensures head == obj.next && (head != null ==> head != obj && head.timestamp >= old(obj.next.timestamp))
    {
      ghost var s := Model();
      Apart(Entries, 0);
      if head.next != null {
        var remainingTime := obj.timestamp;
        PassOn(remainingTime);
        assert Entries == Remove(Settled(s), obj);
        assert Model() == s.(timers := Entries);
      } else {
        PopHead();
        assert Model() == s.(timers := [], running := false);
      }
    }

    /** Takes the node behind prev out of the chain. */
    method UnlinkAfter(prev: TimerEvent, cur: TimerEvent?, ghost k: nat)
      requires Linked() && k + 1 < |Entries| && prev == Entries[k].timer && cur == After(Entries, k + 1)
      modifies this`Entries, prev`next
      ensures Linked()
      ensures Entries == old(Entries)[..k + 1] + old(Entries)[k + 2..]
    {
      ghost var l := Entries;
      Apart(l, k);
      DistinctDelete(l, k + 1);
      prev.next := cur;
      Entries := Entries[..k + 1] + Entries[k + 2..];
      assert forall i | 0 <= i < |Entries| :: Entries[i] == l[if i <= k then i else i + 1];
      forall i | 0 <= i < |Entries|
        ensures Entries[i].timer.next == After(Entries, i)
        ensures i > 0 ==> !Entries[i].timer.isRunning
      {
        if i < k {
          assert l[i].timer.next == After(old(Entries), i);
        } else if i > k {
          assert l[i + 1].timer.next == After(old(Entries), i + 1);
        }
      }
    }

    /** Takes obj, which follows prev, out of the chain; its successor inherits its timestamp. */
    method Unlink(prev: TimerEvent, obj: TimerEvent, remainingTime: uint32, ghost k: nat)
      requires Linked() && k + 1 < |Entries| && prev == Entries[k].timer && obj == Entries[k + 1].timer
      requires remainingTime == obj.timestamp
      requires k + 2 < |Entries| ==> Entries[k + 1].delta + Entries[k + 2].delta <= UINT32_MAX
      modifies this`Entries, prev`next, (if obj.next == null then {} else {obj.next})`timestamp
      ensures Linked() && prev != obj && obj.next == After(old(Entries), k + 1) && obj.timestamp == old(obj.timestamp)
      ensures Entries == [old(Entries)[0]] + Remove(old(Entries)[1..], obj)
      ensures obj.next != null ==> obj.next.timestamp >= old(obj.next.timestamp)
    {
      ghost var l := Entries;
      Apart(l, k + 1);
      RemovedAt(l, obj, k);
      if obj.next != null {
        var cur := obj.next;
        UnlinkAfter(prev, cur, k);
        SetDelta(cur, Add32(cur.timestamp, remainingTime), k + 1);
        MergedAt(l, k);
      } else {
        UnlinkAfter(prev, null, k);
      }
    }

    /** Cutting out the entry behind k and then adding its delta to the next is the merge. */
    lemma MergedAt(l: seq<Entry<TimerEvent>>, k: nat)
      requires k + 2 < |l|
      ensures (l[..k + 1] + l[k + 2..])[k + 1 := Entry(l[k + 2].timer, l[k + 2].delta + l[k + 1].delta)] ==
              l[..k + 1] + ([Entry(l[k + 2].timer, l[k + 2].delta + l[k + 1].delta)] + l[k + 3..])
    {
    }

    lemma RemovedAt(l: seq<Entry<TimerEvent>>, obj: TimerEvent, k: nat)
      requires k + 1 < |l| && l[k + 1].timer == obj
      requires forall i | 0 <= i <= k :: l[i].timer != obj
      ensures [l[0]] + Remove(l[1..], obj) ==
              l[..k + 1] +
              if k + 2 < |l| then [Entry(l[k + 2].timer, l[k + 2].delta + l[k + 1].delta)] + l[k + 3..] else []
    {
      RemoveIndex(l[1..], obj, k);
      assert l[..k + 1] == [l[0]] + l[1..][..k];
      if k + 2 < |l| {
        assert l[1..][k + 2..] == l[k + 3..];
      }
    }

    lemma NotRemoved(l: seq<Entry<TimerEvent>>, obj: TimerEvent)
      requires l != [] && forall i | 0 <= i < |l| :: l[i].timer != obj
      ensures [l[0]] + Remove(l[1..], obj) == l
    {
      ListedIndex(l[1..], obj);
      RemoveAbsent(l[1..], obj);
    }

    /** The branch of TimerStop for an object that is not the head, and may not be listed at all. */
    method StopLater(obj: TimerEvent)
      requires Linked() && head != null && head != obj && obj in Timers
      requires forall i | 1 <= i < |Entries| - 1 :: Entries[i].delta + Entries[i + 1].delta <= UINT32_MAX
      modifies this`Entries, Timers`timestamp, Timers`next
      ensures Linked()
      ensures Entries == [old(Entries)[0]] + Remove(old(Entries)[1..], obj)
      ensures forall x | x in Timers && (x == obj || Absent(old(Entries), x)) ::
                x.timestamp == old(x.timestamp) && x.next == old(x.next)
      ensures forall x | x in Timers && old(x.timestamp) > 0 :: x.timestamp > 0
    {
      var remainingTime := obj.timestamp;
      var prev, cur := head, head;
      ghost var k, l := 0, Entries;
      while cur != null
        invariant Linked() && Entries == l
        invariant forall x | x in Timers :: x.next == old(x.next) && x.timestamp == old(x.timestamp)
        invariant 0 <= k <= |l|
        invariant cur == if k < |l| then l[k].timer else null
        invariant k > 0 ==> prev == l[k - 1].timer
        invariant forall i | 0 <= i < k :: l[i].timer != obj
        decreases |l| - k
      {
        if cur == obj {
          Unlink(prev, obj, remainingTime, k - 1);
          return;
        } else {
          prev := cur;
          cur := cur.next;
          k := k + 1;
        }
      }
      NotRemoved(l, obj);
    }

    /** The sums TimerStop forms fit in 32 bits. */
    lemma StopBounds()
      requires Linked() && Inv(Model()) && head != null
      ensures |Entries| > 1 ==> Entries[1].delta + Remaining(Model()) <= UINT32_MAX
      ensures forall i | 1 <= i < |Entries| - 1 :: Entries[i].delta + Entries[i + 1].delta <= UINT32_MAX
    {
      TotalSplit(Model());
      if |Entries| > 1 {
        assert Entries[1..][0] == Entries[1];
      }
      forall i | 1 <= i < |Entries| - 1 ensures Entries[i].delta + Entries[i + 1].delta <= UINT32_MAX {
        PairSum(Entries[1..], i - 1);
      }
    }

    /** TimerStop. */
    method Stop(obj: TimerEvent?)
      requires Valid() && (obj != null ==> obj in Timers)
      modifies this`Entries, this`head, this`loopedThroughMain, this`armedAt, this`loaded, this`arms
      modifies Timers`timestamp, Timers`next, Timers`isRunning
      ensures Valid()
      ensures Model() == if obj == null then old(Model()) else DoStop(old(Model()), obj)
      ensures forall x | x in Timers && (x == obj || Absent(old(Entries), x)) ::
                x.timestamp == old(x.timestamp) && x.next == old(x.next)
      ensures forall x | x in Timers && old(x.timestamp) > 0 :: x.timestamp > 0
    {
      hide Inv, PassedOn, Remaining, Settled;
      if head == null || obj == null {
        return;
      }
      ghost var s := Model();
      StopInv(s, obj);
      StopBounds();
      Apart(Entries, 0);
      if head == obj {
        if head.isRunning {
          StopRunning(obj);
          PassedOnIsStop(s, obj, if head == null then 0 else head.timestamp);
        } else {
          StopWaiting(obj);
        }
      } else {
        StopLater(obj);
        assert Model() == s.(timers := Entries);
      }
    }

    /** TimerReset. */
    method Reset(obj: TimerEvent?)
      requires Valid() && (obj != null ==> obj in Timers)
      modifies this`Entries, this`head, this`loopedThroughMain, this`armedAt, this`loaded, this`arms
      modifies Timers`timestamp, Timers`next, Timers`isRunning
      ensures Valid()
      ensures Model() == if obj == null then old(Model()) else DoStart(DoStop(old(Model()), obj), obj)
    {
      Stop(obj);
      Start(obj);
    }

    /** Writes the timeout of a node outside the chain. */
    method SetTimeoutOf(obj: TimerEvent, value: uint32)
      requires Linked() && obj in Timers && Absent(Entries, obj) && Programmed()
      modifies obj`timestamp, obj`reloadValue
      ensures Linked() && Programmed()
      ensures Model() == old(Model()).(reload := old(Model()).reload[obj := value]) && obj.timestamp == value
    {
      ghost var m := Reloads();
      obj.timestamp := value;
      obj.reloadValue := value;
      assert Reloads() == m[obj := value];
    }

    /** TimerSetValue from its second statement on. Interrupts are enabled here, and one may have come since the timer
        was stopped, as long as it has not started the timer again. */
    method StoreValue(obj: TimerEvent, value: uint32)
      requires Valid() && obj in Timers && Absent(Entries, obj)
      modifies obj`timestamp, obj`reloadValue
      ensures Valid()
      ensures Model() == DoStore(old(Model()), obj, value)
      ensures obj.timestamp == if value < board.minimum then board.minimum else value
    {
      hide Inv;
      StoreInv(Model(), obj, value);
      var minValue, bounded := board.minimum, value;
      if bounded < minValue {
        bounded := minValue;
      }
      SetTimeoutOf(obj, bounded);
    }

    /** TimerSetValue, if no interrupt comes between its two parts. */
    method SetValue(obj: TimerEvent, value: uint32)
      requires Valid() && obj in Timers
      modifies this`Entries, this`head, this`loopedThroughMain, this`armedAt, this`loaded, this`arms
      modifies Timers`timestamp, Timers`next, Timers`isRunning, obj`reloadValue
      ensures Valid()
      ensures Model() == DoSetValue(old(Model()), obj, value)
      ensures obj.timestamp == if value < board.minimum then board.minimum else value
      ensures forall x | x in Timers && Absent(old(Entries), x) :: x.next == old(x.next)
    {
      hide Inv, DoStop, DoStore;
      ghost var s := Model();
      Stop(obj);
      StopListed(s, obj, obj);
      ListedIndex(Entries, obj);
      StoreValue(obj, value);
    }

    /** TimerInit, for an object that is new or not in the list. */
    method Init(obj: TimerEvent, callback: Callback)
      requires Valid() && !InIrq && Absent(Entries, obj)
      modifies this`Timers, obj
      ensures Valid() && Timers == old(Timers) + {obj}
      ensures Model() == Do(old(Model()), Step.Init(obj))
      ensures obj.reloadValue == 0 && obj.timestamp == 0 && !obj.isRunning && obj.next == null
      ensures obj.callback == callback
    {
      hide Inv;
      ghost var s := Model();
      obj.timestamp, obj.reloadValue, obj.isRunning := 0, 0, false;
      obj.callback, obj.next := callback, null;
      Timers := Timers + {obj};
      assert Reloads() == s.reload[obj := 0];
      ReloadInv(s, Reloads());
    }

    /** TimerIncrementTickCounter, from the tick interrupt. */
    method Tick()
      requires Valid() && Enabled(Model(), Step.Tick)
      modifies this`now
      ensures Valid() && Model() == Do(old(Model()), Step.Tick)
    {
      TickInv(Model());
      now := now + 1;
    }

    // -------------------------------------------------------------- low power

    /** The tests of TimerLowPowerHandler, with the pass they decide on. Interrupts are enabled from here on to the
        end of the pass. */
    method TestPass() returns (pass: Pass)
      requires Valid() && Enabled(Model(), Step.PassTest)
      modifies this`Passing
      ensures Valid() && Model() == Do(old(Model()), Step.PassTest) && pass == Passing
      ensures pass == Entering <==> head != null && head.isRunning && loopedThroughMain >= 5
      ensures pass == Counting <==> head != null && head.isRunning && loopedThroughMain < 5
      ensures pass == NoPass <==> head == null || !head.isRunning
    {
      hide Inv;
      GatedHere();
      PassInv(Model(), DoPassTest(Model()));
      pass := NoPass;
      if head != null && head.isRunning {
        if loopedThroughMain < PASSES_BEFORE_STOP {
          pass := Counting;
        } else {
          pass := Entering;
        }
      }
      Passing := pass;
    }

    /** Loads the counter for its increment. */
    method LoadPass() returns (count: nat)
      requires Valid() && Enabled(Model(), Step.PassLoad)
      modifies this`Passing
      ensures Valid() && Model() == Do(old(Model()), Step.PassLoad)
      ensures Passing.Loaded? && count == Passing.count
    {
      hide Inv;
      GatedHere();
      PassInv(Model(), DoPassLoad(Model()));
      count := loopedThroughMain;
      Passing := Loaded(count, arms);
    }

    /** Stores the incremented counter. */
    method CountPass(count: nat)
      requires Valid() && Enabled(Model(), Step.PassAct) && Passing.Loaded? && count == Passing.count
      modifies this`loopedThroughMain, this`Passing
      ensures Valid() && Model() == Do(old(Model()), Step.PassAct)
    {
      hide Inv;
      GatedHere();
      PassInv(Model(), DoPassAct(Model()));
      loopedThroughMain := count + 1;
      Passing := NoPass;
    }

    /** Clears the counter and enters stop mode. */
    method EnterStop()
      requires Valid() && Enabled(Model(), Step.PassAct) && Passing == Entering
      modifies this`loopedThroughMain, this`sleeps, this`Passing
      ensures Valid() && Model() == Do(old(Model()), Step.PassAct)
    {
      hide Inv;
      GatedHere();
      PassInv(Model(), DoPassAct(Model()));
      loopedThroughMain := 0;
      sleeps := sleeps + 1;
      Passing := NoPass;
    }

    lemma GatedHere()
      requires Valid()
      ensures Gated(Model())
    {
    }

    /** TimerLowPowerHandler, if no interrupt comes during the pass. */
    method LowPower()
      requires Valid() && Enabled(Model(), Step.PassTest)
      modifies this`loopedThroughMain, this`sleeps, this`Passing
      ensures Valid() && Model() == DoLowPower(old(Model()))
      ensures sleeps == old(sleeps) + if head != null && head.isRunning && old(loopedThroughMain) >= 5 then 1 else 0
      ensures loopedThroughMain ==
              if head == null || !head.isRunning then old(loopedThroughMain)
              else if old(loopedThroughMain) >= 5 then 0 else old(loopedThroughMain) + 1
    {
      hide Inv;
      var pass := TestPass();
      if pass == Counting {
        var count := LoadPass();
        CountPass(count);
      } else if pass == Entering {
        EnterStop();
      }
    }

    // -------------------------------------------------------------- the interrupt handler

    /** The node is neither listed nor has its link or timestamp been changed. */
    twostate predicate LeftAlone(x: TimerEvent)
      reads this`Entries, x
    {
      Absent(Entries, x) && x.next == old(x.next) && x.timestamp == old(x.timestamp)
    }

    /** Nodes outside the chain that no request names stay outside. */
    lemma StillAbsent(s: State<TimerEvent>, r: Step<TimerEvent>, y: TimerEvent)
      requires Distinct(s.timers) && Entries == Do(s, r).timers && IsRequest(r) && r != Step.Start(y)
      requires forall i | 0 <= i < |s.timers| :: s.timers[i].timer != y
      ensures Absent(Entries, y)
    {
      ListedIndex(s.timers, y);
      RequestListed(s, r, y);
      ListedIndex(Entries, y);
    }

    /** What a request about obj leaves alone, whether it starts, stops or only sets it. */
    twostate predicate Frame(obj: TimerEvent, starts: bool, stops: bool)
      reads this, Timers
    {
      && Timers == old(Timers)
      && (forall x | x in Timers && Absent(old(Entries), x) && !(starts && x == obj) :: x.next == old(x.next))
      && (forall x | x in Timers && Absent(old(Entries), x) && (stops || x != obj) :: x.timestamp == old(x.timestamp))
      && (forall x | x in Timers && (stops || x != obj) && old(x.timestamp) > 0 :: x.timestamp > 0)
      && (starts && obj in Timers && old(!Absent(Entries, obj)) ==> obj.timestamp == old(obj.timestamp))
    }

    /** One request, from anywhere. */
    method Ask(r: Step<TimerEvent>)
      requires Valid() && IsRequest(r) && r.timer in Timers && (r.Store? ==> Absent(Entries, r.timer))
      modifies this`Entries, this`head, this`loopedThroughMain, this`armedAt, this`loaded, this`arms
      modifies Timers`timestamp, Timers`next, Timers`isRunning, Timers`reloadValue
      ensures Valid() && Model() == Asked(old(Model()), r) && Frame(r.timer, r.Start?, r.Stop?)
      ensures r.Store? ==> r.timer.timestamp == if r.value < board.minimum then board.minimum else r.value
    {
      hide Inv;
      match r {
        case Start(x) => Start(x);
        case Stop(x) => Stop(x);
        case Store(x, value) => StoreValue(x, value);
      }
    }

    /** While the callback of self runs: until it has started its own timer, the nodes the walk will meet are as they
        were and lead to a live timer that waits; after that, self's successor waits. */
    ghost predicate OnTrack(self: TimerEvent, rest: seq<TimerEvent>, live: TimerEvent?)
      reads this`Timers, this`Entries, this`Serving, live
    {
      && self in Timers && Serving == Service(Some(self), Opt(live), Serving.restarted)
      && (forall i | 0 <= i < |rest| :: rest[i] in Timers && Absent(Entries, rest[i]))
      && if Serving.restarted then rest == [] && Spaced(Entries, self)
         else Absent(Entries, self) && (live != null ==> live in Timers && live != self && live.timestamp > 0)
    }

    /** One request made by the callback of self. */
    method Request(r: Step<TimerEvent>, ghost self: TimerEvent, ghost rest: seq<TimerEvent>, ghost live: TimerEvent?)
      requires Valid() && InIrq && Pending == rest && OnTrack(self, rest, live)
      requires IsRequest(r) && r.timer in Timers && Enabled(Model(), r)
      modifies this`Entries, this`head, this`loopedThroughMain, this`armedAt, this`loaded, this`arms, this`Serving
      modifies Timers`timestamp, Timers`next, Timers`isRunning, Timers`reloadValue
      ensures Valid() && Model() == Do(old(Model()), r) && OnTrack(self, rest, live)
      ensures !Serving.restarted ==> !old(Serving.restarted) && self.next == old(self.next)
      ensures forall i | 0 <= i < |rest| :: LeftAlone(rest[i])
    {
      hide Inv, DoStart, DoStop, DoStore, Distinct, Listed, Elapsed, Remaining, Settled, Spaced;
      ghost var s := Model();
      StoreAbsent(r);
      Ask(r);
      ghost var before := Serving.restarted;
      if r == Step.Start(self) {
        NoteRestart(self);
      }
      if before {
        StillRestarted(s, r, self, rest, live);
      } else if r == Step.Start(self) {
        JustRestarted(s, self, rest, live);
      } else {
        ListedIndex(s.timers, r.timer);
        StillAbsent(s, r, self);
        StillWaits(s, r);
        forall i | 0 <= i < |rest| ensures Absent(Entries, rest[i]) {
          StillAbsent(s, r, rest[i]);
        }
      }
    }

    /** The callback of self has started self. */
    ghost method NoteRestart(self: TimerEvent)
      requires Valid() && Serving.self == Some(self)
      modifies this`Serving
      ensures Valid() && Model() == Noted(old(Model()), self) && Serving == old(Serving).(restarted := true)
    {
      NotedInv(Model(), self);
      Serving := Serving.(restarted := true);
    }

    lemma StoreAbsent(r: Step<TimerEvent>)
      requires IsRequest(r) && Enabled(Model(), r)
      ensures r.Store? ==> Absent(Entries, r.timer)
    {
      ListedIndex(Entries, r.timer);
    }

    lemma StillRestarted(s: State<TimerEvent>, r: Step<TimerEvent>, self: TimerEvent, rest: seq<TimerEvent>,
                         live: TimerEvent?)
      requires Enabled(s, r) && s.inIrq && s.walk == Service(Some(self), Opt(live), true) && IsRequest(r)
      requires self in Timers && rest == [] && Serving == s.walk && Entries == Do(s, r).timers
      ensures OnTrack(self, rest, live)
    {
    }

    lemma JustRestarted(s: State<TimerEvent>, self: TimerEvent, rest: seq<TimerEvent>, live: TimerEvent?)
      requires Enabled(s, Step.Start(self)) && s.inIrq && s.walk == Service(Some(self), Opt(live), false)
      requires s.pending == rest && Absent(s.timers, self)
      requires self in Timers && Serving == s.walk.(restarted := true) && Entries == DoStart(s, self).timers
      ensures OnTrack(self, rest, live) && rest == []
    {
      ListedIndex(s.timers, self);
      StartSpaced(s, self);
    }

    /** A timer that was started and has something to wait for has a positive timestamp. */
    lemma StillWaits(s: State<TimerEvent>, r: Step<TimerEvent>)
      requires Linked() && Entries == Asked(s, r).timers
      ensures r.Start? && Waits(DoStart(s, r.timer).timers, r.timer) ==> r.timer.timestamp > 0
    {
      if r.Start? && Waits(Entries, r.timer) {
        WaitsIndex(Entries, r.timer);
      }
    }

    /** A callback: the requests it makes, one after the other. */
    method RunCallback(reqs: seq<Step<TimerEvent>>, ghost self: TimerEvent, ghost rest: seq<TimerEvent>,
                       ghost live: TimerEvent?)
      requires Valid() && InIrq && Pending == rest && OnTrack(self, rest, live) && !Serving.restarted
      requires AllRequests(reqs, Timers) && AllEnabled(Model(), reqs)
      modifies this`Entries, this`head, this`loopedThroughMain, this`armedAt, this`loaded, this`arms, this`Serving
      modifies Timers`timestamp, Timers`next, Timers`isRunning, Timers`reloadValue
      ensures Valid() && Model() == RunAll(old(Model()), reqs) && OnTrack(self, rest, live)
      ensures forall i | 0 <= i < |rest| :: LeftAlone(rest[i])
      ensures if Serving.restarted then rest == [] && (self.next != null ==> self.next.timestamp > 0)
              else self.next == old(self.next) && (live != null ==> live.timestamp > 0)
    {
      hide Inv, RunAll, AllEnabled, Enabled, Do, Spaced;
      ghost var s := Model();
      var i := 0;
      RunNone(s);
      while i < |reqs|
        invariant 0 <= i <= |reqs|
        invariant Valid() && Model() == RunAll(s, reqs[..i])
        invariant InIrq && Pending == rest && OnTrack(self, rest, live)
        invariant !Serving.restarted ==> self.next == old(self.next)
        invariant forall j | 0 <= j < |rest| :: LeftAlone(rest[j])
      {
        RunNext(s, reqs, i);
        Request(reqs[i], self, rest, live);
        i := i + 1;
      }
      assert reqs[..i] == reqs;
      LinkWaits(self, rest, live);
    }

    /** A timer that was started again is linked to one that waits. */
    lemma LinkWaits(self: TimerEvent, rest: seq<TimerEvent>, live: TimerEvent?)
      requires Linked() && OnTrack(self, rest, live)
      ensures Serving.restarted ==> rest == [] && (self.next != null ==> self.next.timestamp > 0)
      ensures !Serving.restarted && live != null ==> live.timestamp > 0
    {
      if Serving.restarted {
        SpacedIndex(Entries, self);
      }
    }

    /** The scripts are what the timers of a batch ask for when served in order: nothing if they have no callback, else
        what `asks` says the k-th call does. */
    ghost predicate Answers(scripts: seq<seq<Step<TimerEvent>>>, batch: seq<TimerEvent>,
        asks: nat -> seq<Step<TimerEvent>>)
      reads batch`callback
    {
      && |scripts| == |batch|
      && forall k | 0 <= k < |batch| :: scripts[k] == if batch[k].callback == NoCallback then [] else asks(k)
    }

    lemma AnswersMatch(scripts: seq<seq<Step<TimerEvent>>>, batch: seq<TimerEvent>, asks: nat -> seq<Step<TimerEvent>>)
      requires Answers(scripts, batch, asks)
      ensures |scripts| == |batch|
    {
    }

    lemma AnswerAt(scripts: seq<seq<Step<TimerEvent>>>, batch: seq<TimerEvent>, asks: nat -> seq<Step<TimerEvent>>,
                   k: nat)
      requires Answers(scripts, batch, asks) && k < |batch|
      ensures |scripts| == |batch| && scripts[k] == if batch[k].callback == NoCallback then [] else asks(k)
    {
    }

    /** The unlinked batch, still chained: each node to the next, the last to the first timer that did not expire. */
    ghost predicate Chained(batch: seq<TimerEvent>, k: nat, live: TimerEvent?)
      reads this`Timers, this`Entries, batch
    {
      && (forall j | k <= j < |batch| :: batch[j] in Timers && Absent(Entries, batch[j]) && batch[j].timestamp == 0)
      && (forall j {:trigger batch[j].next} | k <= j < |batch| ::
            batch[j].next == if j + 1 < |batch| then batch[j + 1] else live)
    }

    /** The next timer of the batch is handed to its callback. */
    ghost method HandOver()
      requires Valid() && InIrq && Pending != []
      modifies this`Pending, this`Serving
      ensures Valid() && Model() == Do(old(Model()), Step.Call)
    {
      CallInv(Model());
      Serving := Serving.(self := Some(Pending[0]), restarted := false);
      Pending := Pending[1..];
    }

    /** One visit of the walk: the timer is handed to its callback, and its link leads on to the next of the batch, or
        after the last one to nothing the walk would still serve. */
    method Serve(self: TimerEvent, asks: seq<Step<TimerEvent>>, ghost script: seq<Step<TimerEvent>>,
                 ghost batch: seq<TimerEvent>, ghost k: nat, ghost live: TimerEvent?)
      requires Valid() && InIrq && k < |batch| && Pending == batch[k..] && self == batch[k] && Serving.live == Opt(live)
      requires Chained(batch, k, live)
      requires live != null ==> live in Timers && live !in batch && live.timestamp > 0
      requires script == if self.callback == NoCallback then [] else asks
      requires AllRequests(script, Timers) && AllEnabled(Do(Model(), Step.Call), script)
      modifies this`Entries, this`head, this`loopedThroughMain, this`armedAt, this`loaded, this`arms
      modifies this`Pending, this`Serving
      modifies Timers`timestamp, Timers`next, Timers`isRunning, Timers`reloadValue
      ensures Valid() && InIrq && Pending == batch[k + 1..] && Serving.live == Opt(live)
      ensures Model() == RunAll(Do(old(Model()), Step.Call), script)
      ensures Chained(batch, k + 1, live) && (live != null && k + 1 < |batch| ==> live.timestamp > 0)
      ensures if k + 1 < |batch| then self.next == batch[k + 1] && self.next.timestamp == 0
              else self.next != null ==> self.next.timestamp > 0
    {
      hide Inv;
      ghost var rest := batch[k + 1..];
      assert self.next == if k + 1 < |batch| then batch[k + 1] else live;
      HandOver();
      if self.callback != NoCallback {
        RunCallback(asks, self, rest, live);
      }
      forall j | k + 1 <= j < |batch|
        ensures Absent(Entries, batch[j]) && batch[j].next == old(batch[j].next) &&
                  batch[j].timestamp == old(batch[j].timestamp)
      {
        assert batch[j] == rest[j - k - 1];
      }
    }

    /** The walk that runs the callbacks: it visits exactly the unlinked batch, once each and in order. */
    method Walk(first: TimerEvent, asks: nat -> seq<Step<TimerEvent>>, ghost scripts: seq<seq<Step<TimerEvent>>>,
                ghost batch: seq<TimerEvent>, ghost live: TimerEvent?)
      returns (visited: seq<TimerEvent>)
      requires Valid() && InIrq && Pending == batch && Serving.live == Opt(live)
      requires batch != [] && first == batch[0] && first.timestamp == 0
      requires Chained(batch, 0, live)
      requires live != null ==> live in Timers && live !in batch && live.timestamp > 0
      requires Answers(scripts, batch, asks) && AllScripts(scripts, Timers)
      requires AllEnabled(Model(), WalkSteps(scripts, |scripts|))
      modifies this`Entries, this`head, this`loopedThroughMain, this`armedAt, this`loaded, this`arms
      modifies this`Pending, this`Serving
      modifies Timers`timestamp, Timers`next, Timers`isRunning, Timers`reloadValue
      ensures Valid() && Pending == []
      ensures visited == batch
      ensures Model() == RunAll(old(Model()), WalkSteps(scripts, |scripts|))
    {
      hide Valid, RunAll, AllEnabled, Chained, Do, WalkSteps, Answers;
      visited := [];
      var elapsedTimer: TimerEvent? := first;
      ghost var k, s := 0, Model();
      WalkNone(s, scripts);
      AnswersMatch(scripts, batch, asks);
      while elapsedTimer != null && elapsedTimer.timestamp == 0
        invariant 0 <= k <= |batch| && |visited| == k
        invariant forall j | 0 <= j < k :: visited[j] == batch[j]
        invariant Valid() && InIrq && Pending == batch[k..] && Serving.live == Opt(live)
        invariant Model() == RunAll(s, WalkSteps(scripts, k))
        invariant k < |batch| ==> elapsedTimer == batch[k] && batch[k].timestamp == 0
        invariant k == |batch| && elapsedTimer != null ==> elapsedTimer.timestamp > 0
        invariant Chained(batch, k, live)
        invariant live != null && k < |batch| ==> live.timestamp > 0
        decreases |batch| - k
      {
        AnswerAt(scripts, batch, asks, k);
        WalkPrefix(s, scripts, k + 1, |scripts|);
        WalkNext(s, scripts, k);
        var self: TimerEvent := elapsedTimer;
        visited := visited + [self];
        Serve(self, asks(|visited| - 1), scripts[k], batch, k, live);
        elapsedTimer := elapsedTimer.next;
        k := k + 1;
      }
    }

    /** The first part of TimerIrqHandler: brings the head's timestamp up to date, clamped at zero. */
    method Settle()
      requires Valid() && !InIrq && head != null
      modifies this`Entries, head`timestamp
      ensures Linked() && Entries == old(Settled(Model()))
    {
      var elapsedTime := GetValue();
      if elapsedTime > head.timestamp {
        SetDelta(head, 0, 0);
      } else {
        SetDelta(head, Sub32(head.timestamp, elapsedTime), 0);
      }
    }

    /** The first loop of TimerIrqHandler: unlinks the timers that have nothing left to wait for. */
    method UnlinkExpired() returns (ghost n: nat)
      requires Linked() && head != null
      modifies this`Entries, this`head
      ensures Linked() && n == Expired(old(Entries)) && Entries == old(Entries)[n..]
      ensures n > 0 && head != null ==> !head.isRunning
      ensures Chained(TimersOf(old(Entries)[..n]), 0, if n < |old(Entries)| then old(Entries)[n].timer else null)
    {
      ghost var l := Entries;
      n := 0;
      while head != null && head.timestamp == 0
        invariant 0 <= n <= |l| && Linked() && Entries == l[n..]
        invariant forall i | 0 <= i < n :: l[i].delta == 0
        invariant n > 0 && head != null ==> !head.isRunning
        decreases |l| - n
        modifies this`Entries, this`head
      {
        assert Entries[0] == l[n];
        PopHead();
        n := n + 1;
      }
      if n < |l| {
        assert Entries[0] == l[n];
      }
      DistinctIndex(l);
      forall j | 0 <= j < n ensures Absent(Entries, l[j].timer) {
        assert forall i | 0 <= i < |Entries| :: Entries[i] == l[n + i];
      }
      assert forall j {:trigger l[j].timer.next} | 0 <= j < n :: l[j].timer.next == After(old(Entries), j);
    }

    /** TimerIrqHandler up to the walk. */
    method Expire(ghost s: State<TimerEvent>) returns (elapsedTimer: TimerEvent, ghost n: nat)
      requires Valid() && !InIrq && head != null && s == Model()
      modifies this`Entries, this`head, head`timestamp
      ensures Linked() && n == Expired(Settled(s))
      ensures elapsedTimer == Settled(s)[0].timer && elapsedTimer.timestamp == Settled(s)[0].delta
      ensures Model() == s.(timers := Settled(s)[n..], running := n == 0)
      ensures Chained(Batch(s), 0, FirstLive(s))
    {
      Settle();
      elapsedTimer := head;
      n := UnlinkExpired();
    }

    /** The handler takes responsibility for what it unlinked. */
    ghost method BeginServing(s: State<TimerEvent>, n: nat)
      requires Linked() && Inv(s) && !s.inIrq && s.timers != [] && n == Expired(Settled(s)) > 0
      requires Model() == s.(timers := Settled(s)[n..], running := false)
      modifies this`InIrq, this`Pending, this`Serving
      ensures Valid() && Model() == DoIrqBegin(s) && Serving.live == Opt(FirstLive(s))
    {
      hide Inv;
      IrqBeginInv(s);
      InIrq := true;
      Pending, Serving := Batch(s), Service(None, First(Entries), false);
    }

    /** The first timer that did not expire is none of those that did. */
    lemma LiveApart(s: State<TimerEvent>)
      requires Distinct(s.timers)
      ensures FirstLive(s) != null ==> FirstLive(s) !in Batch(s)
    {
      var l := Settled(s);
      var n := Expired(l);
      if n < |l| {
        SettledListed(s, l[n].timer);
        Apart(l, n);
      }
    }

    /** TimerIrqHandler from the walk on: runs the callbacks of what expired, if anything did. */
    method ServeExpired(elapsedTimer: TimerEvent, asks: nat -> seq<Step<TimerEvent>>,
                        ghost scripts: seq<seq<Step<TimerEvent>>>, ghost s: State<TimerEvent>, ghost n: nat)
      returns (visited: seq<TimerEvent>)
      requires Linked() && Inv(s) && !s.inIrq && s.timers != [] && n == Expired(Settled(s))
      requires elapsedTimer == Settled(s)[0].timer && elapsedTimer.timestamp == Settled(s)[0].delta
      requires Model() == s.(timers := Settled(s)[n..], running := n == 0)
      requires Chained(Batch(s), 0, FirstLive(s))
      requires Answers(scripts, Batch(s), asks) && AllScripts(scripts, Timers) && AllEnabled(s, IrqSteps(scripts))
      modifies this`Entries, this`head, this`loopedThroughMain, this`armedAt, this`loaded, this`arms
      modifies this`InIrq, this`Pending, this`Serving
      modifies Timers`timestamp, Timers`next, Timers`isRunning, Timers`reloadValue
      ensures Linked() && visited == Batch(s)
      ensures Inv(DoIrqEnd(Model())) && DoIrqEnd(Model()) == RunAll(s, IrqSteps(scripts))
    {
      hide RunAll, AllEnabled, IrqSteps, WalkSteps, Settled;
      IrqRuns(s, scripts);
      visited := [];
      if elapsedTimer.timestamp == 0 {
        LiveApart(s);
        BeginServing(s, n);
        visited := Walk(elapsedTimer, asks, scripts, Batch(s), FirstLive(s));
        IrqEndInv(Model());
      } else {
        EarlyRearms(s);
      }
    }

    /** An interrupt that comes too early only arms the hardware again. */
    lemma EarlyRearms(s: State<TimerEvent>)
      requires Inv(s) && !s.inIrq && s.timers != [] && Expired(Settled(s)) == 0
      ensures DoIrqEnd(s.(timers := Settled(s)[0..], running := true)) == DoIrqBegin(s) && Inv(DoIrqBegin(s))
    {
      IrqBeginInv(s);
      assert Settled(s)[0..] == Settled(s);
    }

    /** The last part of TimerIrqHandler. */
    method Rearm()
      requires Linked()
      modifies (if head == null then {} else {head})`isRunning
      modifies this`loopedThroughMain, this`armedAt, this`loaded, this`arms, this`InIrq, this`Serving
      ensures Linked() && Programmed() && Model() == DoIrqEnd(old(Model()))
    {
      if head != null {
        ArmHead();
      }
      InIrq, Serving := false, Service(None, None, false);
    }

    /** TimerIrqHandler. `asks` says what the k-th callback of this interrupt does, and `scripts` is what that comes
        to for the timers that are due. */
    method IrqHandler(asks: nat -> seq<Step<TimerEvent>>, ghost scripts: seq<seq<Step<TimerEvent>>>)
      returns (visited: seq<TimerEvent>)
      requires Valid() && !InIrq
      requires Answers(scripts, Batch(Model()), asks)
      requires AllScripts(scripts, Timers) && AllEnabled(Model(), IrqSteps(scripts))
      modifies this`Entries, this`head, this`loopedThroughMain, this`armedAt, this`loaded, this`arms
      modifies this`InIrq, this`Pending, this`Serving
      modifies Timers`timestamp, Timers`next, Timers`isRunning, Timers`reloadValue
      ensures Valid() && !InIrq
      ensures visited == Batch(old(Model()))
      ensures Model() == RunAll(old(Model()), IrqSteps(scripts))
    {
      hide RunAll, AllEnabled, IrqSteps, WalkSteps, Inv;
      ghost var s := Model();
      if head == null {
        IrqRuns(s, scripts);
        return [];
      }
      var elapsedTimer, n := Expire(s);
      visited := ServeExpired(elapsedTimer, asks, scripts, s, n);
      Rearm();
    }
  }
}
