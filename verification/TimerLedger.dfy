/** What the timer server is for, without deltas: a stable priority queue of jobs.

    A job is one start of one timer.  Its place in the queue is fixed when it starts, by a key that never changes:
    the instant it was started plus its timeout, corrected by the drift the queue had gathered by then.  Drift is
    common to all jobs.  It grows by one on every tick that passes while the head is already due (`late`), and
    shrinks when arming the hardware swallows part of the head's delta (`lost`, always 0 on an exact counter).

    The ledger also records what became of every start, so that statements about whole runs can be made.  The
    refinement says that the delta list of TimerModel always represents the ledger's queue. */
module TimerLedger {
  import opened TimerModel

  datatype Job<T> = Job(timer: T, serial: nat, startedAt: nat, reload: nat, late0: nat, lost0: nat) {
    function Key(): int { startedAt + reload - late0 + lost0 }
  }

  /** A callback: which job it served, when, and the ledger's late and lost totals at that instant. */
  datatype Served<T> = Served(job: Job<T>, at: nat, late: nat, lost: nat)

  /** `calls` holds every expiry in order; the first `ran` of them have had their callback run. */
  datatype Ledger<T> = Ledger(
    now: nat, jobs: seq<Job<T>>, calls: seq<Served<T>>, ran: nat,
    stopped: seq<Job<T>>, started: seq<Job<T>>, late: nat, lost: nat)
  {
    /** Keys are compared with this instant: a job is due when its key has been reached. */
    function Origin(): int { now - late + lost }

    /** When the job would be served if no tick were late and nothing were lost from now on. */
    function Due(job: Job<T>): int { job.Key() + late - lost }

    /** Every job that was served or still waits, in that order. */
    function Trail(): (r: seq<Job<T>>)
      ensures |r| == |calls| + |jobs|
      ensures forall i | 0 <= i < |calls| :: r[i] == calls[i].job
      ensures forall i | |calls| <= i < |r| :: r[i] == jobs[i - |calls|]
    {
      JobsOf(calls) + jobs
    }
  }

  function JobsOf<T>(calls: seq<Served<T>>): (r: seq<Job<T>>)
    ensures |r| == |calls|
    ensures forall i | 0 <= i < |r| :: r[i] == calls[i].job
  {
    if calls == [] then [] else [calls[0].job] + JobsOf(calls[1..])
  }

  function ServeAll<T>(jobs: seq<Job<T>>, at: nat, late: nat, lost: nat): (r: seq<Served<T>>)
    ensures |r| == |jobs|
    ensures forall i | 0 <= i < |r| :: r[i] == Served(jobs[i], at, late, lost)
  {
    if jobs == [] then [] else [Served(jobs[0], at, late, lost)] + ServeAll(jobs[1..], at, late, lost)
  }

  // ---------------------------------------------------------------- the queue

  predicate HasJob<T(==)>(jobs: seq<Job<T>>, x: T) {
    jobs != [] && (jobs[0].timer == x || HasJob(jobs[1..], x))
  }

  /** Stable insertion: behind every job whose key is not larger. */
  function Enqueue<T>(jobs: seq<Job<T>>, job: Job<T>): seq<Job<T>> {
    if jobs == [] || job.Key() < jobs[0].Key() then [job] + jobs else [jobs[0]] + Enqueue(jobs[1..], job)
  }

  function Dequeue<T(==)>(jobs: seq<Job<T>>, x: T): seq<Job<T>> {
    if jobs == [] then [] else if jobs[0].timer == x then jobs[1..] else [jobs[0]] + Dequeue(jobs[1..], x)
  }

  function Lookup<T(==)>(jobs: seq<Job<T>>, x: T): Job<T>
    requires HasJob(jobs, x)
  {
    if jobs[0].timer == x then jobs[0] else Lookup(jobs[1..], x)
  }

  /** How many jobs at the front have a key that has been reached. */
  function Reached<T>(jobs: seq<Job<T>>, origin: int): (n: nat)
    ensures n <= |jobs|
    ensures forall i | 0 <= i < n :: jobs[i].Key() <= origin
    ensures n < |jobs| ==> origin < jobs[n].Key()
  {
    if jobs == [] || origin < jobs[0].Key() then 0 else 1 + Reached(jobs[1..], origin)
  }

  /** One step of the ledger.  `timeout` is the started timer's reload value and `loss` what arming swallowed. */
  function Record<T(==)>(w: Ledger<T>, step: Step<T>, timeout: nat, loss: nat): Ledger<T> {
    match step
    case Tick =>
      w.(now := w.now + 1, late := if w.jobs != [] && w.jobs[0].Key() <= w.Origin() then w.late + 1 else w.late)
    case Start(x) =>
      if HasJob(w.jobs, x) then w
      else
        var job := Job(x, |w.started|, w.now, timeout, w.late, w.lost);
        w.(jobs := Enqueue(w.jobs, job), started := w.started + [job], lost := w.lost + loss)
    case Stop(x) => Cancel(w, x, loss)
    case Store(_, _) => w
    case IrqBegin =>
      var n := Reached(w.jobs, w.Origin());
      w.(jobs := w.jobs[n..], calls := w.calls + ServeAll(w.jobs[..n], w.now, w.late, w.lost), lost := w.lost + loss)
    case Init(_) => w
    case Call => w.(ran := w.ran + 1)
    case IrqEnd => w.(lost := w.lost + loss)
    case PassTest => w
    case PassLoad => w
    case PassAct => w
  }

  function Cancel<T(==)>(w: Ledger<T>, x: T, loss: nat): Ledger<T> {
    if !HasJob(w.jobs, x) then w
    else w.(jobs := Dequeue(w.jobs, x), stopped := w.stopped + [Lookup(w.jobs, x)], lost := w.lost + loss)
  }

  // ---------------------------------------------------------------- order, accounting and exactness

  predicate Before<T>(a: Job<T>, b: Job<T>) {
    a.Key() < b.Key() || (a.Key() == b.Key() && a.serial < b.serial)
  }

  ghost predicate Ordered<T>(jobs: seq<Job<T>>) {
    forall i, k | 0 <= i < k < |jobs| :: Before(jobs[i], jobs[k])
  }

  /** Everything served or waiting is in key order, and nothing served had a key still to be reached. */
  ghost predicate InOrder<T>(w: Ledger<T>) {
    && Ordered(w.Trail())
    && forall i | 0 <= i < |w.calls| :: w.calls[i].job.Key() <= w.Origin()
  }

  /** Every start is in exactly one place: served, being served, waiting or stopped. */
  ghost predicate Accounted<T>(w: Ledger<T>) {
    && multiset(w.started) == multiset(w.Trail()) + multiset(w.stopped)
    && forall i | 0 <= i < |w.started| :: w.started[i].serial == i
  }

  predicate Aged<T>(w: Ledger<T>, job: Job<T>) {
    job.startedAt <= w.now && job.late0 <= w.late && job.lost0 <= w.lost && job.serial < |w.started|
  }

  /** Served at its due time, which is the start plus the timeout plus the late ticks less the losses since. */
  predicate Exact<T>(c: Served<T>) {
    && c.job.startedAt <= c.at && c.job.late0 <= c.late && c.job.lost0 <= c.lost
    && c.at == c.job.startedAt + c.job.reload + (c.late - c.job.late0) - (c.lost - c.job.lost0)
  }

  predicate Closed<T>(w: Ledger<T>, c: Served<T>) {
    Exact(c) && c.at <= w.now && c.late <= w.late && c.lost <= w.lost && c.job.serial < |w.started|
  }

  ghost predicate Dated<T>(w: Ledger<T>) {
    && (forall i | 0 <= i < |w.jobs| :: Aged(w, w.jobs[i]))
    && (forall i | 0 <= i < |w.calls| :: Closed(w, w.calls[i]))
  }

  // ---------------------------------------------------------------- lemmas about the queue

  lemma {:induction false} EnqueueAt<T>(jobs: seq<Job<T>>, job: Job<T>) returns (k: nat)
    ensures k <= |jobs|
    ensures Enqueue(jobs, job) == jobs[..k] + [job] + jobs[k..]
    ensures forall i | 0 <= i < k :: jobs[i].Key() <= job.Key()
    ensures k < |jobs| ==> job.Key() < jobs[k].Key()
  {
    if jobs == [] || job.Key() < jobs[0].Key() {
      k := 0;
    } else {
      var j := EnqueueAt(jobs[1..], job);
      k := j + 1;
      assert jobs[..k] == [jobs[0]] + jobs[1..][..j];
      assert jobs[k..] == jobs[1..][j..];
    }
  }

  lemma {:induction false} DequeueAt<T>(jobs: seq<Job<T>>, x: T) returns (k: nat)
    requires HasJob(jobs, x)
    ensures k < |jobs| && jobs[k].timer == x && Lookup(jobs, x) == jobs[k]
    ensures Dequeue(jobs, x) == jobs[..k] + jobs[k + 1..]
  {
    if jobs[0].timer == x {
      k := 0;
    } else {
      var j := DequeueAt(jobs[1..], x);
      k := j + 1;
      assert jobs[..k] == [jobs[0]] + jobs[1..][..j];
      assert jobs[k + 1..] == jobs[1..][j + 1..];
    }
  }

  lemma InsertOrdered<T>(trail: seq<Job<T>>, k: nat, job: Job<T>)
    requires Ordered(trail) && k <= |trail|
    requires forall i | 0 <= i < |trail| :: trail[i].serial < job.serial
    requires forall i | 0 <= i < k :: trail[i].Key() <= job.Key()
    requires k < |trail| ==> job.Key() < trail[k].Key()
    ensures Ordered(trail[..k] + [job] + trail[k..])
  {
  }

  lemma DeleteOrdered<T>(trail: seq<Job<T>>, k: nat)
    requires Ordered(trail) && k < |trail|
    ensures Ordered(trail[..k] + trail[k + 1..])
  {
  }

  lemma MultisetDelete<T>(s: seq<Job<T>>, k: nat)
    requires k < |s|
    ensures multiset(s) == multiset(s[..k] + s[k + 1..]) + multiset{s[k]}
  {
    assert s == s[..k] + [s[k]] + s[k + 1..];
  }

  lemma MultisetInsert<T>(s: seq<Job<T>>, k: nat, job: Job<T>)
    requires k <= |s|
    ensures multiset(s[..k] + [job] + s[k..]) == multiset(s) + multiset{job}
  {
    assert s == s[..k] + s[k..];
  }

  // ---------------------------------------------------------------- the ledger keeps its books

  /** The trail with one more job put in where stable insertion puts it. */
  lemma TrailInsert<T>(w: Ledger<T>, job: Job<T>, k: nat, jobs: seq<Job<T>>)
    requires k <= |w.jobs| && jobs == w.jobs[..k] + [job] + w.jobs[k..]
    ensures w.(jobs := jobs).Trail() == w.Trail()[..|w.calls| + k] + [job] + w.Trail()[|w.calls| + k..]
  {
  }

  lemma StartOrdered<T>(w: Ledger<T>, x: T, timeout: nat, loss: nat)
    requires InOrder(w) && Dated(w)
    ensures InOrder(Record(w, Start(x), timeout, loss))
  {
    hide Enqueue, Accounted;
    if !HasJob(w.jobs, x) {
      var v := Record(w, Start(x), timeout, loss);
      var job, n, t := Job(x, |w.started|, w.now, timeout, w.late, w.lost), |w.calls|, w.Trail();
      var k := EnqueueAt(w.jobs, job);
      TrailInsert(w, job, k, v.jobs);
      InsertOrdered(t, n + k, job);
    }
  }

  lemma StartAccounted<T>(w: Ledger<T>, x: T, timeout: nat, loss: nat)
    requires Accounted(w)
    ensures Accounted(Record(w, Start(x), timeout, loss))
  {
    if !HasJob(w.jobs, x) {
      var v := Record(w, Start(x), timeout, loss);
      var job := Job(x, |w.started|, w.now, timeout, w.late, w.lost);
      var k := EnqueueAt(w.jobs, job);
      MultisetInsert(w.jobs, k, job);
      assert multiset(v.Trail()) == multiset(w.Trail()) + multiset{job};
      assert multiset(v.started) == multiset(w.started) + multiset{job};
    }
  }

  lemma StartDated<T>(w: Ledger<T>, x: T, timeout: nat, loss: nat)
    requires Dated(w)
    ensures Dated(Record(w, Start(x), timeout, loss))
  {
    if !HasJob(w.jobs, x) {
      var job := Job(x, |w.started|, w.now, timeout, w.late, w.lost);
      var k := EnqueueAt(w.jobs, job);
    }
  }

  lemma CancelOrdered<T>(w: Ledger<T>, x: T, loss: nat)
    requires InOrder(w)
    ensures InOrder(Cancel(w, x, loss))
  {
    if HasJob(w.jobs, x) {
      var v, n, t := Cancel(w, x, loss), |w.calls|, w.Trail();
      var k := DequeueAt(w.jobs, x);
      assert v.Trail() == t[..n + k] + t[n + k + 1..];
      DeleteOrdered(t, n + k);
    }
  }

  lemma CancelAccounted<T>(w: Ledger<T>, x: T, loss: nat)
    requires Accounted(w)
    ensures Accounted(Cancel(w, x, loss))
  {
    if HasJob(w.jobs, x) {
      var k := DequeueAt(w.jobs, x);
      MultisetDelete(w.jobs, k);
    }
  }

  lemma CancelDated<T>(w: Ledger<T>, x: T, loss: nat)
    requires Dated(w)
    ensures Dated(Cancel(w, x, loss))
  {
    if HasJob(w.jobs, x) {
      var k := DequeueAt(w.jobs, x);
    }
  }

  /** The front of the queue joins the calls; nothing changes its place on the trail. */
  lemma IrqTrail<T>(w: Ledger<T>, loss: nat)
    ensures Record(w, IrqBegin, 0, loss).Trail() == w.Trail()
  {
  }

  /** Jobs expire exactly when their key is reached, provided no key was passed over. */
  lemma IrqExact<T>(w: Ledger<T>, loss: nat)
    requires Ordered(w.jobs) && Dated(w)
    requires w.jobs != [] ==> w.Origin() <= w.jobs[0].Key()
    ensures Dated(Record(w, IrqBegin, 0, loss))
  {
    var n := Reached(w.jobs, w.Origin());
    forall i | 0 <= i < n ensures Exact(Served(w.jobs[i], w.now, w.late, w.lost)) {
      if i > 0 {
        assert Before(w.jobs[0], w.jobs[i]);
      }
    }
  }

  lemma JobsOrdered<T>(w: Ledger<T>)
    requires InOrder(w)
    ensures Ordered(w.jobs)
  {
    forall i, k | 0 <= i < k < |w.jobs| ensures Before(w.jobs[i], w.jobs[k]) {
      assert Before(w.Trail()[|w.calls| + i], w.Trail()[|w.calls| + k]);
    }
  }

  lemma RecordOrdered<T>(w: Ledger<T>, step: Step<T>, timeout: nat, loss: nat)
    requires InOrder(w) && Dated(w)
    ensures InOrder(Record(w, step, timeout, loss))
  {
    match step
    case Start(x) => StartOrdered(w, x, timeout, loss);
    case Stop(x) => CancelOrdered(w, x, loss);
    case IrqBegin => IrqTrail(w, loss);
    case _ => assert Record(w, step, timeout, loss).Trail() == w.Trail();
  }

  lemma RecordAccounted<T>(w: Ledger<T>, step: Step<T>, timeout: nat, loss: nat)
    requires Accounted(w)
    ensures Accounted(Record(w, step, timeout, loss))
  {
    match step
    case Start(x) => StartAccounted(w, x, timeout, loss);
    case Stop(x) => CancelAccounted(w, x, loss);
    case IrqBegin => IrqTrail(w, loss);
    case _ => assert Record(w, step, timeout, loss).Trail() == w.Trail();
  }

  lemma RecordDated<T>(w: Ledger<T>, step: Step<T>, timeout: nat, loss: nat)
    requires InOrder(w) && Dated(w)
    requires w.jobs != [] ==> w.Origin() <= w.jobs[0].Key()
    ensures Dated(Record(w, step, timeout, loss))
  {
    match step
    case Start(x) => StartDated(w, x, timeout, loss);
    case Stop(x) => CancelDated(w, x, loss);
    case IrqBegin =>
      JobsOrdered(w);
      IrqExact(w, loss);
    case _ =>
  }
}
