/** Sequences of steps: the state after them, whether each was enabled when it was taken, and the steps that one run of
    the interrupt handler consists of. */
module TimerSteps {
  import opened TimerModel

  /** State after a sequence of steps. */
  function RunAll<T(==)>(s: State<T>, steps: seq<Step<T>>): State<T> {
    if steps == [] then s else Do(RunAll(s, steps[..|steps| - 1]), steps[|steps| - 1])
  }

  /** Every step of the sequence is enabled when its turn comes. */
  predicate AllEnabled<T(==)>(s: State<T>, steps: seq<Step<T>>) {
    steps != [] ==>
      && AllEnabled(s, steps[..|steps| - 1])
      && Enabled(RunAll(s, steps[..|steps| - 1]), steps[|steps| - 1])
  }

  lemma {:induction false} RunAllConcat<T>(s: State<T>, a: seq<Step<T>>, b: seq<Step<T>>)
    ensures RunAll(s, a + b) == RunAll(RunAll(s, a), b)
    ensures AllEnabled(s, a + b) <==> AllEnabled(s, a) && AllEnabled(RunAll(s, a), b)
  {
    if b == [] {
      assert a + b == a;
    } else {
      RunAllConcat(s, a, b[..|b| - 1]);
      assert (a + b)[..|a + b| - 1] == a + b[..|b| - 1];
    }
  }

  lemma RunNone<T>(s: State<T>)
    ensures RunAll(s, []) == s && AllEnabled(s, [])
  {
  }

  lemma RunOne<T>(s: State<T>, step: Step<T>)
    ensures RunAll(s, [step]) == Do(s, step)
    ensures AllEnabled(s, [step]) <==> Enabled(s, step)
  {
    assert [step][..0] == [];
  }

  /** One more step of a sequence that is enabled throughout. */
  lemma RunNext<T>(s: State<T>, steps: seq<Step<T>>, i: nat)
    requires i < |steps| && AllEnabled(s, steps)
    ensures Enabled(RunAll(s, steps[..i]), steps[i])
    ensures RunAll(s, steps[..i + 1]) == Do(RunAll(s, steps[..i]), steps[i])
  {
    assert steps[..i + 1][..i] == steps[..i];
    assert steps == steps[..i + 1] + steps[i + 1..];
    RunAllConcat(s, steps[..i + 1], steps[i + 1..]);
  }

  /** The steps of the first n visits of a walk whose k-th callback makes the requests scripts[k]. */
  function WalkSteps<T>(scripts: seq<seq<Step<T>>>, n: nat): seq<Step<T>>
    requires n <= |scripts|
  {
    if n == 0 then [] else WalkSteps(scripts, n - 1) + [Step.Call] + scripts[n - 1]
  }

  lemma WalkNone<T>(s: State<T>, scripts: seq<seq<Step<T>>>)
    ensures RunAll(s, WalkSteps(scripts, 0)) == s
  {
  }

  /** One more visit of a walk. */
  lemma WalkNext<T>(s: State<T>, scripts: seq<seq<Step<T>>>, k: nat)
    requires k < |scripts|
    ensures var m := RunAll(s, WalkSteps(scripts, k));
            && RunAll(s, WalkSteps(scripts, k + 1)) == RunAll(Do(m, Step.Call), scripts[k])
            && (AllEnabled(s, WalkSteps(scripts, k + 1)) <==>
                  && AllEnabled(s, WalkSteps(scripts, k))
                  && Enabled(m, Step.Call) && AllEnabled(Do(m, Step.Call), scripts[k]))
  {
    var before := WalkSteps(scripts, k);
    RunAllConcat(s, before, [Step.Call]);
    RunOne(RunAll(s, before), Step.Call);
    RunAllConcat(s, before + [Step.Call], scripts[k]);
  }

  /** A walk that is enabled throughout is so up to any visit. */
  lemma {:induction false} WalkPrefix<T>(s: State<T>, scripts: seq<seq<Step<T>>>, k: nat, n: nat)
    requires k <= n <= |scripts| && AllEnabled(s, WalkSteps(scripts, n))
    ensures AllEnabled(s, WalkSteps(scripts, k))
  {
    hide AllEnabled, RunAll, WalkSteps, Enabled, Do;
    if k < n {
      WalkNext(s, scripts, n - 1);
      WalkPrefix(s, scripts, k, n - 1);
    }
  }

  /** The steps of one run of the interrupt handler. */
  function IrqSteps<T>(scripts: seq<seq<Step<T>>>): seq<Step<T>> {
    if scripts == [] then [Step.IrqBegin]
    else [Step.IrqBegin] + WalkSteps(scripts, |scripts|) + [Step.IrqEnd]
  }

  lemma IrqRuns<T>(s: State<T>, scripts: seq<seq<Step<T>>>)
    ensures scripts == [] ==>
              && RunAll(s, IrqSteps(scripts)) == Do(s, Step.IrqBegin)
              && (AllEnabled(s, IrqSteps(scripts)) <==> Enabled(s, Step.IrqBegin))
    ensures scripts != [] ==>
              var b := Do(s, Step.IrqBegin);
              var m := RunAll(b, WalkSteps(scripts, |scripts|));
              && RunAll(s, IrqSteps(scripts)) == Do(m, Step.IrqEnd)
              && (AllEnabled(s, IrqSteps(scripts)) <==>
                  Enabled(s, Step.IrqBegin) && AllEnabled(b, WalkSteps(scripts, |scripts|)) && Enabled(m, Step.IrqEnd))
  {
    var walk := WalkSteps(scripts, |scripts|);
    RunOne(s, Step.IrqBegin);
    if scripts != [] {
      RunAllConcat(s, [Step.IrqBegin], walk);
      RunAllConcat(s, [Step.IrqBegin] + walk, [Step.IrqEnd]);
      RunOne(RunAll(s, [Step.IrqBegin] + walk), Step.IrqEnd);
    }
  }

  /** The timers an interrupt expires. */
  function Batch<T>(s: State<T>): seq<T> {
    TimersOf(Settled(s)[..Expired(Settled(s))])
  }

  /** The requests of the API, as against steps of the environment. */
  predicate IsRequest<T>(r: Step<T>) {
    r.Start? || r.Stop? || r.Store?
  }

  /** Requests about timers of a given set. */
  predicate AllRequests<T(==)>(reqs: seq<Step<T>>, timers: set<T>) {
    forall i | 0 <= i < |reqs| :: IsRequest(reqs[i]) && reqs[i].timer in timers
  }

  predicate AllScripts<T(==)>(scripts: seq<seq<Step<T>>>, timers: set<T>) {
    forall k | 0 <= k < |scripts| :: AllRequests(scripts[k], timers)
  }
}
