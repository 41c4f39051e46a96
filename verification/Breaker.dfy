/** The circuit breaker and the requests it admits (mentatd/src/server.rs). */
module Breaker {
  import opened Prelude

  // ---- The object ----

  datatype Gauge = Gauge(count: nat, lastReset: nat)

  function AfterReset(g: Gauge, now: nat, window: nat): Gauge {
    if Elapsed(now, g.lastReset) > window then Gauge(0, now) else g
  }

  class CircuitBreaker {
    const threshold: nat
    const window: nat
    var errorCount: nat
    var lastReset: nat

    ghost function View(): Gauge
      reads this
    {
      Gauge(errorCount, lastReset)
    }

    constructor (threshold: nat, window: nat, now: nat)
      ensures this.threshold == threshold && this.window == window && View() == Gauge(0, now)
    {
      this.threshold, this.window, errorCount, lastReset := threshold, window, 0, now;
    }

    method MaybeReset(now: nat)
      modifies this
      ensures View() == AfterReset(old(View()), now, window)
      ensures now <= old(lastReset) + window ==> View() == old(View())
      ensures now > old(lastReset) + window ==> View() == Gauge(0, now)
    {
      if Elapsed(now, lastReset) > window {
        errorCount, lastReset := 0, now;
      }
    }

    method RecordError(now: nat) returns (count: nat)
      modifies this
      ensures var g := AfterReset(old(View()), now, window); View() == g.(count := g.count + 1)
      ensures count == errorCount
    {
      MaybeReset(now);
      errorCount := errorCount + 1;
      return errorCount;
    }

    /** Rejects exactly while more errors than the threshold lie in a window that has not elapsed. */
    method ShouldReject(now: nat) returns (reject: bool)
      modifies this
      ensures View() == AfterReset(old(View()), now, window)
      ensures reject <==> old(errorCount) > threshold && Elapsed(now, old(lastReset)) <= window
      ensures Elapsed(now, old(lastReset)) > window ==> !reject && errorCount == 0 && lastReset == now
      ensures now <= old(lastReset) + window ==> lastReset == old(lastReset)
    {
      MaybeReset(now);
      return errorCount > threshold;
    }
  }

  // ---- Requests in flight ----

  /** A request is checked in two accesses and records its error in two. */
  datatype Phase = Arrived | Checked | Running | Failed | Recording

  datatype State = State(gauge: Gauge, clock: nat, requests: map<nat, Phase>)

  datatype Step =
    | Tick(elapsed: nat)
    | Arrive(id: nat)
    | ResetForCheck(id: nat)
    | Decide(id: nat)
    | Succeed(id: nat)
    | Fail(id: nat)
    | ResetForRecord(id: nat)
    | Record(id: nat)

  predicate At(s: State, id: nat, p: Phase) {
    id in s.requests && s.requests[id] == p
  }

  function Apply(s: State, threshold: nat, window: nat, step: Step): State {
    match step
    case Tick(n) => s.(clock := s.clock + n)
    case Arrive(id) => if id in s.requests then s else s.(requests := s.requests[id := Arrived])
    case ResetForCheck(id) =>
      if At(s, id, Arrived)
      then s.(gauge := AfterReset(s.gauge, s.clock, window), requests := s.requests[id := Checked]) else s
    case Decide(id) =>
      if !At(s, id, Checked) then s
      else if s.gauge.count > threshold then s.(requests := s.requests - {id})
      else s.(requests := s.requests[id := Running])
    case Succeed(id) => if At(s, id, Running) then s.(requests := s.requests - {id}) else s
    case Fail(id) => if At(s, id, Running) then s.(requests := s.requests[id := Failed]) else s
    case ResetForRecord(id) =>
      if At(s, id, Failed)
      then s.(gauge := AfterReset(s.gauge, s.clock, window), requests := s.requests[id := Recording]) else s
    case Record(id) =>
      if At(s, id, Recording)
      then s.(gauge := s.gauge.(count := s.gauge.count + 1), requests := s.requests - {id}) else s
  }

  predicate Admitted(p: Phase) {
    p.Running? || p.Failed? || p.Recording?
  }

  /** Admitted and not yet finished. */
  function InFlight(s: State): set<nat> {
    AdmittedOf(s.requests)
  }

  function AdmittedOf(requests: map<nat, Phase>): set<nat> {
    set id | id in requests && Admitted(requests[id])
  }

  lemma Moved(requests: map<nat, Phase>, id: nat, p: Phase)
    requires id in requests ==> Admitted(requests[id]) == Admitted(p)
    requires id !in requests ==> !Admitted(p)
    ensures AdmittedOf(requests[id := p]) == AdmittedOf(requests)
  {
  }

  lemma Left(requests: map<nat, Phase>, id: nat)
    requires id in requests
    ensures |AdmittedOf(requests - {id})| == |AdmittedOf(requests)| - if Admitted(requests[id]) then 1 else 0
  {
    var before, after := AdmittedOf(requests), AdmittedOf(requests - {id});
    assert after == before - {id};
  }

  ghost predicate IsRun(states: seq<State>, steps: seq<Step>, threshold: nat, window: nat) {
    && |states| == |steps| + 1 && states[0].gauge.count == 0 && states[0].requests == map[]
    && forall k :: 0 <= k < |steps| ==> states[k + 1] == Apply(states[k], threshold, window, steps[k])
  }

  lemma StepBounded(s: State, threshold: nat, window: nat, step: Step, k: nat)
    requires s.gauge.count + |InFlight(s)| <= threshold + k
    requires |InFlight(s)| <= k && |InFlight(Apply(s, threshold, window, step))| <= k
    ensures var s' := Apply(s, threshold, window, step); s'.gauge.count + |InFlight(s')| <= threshold + k
  {
    match step
    case Tick(_) =>
    case Arrive(id) =>
      if id !in s.requests {
        Moved(s.requests, id, Arrived);
      }
    case ResetForCheck(id) =>
      if At(s, id, Arrived) {
        Moved(s.requests, id, Checked);
      }
    case Decide(id) =>
      if At(s, id, Checked) {
        Left(s.requests, id);
      }
    case Succeed(id) =>
      if At(s, id, Running) {
        Left(s.requests, id);
      }
    case Fail(id) =>
      if At(s, id, Running) {
        Moved(s.requests, id, Failed);
      }
    case ResetForRecord(id) =>
      if At(s, id, Failed) {
        Moved(s.requests, id, Recording);
      }
    case Record(id) =>
      if At(s, id, Recording) {
        Left(s.requests, id);
      }
  }

  lemma {:induction false} RunBounded(states: seq<State>, steps: seq<Step>, threshold: nat, window: nat, k: nat, n: nat)
    requires IsRun(states, steps, threshold, window) && n < |states|
    requires forall i :: 0 <= i < |states| ==> |InFlight(states[i])| <= k
    ensures states[n].gauge.count + |InFlight(states[n])| <= threshold + k
  {
    if n > 0 {
      RunBounded(states, steps, threshold, window, k, n - 1);
      assert states[n] == Apply(states[n - 1], threshold, window, steps[n - 1]);
      StepBounded(states[n - 1], threshold, window, steps[n - 1], k);
    }
  }

  /** With at most `k` admitted requests in flight, the error count never exceeds `threshold + k`. */
  lemma ErrorCountBounded(states: seq<State>, steps: seq<Step>, threshold: nat, window: nat, k: nat, n: nat)
    requires IsRun(states, steps, threshold, window) && n < |states|
    requires forall i :: 0 <= i < |states| ==> |InFlight(states[i])| <= k
    ensures states[n].gauge.count <= threshold + k
  {
    RunBounded(states, steps, threshold, window, k, n);
  }

  // ---- When a check admits ----

  /** The errors recorded in steps `a` to `b`. */
  ghost function Recorded(states: seq<State>, steps: seq<Step>, a: nat, b: nat): nat
    requires |states| == |steps| + 1 && a <= b <= |steps|
    decreases b
  {
    if a == b then 0
    else
      Recorded(states, steps, a, b - 1)
      + if steps[b - 1].Record? && At(states[b - 1], steps[b - 1].id, Recording) then 1 else 0
  }

  /** No reset happens between states `a` and `b`; a reset always moves its time. */
  ghost predicate NoReset(states: seq<State>, a: nat, b: nat)
    requires a <= b < |states|
  {
    forall i :: a <= i <= b ==> states[i].gauge.lastReset == states[a].gauge.lastReset
  }

  /** Since a reset the gauge holds the errors recorded since. */
  lemma {:induction false} CountsSinceReset(states: seq<State>, steps: seq<Step>, threshold: nat, window: nat, a: nat,
                                            b: nat)
    requires IsRun(states, steps, threshold, window) && a <= b < |states|
    requires states[a].gauge.count == 0 && NoReset(states, a, b)
    ensures states[b].gauge.count == Recorded(states, steps, a, b)
    decreases b
  {
    if a < b {
      CountsSinceReset(states, steps, threshold, window, a, b - 1);
      assert states[b] == Apply(states[b - 1], threshold, window, steps[b - 1]);
    }
  }

  /**
   * With its two accesses interleaved, a check that has found the window elapsed and reset it admits exactly if, when
   * it decides, at most `threshold` errors have been recorded since; deciding at once it always admits.
   */
  lemma DecideAdmitsExactly(states: seq<State>, steps: seq<Step>, threshold: nat, window: nat, a: nat, b: nat, id: nat)
    requires IsRun(states, steps, threshold, window) && a < b < |steps|
    requires steps[a] == ResetForCheck(id) && At(states[a], id, Arrived)
    requires Elapsed(states[a].clock, states[a].gauge.lastReset) > window
    requires NoReset(states, a + 1, b) && steps[b] == Decide(id) && At(states[b], id, Checked)
    ensures At(states[b + 1], id, Running) <==> Recorded(states, steps, a + 1, b) <= threshold
    ensures b == a + 1 ==> At(states[b + 1], id, Running)
  {
    assert states[a + 1] == Apply(states[a], threshold, window, steps[a]);
    assert states[b + 1] == Apply(states[b], threshold, window, steps[b]);
    CountsSinceReset(states, steps, threshold, window, a + 1, b);
  }

  // ---- The window ----

  /** The time of the last reset moves only to a later time at which the window has elapsed, with no errors left. */
  lemma ResetsWhenElapsed(s: State, threshold: nat, window: nat, step: Step)
    ensures var s' := Apply(s, threshold, window, step);
            s'.gauge.lastReset != s.gauge.lastReset ==>
              && (step.ResetForCheck? || step.ResetForRecord?)
              && s.clock > s.gauge.lastReset + window && s'.gauge == Gauge(0, s.clock)
    ensures var s' := Apply(s, threshold, window, step);
            step.ResetForCheck? && At(s, step.id, Arrived) && s.clock > s.gauge.lastReset + window ==>
              s'.gauge == Gauge(0, s.clock)
  {
  }

  lemma {:induction false} ClockGrows(states: seq<State>, steps: seq<Step>, threshold: nat, window: nat, a: nat, b: nat)
    requires IsRun(states, steps, threshold, window) && a <= b < |states|
    ensures states[a].clock <= states[b].clock
    decreases b
  {
    if a < b {
      ClockGrows(states, steps, threshold, window, a, b - 1);
      assert states[b] == Apply(states[b - 1], threshold, window, steps[b - 1]);
    }
  }

  /** For the length of a window after a reset nothing moves it, and the gauge counts every error. */
  lemma {:induction false} WindowStands(states: seq<State>, steps: seq<Step>, threshold: nat, window: nat, a: nat,
                                        b: nat)
    requires IsRun(states, steps, threshold, window) && a <= b < |states|
    requires states[b].clock <= states[a].gauge.lastReset + window
    ensures NoReset(states, a, b)
    ensures states[b].gauge.count == states[a].gauge.count + Recorded(states, steps, a, b)
    decreases b
  {
    if a < b {
      ClockGrows(states, steps, threshold, window, b - 1, b);
      WindowStands(states, steps, threshold, window, a, b - 1);
      assert states[b] == Apply(states[b - 1], threshold, window, steps[b - 1]);
      assert states[b - 1].gauge.lastReset == states[a].gauge.lastReset;
    }
  }

  /** However often it is checked and errors are recorded, a check after the window finds or makes a later reset. */
  lemma {:induction false} ResetAfterWindow(states: seq<State>, steps: seq<Step>, threshold: nat, window: nat, a: nat,
                                            b: nat, id: nat)
    requires IsRun(states, steps, threshold, window) && a <= b < |steps|
    requires steps[b] == ResetForCheck(id) && At(states[b], id, Arrived)
    requires states[b].clock > states[a].gauge.lastReset + window
    ensures exists c :: a <= c <= b && states[c + 1].gauge == Gauge(0, states[c].clock)
                        && states[c].clock > states[a].gauge.lastReset + window
  {
    FirstMove(states, steps, threshold, window, a, b);
    assert states[b + 1] == Apply(states[b], threshold, window, steps[b]);
    if states[b].gauge.lastReset == states[a].gauge.lastReset {
      ResetsWhenElapsed(states[b], threshold, window, steps[b]);
    }
  }

  lemma {:induction false} FirstMove(states: seq<State>, steps: seq<Step>, threshold: nat, window: nat, a: nat, b: nat)
    requires IsRun(states, steps, threshold, window) && a <= b < |states|
    ensures states[b].gauge.lastReset == states[a].gauge.lastReset
         || exists c :: a <= c < b && states[c + 1].gauge == Gauge(0, states[c].clock)
                        && states[c].clock > states[a].gauge.lastReset + window
    decreases b
  {
    if a < b {
      FirstMove(states, steps, threshold, window, a, b - 1);
      assert states[b] == Apply(states[b - 1], threshold, window, steps[b - 1]);
      ResetsWhenElapsed(states[b - 1], threshold, window, steps[b - 1]);
    }
  }

  // ---- The bound is attained ----

  /** Some run with at most `k` requests in flight ends here. */
  ghost predicate Reachable(s: State, threshold: nat, window: nat, k: nat) {
    exists states, steps ::
      IsRun(states, steps, threshold, window) && states[|steps|] == s
      && forall i :: 0 <= i < |states| ==> |InFlight(states[i])| <= k
  }

  lemma ReachStep(s: State, threshold: nat, window: nat, k: nat, step: Step)
    requires Reachable(s, threshold, window, k) && |InFlight(Apply(s, threshold, window, step))| <= k
    ensures Reachable(Apply(s, threshold, window, step), threshold, window, k)
  {
    var states, steps :|
      IsRun(states, steps, threshold, window) && states[|steps|] == s
      && forall i :: 0 <= i < |states| ==> |InFlight(states[i])| <= k;
    var more, longer := states + [Apply(s, threshold, window, step)], steps + [step];
    assert IsRun(more, longer, threshold, window) && more[|longer|] == Apply(s, threshold, window, step);
  }

  /** The requests below `n` are running. */
  function Busy(n: nat): (r: map<nat, Phase>)
    ensures forall id: nat :: (id in r <==> id < n) && (id in r ==> r[id] == Running)
  {
    if n == 0 then map[] else Busy(n - 1)[n - 1 := Running]
  }

  lemma {:induction false} BusyCount(n: nat, p: Phase)
    ensures |AdmittedOf(Busy(n))| == n
    ensures |AdmittedOf(Busy(n)[n := p])| == if Admitted(p) then n + 1 else n
  {
    if n > 0 {
      BusyCount(n - 1, Running);
      assert Busy(n) == Busy(n - 1)[n - 1 := Running];
    }
    var before, after := AdmittedOf(Busy(n)), AdmittedOf(Busy(n)[n := p]);
    assert after == if Admitted(p) then before + {n} else before;
  }

  /** Besides those, request `n` is at phase `p`. */
  function Stage(g: Gauge, n: nat, p: Phase): State {
    State(g, g.lastReset, Busy(n)[n := p])
  }

  lemma ReachStage(g: Gauge, n: nat, p: Phase, step: Step, q: Phase, threshold: nat, window: nat, k: nat)
    requires n < k && Reachable(Stage(g, n, p), threshold, window, k)
    requires Moves(step, g, threshold, p, q) && step.id == n
    ensures Reachable(Stage(g, n, q), threshold, window, k)
  {
    BusyCount(n, q);
    assert Apply(Stage(g, n, p), threshold, window, step) == Stage(g, n, q) by {
      assert Busy(n)[n := p][n := q] == Busy(n)[n := q];
    }
    ReachStep(Stage(g, n, p), threshold, window, k, step);
  }

  /** The steps that move a request from `p` to `q` while the window has not elapsed. */
  predicate Moves(step: Step, g: Gauge, threshold: nat, p: Phase, q: Phase) {
    || (step.ResetForCheck? && p == Arrived && q == Checked)
    || (step.Decide? && p == Checked && q == Running && g.count <= threshold)
    || (step.Fail? && p == Running && q == Failed)
    || (step.ResetForRecord? && p == Failed && q == Recording)
  }

  /** One more request is admitted. */
  lemma ReachAdmitted(g: Gauge, n: nat, threshold: nat, window: nat, k: nat)
    requires n < k && g.count <= threshold && Reachable(State(g, g.lastReset, Busy(n)), threshold, window, k)
    ensures Reachable(State(g, g.lastReset, Busy(n + 1)), threshold, window, k)
  {
    BusyCount(n, Arrived);
    ReachStep(State(g, g.lastReset, Busy(n)), threshold, window, k, Arrive(n));
    ReachStage(g, n, Arrived, ResetForCheck(n), Checked, threshold, window, k);
    ReachStage(g, n, Checked, Decide(n), Running, threshold, window, k);
  }

  /** The last admitted request fails and records its error. */
  lemma ReachRecorded(g: Gauge, n: nat, threshold: nat, window: nat, k: nat)
    requires n < k && Reachable(State(g, g.lastReset, Busy(n + 1)), threshold, window, k)
    ensures Reachable(State(g.(count := g.count + 1), g.lastReset, Busy(n)), threshold, window, k)
  {
    ReachStage(g, n, Running, Fail(n), Failed, threshold, window, k);
    ReachStage(g, n, Failed, ResetForRecord(n), Recording, threshold, window, k);
    BusyCount(n, Recording);
    assert Busy(n)[n := Recording] - {n} == Busy(n);
    ReachStep(Stage(g, n, Recording), threshold, window, k, Record(n));
  }

  lemma {:induction false} ReachErrors(e: nat, threshold: nat, window: nat, k: nat)
    requires e <= threshold && k > 0
    ensures Reachable(State(Gauge(e, 0), 0, Busy(0)), threshold, window, k)
  {
    if e == 0 {
      var s := State(Gauge(0, 0), 0, Busy(0));
      BusyCount(0, Arrived);
      var none: seq<Step> := [];
      assert IsRun([s], none, threshold, window) && [s][|none|] == s;
    } else {
      ReachErrors(e - 1, threshold, window, k);
      ReachAdmitted(Gauge(e - 1, 0), 0, threshold, window, k);
      ReachRecorded(Gauge(e - 1, 0), 0, threshold, window, k);
    }
  }

  lemma {:induction false} ReachBusy(n: nat, threshold: nat, window: nat, k: nat)
    requires n <= k && k > 0
    ensures Reachable(State(Gauge(threshold, 0), 0, Busy(n)), threshold, window, k)
  {
    if n == 0 {
      ReachErrors(threshold, threshold, window, k);
    } else {
      ReachBusy(n - 1, threshold, window, k);
      ReachAdmitted(Gauge(threshold, 0), n - 1, threshold, window, k);
    }
  }

  lemma {:induction false} ReachDrained(n: nat, threshold: nat, window: nat, k: nat)
    requires n <= k && k > 0
    ensures Reachable(State(Gauge(threshold + n, 0), 0, Busy(k - n)), threshold, window, k)
  {
    if n == 0 {
      ReachBusy(k, threshold, window, k);
    } else {
      ReachDrained(n - 1, threshold, window, k);
      ReachRecorded(Gauge(threshold + n - 1, 0), k - n, threshold, window, k);
    }
  }

  /** For every threshold and every `k` some run reaches `threshold + k`, so no smaller bound holds. */
  lemma BoundAttained(threshold: nat, window: nat, k: nat) returns (s: State)
    requires k > 0
    ensures Reachable(s, threshold, window, k) && s.gauge.count == threshold + k
  {
    ReachDrained(k, threshold, window, k);
    s := State(Gauge(threshold + k, 0), 0, Busy(0));
  }
}
