/**
 The circuit breaker.  Requests share an atomic failure counter and an atomic time
 of the last failure; each request is a thread whose atomic steps interleave with
 those of the others.
 */
module CircuitBreaker {
  // `halfOpen` is the half-open success threshold, at least 1.
  datatype Settings = Settings(threshold: int, recovery: int, halfOpen: int)

  function Max0(x: int): int {
    if x < 0 then 0 else x
  }

  // Where a request stands.
  datatype Thread =
    | Start
    | Loaded(count: int)         // the counter was at or above the threshold
    | Trying(count: int)         // recovery time has passed: about to swap the counter
    | Serving                    // admitted, waiting for the response
    | Storing                    // failure counted, about to store its time
    | Releasing                  // success, about to read the counter
    | Decrementing(seen: int)    // about to swap the counter that was seen
    | Rejected
    | Done(failed: bool)

  // The changes of the counter, in the order in which they took effect.
  datatype Effect = Failure | Success | HalfOpen

  datatype State = State(counter: int, lastFailure: int, threads: seq<Thread>, effects: seq<Effect>)

  datatype Event = Arrive | Run(i: nat, now: int, failed: bool)

  predicate Enabled(st: State, e: Event) {
    e.Run? ==> e.i < |st.threads| && !st.threads[e.i].Rejected? && !st.threads[e.i].Done?
  }

  // What one atomic step of a thread (a load, a store, an addition or a
  // compare-and-swap) does to the counter, the time and the thread, and the effect
  // that it takes, if any.
  datatype Move = Move(counter: int, lastFailure: int, thread: Thread, effects: seq<Effect>)

  function Step(s: Settings, counter: int, last: int, t: Thread, now: int, failed: bool): Move {
    match t
    case Start => Move(counter, last, if counter >= s.threshold then Loaded(counter) else Serving, [])
    case Loaded(count) => Move(counter, last, if now - last < s.recovery then Rejected else Trying(count), [])
    case Trying(count) =>
      if counter == count then Move(Max0(count - s.halfOpen), last, Serving, [HalfOpen])
      else Move(counter, last, Serving, [])
    case Serving => if failed then Move(counter + 1, last, Storing, [Failure]) else Move(counter, last, Releasing, [])
    case Storing => Move(counter, now, Done(true), [])
    case Releasing =>
      if counter <= 0 then Move(counter, last, Done(false), [Success])
      else Move(counter, last, Decrementing(counter), [])
    case Decrementing(seen) =>
      if counter == seen then Move(seen - 1, last, Done(false), [Success]) else Move(counter, last, Releasing, [])
    case Rejected => Move(counter, last, t, [])
    case Done(_) => Move(counter, last, t, [])
  }

  function Next(s: Settings, st: State, e: Event): State
    requires Enabled(st, e)
  {
    if e.Arrive? then st.(threads := st.threads + [Start])
    else
      var m := Step(s, st.counter, st.lastFailure, st.threads[e.i], e.now, e.failed);
      State(m.counter, m.lastFailure, st.threads[e.i := m.thread], st.effects + m.effects)
  }

  ghost predicate IsRun(s: Settings, st: State, events: seq<Event>)
    decreases |events|
  {
    events != [] ==> Enabled(st, events[0]) && IsRun(s, Next(s, st, events[0]), events[1..])
  }

  function After(s: Settings, st: State, events: seq<Event>): State
    requires IsRun(s, st, events)
    decreases |events|
  {
    if events == [] then st else After(s, Next(s, st, events[0]), events[1..])
  }

  // ---------- The closed form ----------

  function Worth(s: Settings, e: Effect): int {
    match e
    case Failure => 1
    case Success => -1
    case HalfOpen => -s.halfOpen
  }

  function Sum(s: Settings, effects: seq<Effect>): int {
    if effects == [] then 0 else Worth(s, effects[0]) + Sum(s, effects[1..])
  }

  // The counter as a walk that is kept from going below zero.
  function Walk(s: Settings, effects: seq<Effect>): int {
    if effects == [] then 0
    else Max0(Walk(s, effects[..|effects| - 1]) + Worth(s, effects[|effects| - 1]))
  }

  // `m` is the greatest sum of a suffix, the empty one included.
  ghost predicate GreatestSuffix(s: Settings, effects: seq<Effect>, m: int) {
    && (exists i :: 0 <= i <= |effects| && Sum(s, effects[i..]) == m)
    && (forall i | 0 <= i <= |effects| :: Sum(s, effects[i..]) <= m)
  }

  lemma {:induction false} SumSnoc(s: Settings, effects: seq<Effect>, e: Effect)
    ensures Sum(s, effects + [e]) == Sum(s, effects) + Worth(s, e)
  {
    if effects == [] {
      assert effects + [e] == [e];
    } else {
      assert (effects + [e])[1..] == effects[1..] + [e];
      SumSnoc(s, effects[1..], e);
    }
  }

  lemma SuffixSum(s: Settings, effects: seq<Effect>, i: nat)
    requires i < |effects|
    ensures Sum(s, effects[i..]) == Sum(s, effects[..|effects| - 1][i..]) + Worth(s, effects[|effects| - 1])
  {
    var front, last := effects[..|effects| - 1], effects[|effects| - 1];
    assert effects[i..] == front[i..] + [last];
    SumSnoc(s, front[i..], last);
  }

  lemma GreatestStep(s: Settings, effects: seq<Effect>)
    requires effects != []
    requires var n := |effects| - 1;
             && GreatestSuffix(s, effects[..n], Walk(s, effects[..n]))
             && (forall i | 0 <= i <= n :: Sum(s, effects[i..]) == Sum(s, effects[..n][i..]) + Worth(s, effects[n]))
             && Sum(s, effects[n + 1..]) == 0
    ensures GreatestSuffix(s, effects, Walk(s, effects))
  {
    var front := effects[..|effects| - 1];
    var i :| 0 <= i <= |front| && Sum(s, front[i..]) == Walk(s, front);
    var j := if Walk(s, front) + Worth(s, effects[|effects| - 1]) < 0 then |effects| else i;
    assert Sum(s, effects[j..]) == Walk(s, effects);
  }

  lemma {:induction false} WalkIsGreatestSuffix(s: Settings, effects: seq<Effect>)
    ensures GreatestSuffix(s, effects, Walk(s, effects))
    decreases |effects|
  {
    var n := |effects|;
    assert effects[n..] == [];
    if n > 0 {
      WalkIsGreatestSuffix(s, effects[..n - 1]);
      forall i | 0 <= i < n ensures Sum(s, effects[i..]) == Sum(s, effects[..n - 1][i..]) + Worth(s, effects[n - 1]) {
        SuffixSum(s, effects, i);
      }
      GreatestStep(s, effects);
    }
  }

  // How many threads have counted an effect of the given kind.
  function Counted(threads: seq<Thread>, failed: bool): nat {
    if threads == [] then 0
    else Counted(threads[..|threads| - 1], failed) + One(threads[|threads| - 1], failed)
  }

  function One(t: Thread, failed: bool): nat {
    if t == Done(failed) || (failed && t.Storing?) then 1 else 0
  }

  lemma {:induction false} CountedUpdate(threads: seq<Thread>, i: nat, t: Thread, failed: bool)
    requires i < |threads|
    ensures Counted(threads[i := t], failed) == Counted(threads, failed) - One(threads[i], failed) + One(t, failed)
    decreases |threads|
  {
    var n := |threads| - 1;
    if i == n {
      assert threads[i := t][..n] == threads[..n];
    } else {
      assert threads[i := t][..n] == threads[..n][i := t];
      CountedUpdate(threads[..n], i, t, failed);
    }
  }

  // The counter is the walk over the effects, and every finished response is among
  // them exactly once.
  ghost predicate Inv(s: Settings, st: State) {
    && st.counter == Walk(s, st.effects)
    && (forall i | 0 <= i < |st.threads| :: st.threads[i].Decrementing? ==> st.threads[i].seen > 0)
    && multiset(st.effects)[Failure] == Counted(st.threads, true)
    && multiset(st.effects)[Success] == Counted(st.threads, false)
  }

  lemma WalkSnoc(s: Settings, effects: seq<Effect>, e: Effect)
    ensures Walk(s, effects + [e]) == Max0(Walk(s, effects) + Worth(s, e))
  {
    assert (effects + [e])[..|effects|] == effects;
  }

  lemma {:induction false} WalkNonNegative(s: Settings, effects: seq<Effect>)
    ensures Walk(s, effects) >= 0
  {
  }

  // A step takes no effect and leaves the counter, or takes one effect and moves the
  // counter by its worth, but not below zero.
  lemma StepMoves(s: Settings, counter: int, last: int, t: Thread, now: int, failed: bool)
    requires counter >= 0 && (t.Decrementing? ==> t.seen > 0)
    ensures var m := Step(s, counter, last, t, now, failed);
            && (m.effects == [] ==> m.counter == counter)
            && (m.effects != [] ==> |m.effects| == 1 && m.counter == Max0(counter + Worth(s, m.effects[0])))
            && (m.thread.Decrementing? ==> m.thread.seen > 0)
  {
  }

  lemma WalkStep(s: Settings, effects: seq<Effect>, more: seq<Effect>, counter: int, counter': int)
    requires counter == Walk(s, effects) && |more| <= 1
    requires counter' == if more == [] then counter else Max0(counter + Worth(s, more[0]))
    ensures counter' == Walk(s, effects + more)
  {
    if more == [] {
      assert effects + more == effects;
    } else {
      assert more == [more[0]];
      WalkSnoc(s, effects, more[0]);
    }
  }

  lemma StepCounts(s: Settings, counter: int, last: int, t: Thread, now: int, failed: bool)
    requires !t.Rejected? && !t.Done?
    ensures var m := Step(s, counter, last, t, now, failed);
            && One(m.thread, true) == One(t, true) + multiset(m.effects)[Failure]
            && One(m.thread, false) == One(t, false) + multiset(m.effects)[Success]
  {
  }

  lemma StepKeepsInv(s: Settings, st: State, e: Event)
    requires Inv(s, st) && Enabled(st, e)
    ensures Inv(s, Next(s, st, e))
  {
    if e.Arrive? {
      assert Next(s, st, e).threads[..|st.threads|] == st.threads;
    } else {
      var t := st.threads[e.i];
      var m := Step(s, st.counter, st.lastFailure, t, e.now, e.failed);
      WalkNonNegative(s, st.effects);
      StepMoves(s, st.counter, st.lastFailure, t, e.now, e.failed);
      WalkStep(s, st.effects, m.effects, st.counter, m.counter);
      StepCounts(s, st.counter, st.lastFailure, t, e.now, e.failed);
      CountedUpdate(st.threads, e.i, m.thread, true);
      CountedUpdate(st.threads, e.i, m.thread, false);
      assert multiset(st.effects + m.effects) == multiset(st.effects) + multiset(m.effects);
    }
  }

  lemma {:induction false} RunKeepsInv(s: Settings, st: State, events: seq<Event>)
    requires Inv(s, st) && IsRun(s, st, events)
    ensures Inv(s, After(s, st, events))
    decreases |events|
  {
    if events != [] {
      StepKeepsInv(s, st, events[0]);
      RunKeepsInv(s, Next(s, st, events[0]), events[1..]);
    }
  }

  function Initial(): State {
    State(0, 0, [], [])
  }

  // In every interleaving the counter is the greatest suffix sum of the effects, so it
  // is never negative and at or above a positive threshold exactly when some suffix is.
  lemma CounterClosedForm(s: Settings, events: seq<Event>)
    requires IsRun(s, Initial(), events)
    ensures var st := After(s, Initial(), events);
            && GreatestSuffix(s, st.effects, st.counter) && st.counter >= 0
            && (s.threshold >= 1 ==>
                  (st.counter >= s.threshold <==>
                     exists i :: 0 <= i <= |st.effects| && Sum(s, st.effects[i..]) >= s.threshold))
            && multiset(st.effects)[Failure] == Counted(st.threads, true)
            && multiset(st.effects)[Success] == Counted(st.threads, false)
  {
    RunKeepsInv(s, Initial(), events);
    var st := After(s, Initial(), events);
    WalkIsGreatestSuffix(s, st.effects);
    WalkNonNegative(s, st.effects);
    var i :| 0 <= i <= |st.effects| && Sum(s, st.effects[i..]) == st.counter;
  }

  // ---------- One request at a time ----------

  datatype Cell = Cell(counter: int, lastFailure: int)

  // The fate of a request that nothing interleaves with: whether it was admitted, and
  // the monitor afterwards.
  function Handle(s: Settings, c: Cell, now: int, failed: bool, after: int): (bool, Cell) {
    if c.counter >= s.threshold && now - c.lastFailure < s.recovery then (false, c)
    else
      var count := if c.counter >= s.threshold then Max0(c.counter - s.halfOpen) else c.counter;
      if failed then (true, Cell(count + 1, after))
      else (true, c.(counter := if count <= 0 then count else count - 1))
  }

  class TargetMonitor {
    const s: Settings
    var counter: int
    var lastFailure: int

    constructor (s: Settings)
      ensures this.s == s && counter == 0 && lastFailure == 0
    {
      this.s, counter, lastFailure := s, 0, 0;
    }

    method CompareAndSwap(seen: int, to: int) returns (ok: bool)
      modifies this`counter
      ensures ok <==> old(counter) == seen
      ensures counter == if ok then to else old(counter)
    {
      ok := counter == seen;
      if ok {
        counter := to;
      }
    }

    method ServeHTTP(now: int, failed: bool, after: int) returns (admitted: bool)
      modifies this
      ensures (admitted, Cell(counter, lastFailure)) == Handle(s, old(Cell(counter, lastFailure)), now, failed, after)
    {
      var count := counter;
      if count >= s.threshold {
        if now - lastFailure < s.recovery {
          return false;
        }
        var newCount := count - s.halfOpen;
        if newCount < 0 {
          newCount := 0;
        }
        var swapped := CompareAndSwap(count, newCount);
      }
      if failed {
        counter := counter + 1;
        lastFailure := after;
      } else {
        ghost var before := counter;
        var done := false;
        while !done
          invariant counter == if done && before > 0 then before - 1 else before
          invariant lastFailure == old(lastFailure)
          decreases !done
        {
          var cur := counter;
          if cur <= 0 {
            break;
          }
          done := CompareAndSwap(cur, cur - 1);
        }
      }
      return true;
    }
  }

  // A request run alone, step by step, meets that fate.
  lemma RunAlone(s: Settings, st: State, now: int, failed: bool, after: int) returns (events: seq<Event>, final: State)
    ensures IsRun(s, st, events) && final == After(s, st, events)
    ensures var (admitted, c) := Handle(s, Cell(st.counter, st.lastFailure), now, failed, after);
            && final.counter == c.counter && final.lastFailure == c.lastFailure
            && final.threads == st.threads + [if admitted then Done(failed) else Rejected]
  {
    var i := |st.threads|;
    events, final := [Arrive], Next(s, st, Arrive);
    assert IsRun(s, final, []) && After(s, final, []) == final;
    var t := now;
    while !final.threads[i].Rejected? && !final.threads[i].Done?
      invariant IsRun(s, st, events) && final == After(s, st, events)
      invariant |final.threads| == i + 1 && final.threads[..i] == st.threads
      invariant Underway(s, Cell(st.counter, st.lastFailure), now, failed, after, final, final.threads[i])
      decreases Left(final.threads[i])
    {
      var e := Run(i, if final.threads[i].Storing? then after else now, failed);
      Extend(s, st, events, e);
      events, final := events + [e], Next(s, final, e);
    }
    assert final.threads == final.threads[..i] + [final.threads[i]];
  }

  ghost function Left(t: Thread): nat {
    match t
    case Start => 6
    case Loaded(_) => 5
    case Trying(_) => 4
    case Serving => 3
    case Storing => 2
    case Releasing => 2
    case Decrementing(_) => 1
    case Rejected => 0
    case Done(_) => 0
  }

  // What holds on the way of a request that runs alone.
  ghost predicate Underway(s: Settings, c: Cell, now: int, failed: bool, after: int, st: State, t: Thread) {
    var count := if c.counter >= s.threshold then Max0(c.counter - s.halfOpen) else c.counter;
    var refused := c.counter >= s.threshold && now - c.lastFailure < s.recovery;
    match t
    case Start => st.counter == c.counter && st.lastFailure == c.lastFailure
    case Loaded(n) => st.counter == n == c.counter && n >= s.threshold && st.lastFailure == c.lastFailure
    case Trying(n) => st.counter == n == c.counter && n >= s.threshold && !refused && st.lastFailure == c.lastFailure
    case Serving => st.counter == count && !refused && st.lastFailure == c.lastFailure
    case Storing => st.counter == count + 1 && !refused && failed
    case Releasing => st.counter == count && !refused && !failed && st.lastFailure == c.lastFailure
    case Decrementing(n) => st.counter == n == count && n > 0 && !refused && !failed && st.lastFailure == c.lastFailure
    case Rejected => refused && st.counter == c.counter && st.lastFailure == c.lastFailure
    case Done(f) =>
      !refused && f == failed && (true, Cell(st.counter, st.lastFailure)) == Handle(s, c, now, failed, after)
  }

  lemma {:induction false} Extend(s: Settings, st: State, events: seq<Event>, e: Event)
    requires IsRun(s, st, events) && Enabled(After(s, st, events), e)
    ensures IsRun(s, st, events + [e]) && After(s, st, events + [e]) == Next(s, After(s, st, events), e)
    decreases |events|
  {
    if events == [] {
      assert events + [e] == [e];
      assert [e][1..] == [];
      assert IsRun(s, Next(s, st, e), []);
    } else {
      assert (events + [e])[1..] == events[1..] + [e];
      Extend(s, Next(s, st, events[0]), events[1..], e);
    }
  }

  // ---------- Opening ----------

  // A failure that leaves the counter at the threshold opens the breaker: another request
  // is refused, and changes nothing, if and only if it comes before the recovery time has
  // passed since the failure.
  lemma OpensExactly(s: Settings, c: Cell, now: int, after: int, later: int, failed: bool, done: int)
    requires Handle(s, c, now, true, after).0 && Handle(s, c, now, true, after).1.counter >= s.threshold
    ensures var c' := Handle(s, c, now, true, after).1;
            && (!Handle(s, c', later, failed, done).0 <==> later - after < s.recovery)
            && (!Handle(s, c', later, failed, done).0 ==> Handle(s, c', later, failed, done).1 == c')
  {
  }

  // Failing requests at the given times, one after the other.
  function Failures(s: Settings, c: Cell, times: seq<int>): Cell
    decreases |times|
  {
    if times == [] then c else Failures(s, Handle(s, c, times[0], true, times[0]).1, times[1..])
  }

  // Failures in a row count up to the threshold, and the last of them is remembered.
  lemma {:induction false} FailuresCount(s: Settings, c: Cell, times: seq<int>)
    requires c.counter + |times| <= s.threshold
    ensures Failures(s, c, times)
            == Cell(c.counter + |times|, if times == [] then c.lastFailure else times[|times| - 1])
    decreases |times|
  {
    if times != [] {
      FailuresCount(s, Handle(s, c, times[0], true, times[0]).1, times[1..]);
    }
  }

  // So a new breaker refuses a request after some failures in a row, no more than the
  // threshold, exactly when they are as many as the threshold and the last is recent.
  lemma TripsExactly(s: Settings, times: seq<int>, now: int, failed: bool, after: int)
    requires 1 <= |times| <= s.threshold
    ensures !Handle(s, Failures(s, Cell(0, 0), times), now, failed, after).0
            <==> |times| == s.threshold && now - times[|times| - 1] < s.recovery
  {
    FailuresCount(s, Cell(0, 0), times);
  }

  // ---------- Recovery ----------

  // Successful requests at the given times, one after the other.
  function Successes(s: Settings, c: Cell, times: seq<int>): Cell
    decreases |times|
  {
    if times == [] then c else Successes(s, Handle(s, c, times[0], false, times[0]).1, times[1..])
  }

  ghost predicate AllAdmitted(s: Settings, c: Cell, times: seq<int>)
    decreases |times|
  {
    times != [] ==>
      Handle(s, c, times[0], false, times[0]).0 && AllAdmitted(s, Handle(s, c, times[0], false, times[0]).1, times[1..])
  }

  lemma {:induction false} RecoverySteps(s: Settings, c: Cell, times: seq<int>)
    requires s.halfOpen >= 1 && s.threshold >= 1
    requires forall i | 0 <= i < |times| :: times[i] - c.lastFailure >= s.recovery
    ensures AllAdmitted(s, c, times)
    ensures Successes(s, c, times).counter < s.threshold <==> c.counter - |times| * (s.halfOpen + 1) < s.threshold
    decreases |times|
  {
    if times != [] {
      var c' := Handle(s, c, times[0], false, times[0]).1;
      RecoverySteps(s, c', times[1..]);
      var n, k := |times|, s.halfOpen + 1;
      assert n * k == (n - 1) * k + k;
      if c.counter < s.threshold || c.counter < k {
        assert (n - 1) * k >= 0;
      }
    }
  }

  lemma Multiples(n: int, q: int, k: int)
    requires k >= 1
    ensures n >= q ==> n * k >= q * k
    ensures n < q ==> n * k + k <= q * k
  {
    var d := n - q;
    assert d * k == n * k - q * k;
    if d >= 0 {
      assert d * k >= 0;
    } else {
      assert (-d - 1) * k >= 0;
      assert (-d - 1) * k == -(d * k) - k;
    }
  }

  lemma CeilingDivision(a: int, n: nat, k: int)
    requires k >= 1
    ensures n >= (a + k - 1) / k <==> n * k >= a
  {
    var q, r := (a + k - 1) / k, (a + k - 1) % k;
    assert a + k - 1 == q * k + r;
    Multiples(n, q, k);
  }

  // Once the recovery time has passed every successful request is admitted, and the
  // breaker closes after exactly ceil((c - threshold + 1) / (k + 1)) of them; with a
  // threshold below 1 it never closes.
  lemma RecoveryBound(s: Settings, c: Cell, times: seq<int>)
    requires s.halfOpen >= 1 && c.counter >= Max0(s.threshold)
    requires forall i | 0 <= i < |times| :: times[i] - c.lastFailure >= s.recovery
    ensures AllAdmitted(s, c, times)
    ensures Successes(s, c, times).counter < s.threshold
            <==> s.threshold >= 1 && |times| >= (c.counter - s.threshold + 1 + s.halfOpen) / (s.halfOpen + 1)
  {
    if s.threshold >= 1 {
      RecoverySteps(s, c, times);
      CeilingDivision(c.counter - s.threshold + 1, |times|, s.halfOpen + 1);
    } else {
      NeverCloses(s, c, times);
    }
  }

  lemma {:induction false} NeverCloses(s: Settings, c: Cell, times: seq<int>)
    requires s.threshold <= 0 <= c.counter
    requires forall i | 0 <= i < |times| :: times[i] - c.lastFailure >= s.recovery
    ensures AllAdmitted(s, c, times) && Successes(s, c, times).counter >= 0
    decreases |times|
  {
    if times != [] {
      NeverCloses(s, Handle(s, c, times[0], false, times[0]).1, times[1..]);
    }
  }
}
