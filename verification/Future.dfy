/** A chain of futures f.Then(..)...Then(..).OnTimeout(..), as cluster/ananas/future/Future.h links it: the value runs
    from the root to the leaf, the timeout from the leaf to the root, and each state has a lock of its own. */
module Future {
  import opened Options

  datatype Progress = Unset | Timeout | Done

  // ----- the critical sections, on one state -----

  /** What SetValue makes of the progress, None when it returns at once: only a root refuses. */
  function Fulfilled(isRoot: bool, p: Progress): Option<Progress> {
    if isRoot && p != Unset then None else Some(Done)
  }

  /** What a timeout makes of the progress, None when it returns at once. */
  function Expired(p: Progress): Option<Progress> { if p != Unset then None else Some(Timeout) }

  class State<T> {
    const isRoot: bool
    var progress: Progress
    var value: Option<T>

    constructor (isRoot: bool)
      ensures this.isRoot == isRoot && progress == Unset && value == None
    {
      this.isRoot := isRoot;
      progress, value := Unset, None;
    }

    /** Promise::SetValue under the lock; goesOn says whether then_ is called. */
    method SetValue(t: T) returns (goesOn: bool)
      modifies this
      ensures var p := Fulfilled(isRoot, old(progress));
              && goesOn == p.Some?
              && (if goesOn then progress == p.value && value == Some(t)
                  else progress == old(progress) && value == old(value))
    {
      if isRoot && progress != Unset { return false; }
      progress := Done;
      value := Some(t);
      return true;
    }

    /** The locked block of OnTimeout, and of the callback that hands the timeout to a parent. */
    method TimeOut() returns (goesOn: bool)
      modifies this
      ensures var p := Expired(old(progress));
              goesOn == p.Some? && progress == (if goesOn then p.value else old(progress)) && value == old(value)
    {
      if progress != Unset { return false; }
      progress := Timeout;
      return true;
    }
  }

  // ----- the chain as a state machine -----

  /** Where the value is: not set yet; about to lock state i; inside its lock; at then_ of state i; in the queue of the
      scheduler of hop i. */
  datatype ValuePc<T> = Idle | Wants(i: nat, x: T) | Inside(i: nat, x: T) | Calls(i: nat, x: T) | Queued(i: nat, x: T)
                      | Arrived | Refused

  datatype TimeoutPc = Pending | Climbs(j: nat) | Checks(j: nat) | Fires | Fired | GaveUp

  /** The lock of a state as the value's side uses it: SetValue holds it while then_ runs. */
  datatype ValueLock = NotYet | Held | Released

  /** A chain of Then callbacks fs, scheduled[i] if callback i runs in a scheduler; state |fs| is the leaf. */
  datatype Chain<!T> = Chain(fs: seq<T -> T>, scheduled: seq<bool>)
  {
    ghost predicate Valid() { |scheduled| == |fs| }

    function Leaf(): nat { |fs| }

    /** The value that reaches state i. */
    function Result(x: T, i: nat): T
      requires i <= |fs|
    {
      if i == 0 then x else fs[i - 1](Result(x, i - 1))
    }
  }

  /** input is what the root was set to; ran lists the callbacks run so far; fired counts the calls of the timeout
      callback. */
  datatype Run<T> = Run(input: Option<T>, progress: seq<Progress>, values: seq<Option<T>>, locks: seq<ValueLock>,
                        value: ValuePc<T>, timeoutLock: Option<nat>, timeout: TimeoutPc, ran: seq<nat>, fired: nat)

  datatype Step<T> = Set(x: T) | Lock | Enter | Call | RunQueued | Unlock(i: nat)
                   | TimerEnds | TimeoutLock | TimeoutCheck | TimeoutCall

  function Init<T>(c: Chain<T>): Run<T> {
    var n := |c.fs| + 1;
    Run(None, seq(n, _ => Unset), seq(n, _ => None), seq(n, _ => NotYet), Idle, None, Pending, [], 0)
  }

  ghost predicate Sized<T>(c: Chain<T>, r: Run<T>) {
    var n := |c.fs| + 1;
    && |c.scheduled| == |c.fs| && |r.progress| == n && |r.values| == n && |r.locks| == n
    && (r.value.Wants? || r.value.Inside? ==> r.value.i < n)
    && (r.value.Calls? || r.value.Queued? ==> r.value.i < n - 1)
    && (r.timeout.Climbs? || r.timeout.Checks? ==> r.timeout.j < n)
  }

  predicate IsFree<T>(r: Run<T>, i: nat)
    requires i < |r.locks|
  {
    r.locks[i] != Held && r.timeoutLock != Some(i)
  }

  /** The value's side is through with state i, but for the lock. */
  predicate Past<T>(v: ValuePc<T>, i: nat) {
    match v
    case Idle => false
    case Wants(k, _) => i < k
    case Inside(k, _) => i < k
    case Calls(k, _) => i < k
    case Queued(k, _) => i <= k
    case _ => true
  }

  /** SetValue on state i has returned from then_: it refused, it was the leaf, its callback was put in a queue, or
      SetValue on the next state has returned. */
  ghost predicate Returns<T>(c: Chain<T>, r: Run<T>, i: nat)
    requires Sized(c, r)
  {
    && i <= c.Leaf() && r.locks[i] == Held && Past(r.value, i)
    && (i == c.Leaf() || r.value == Refused || c.scheduled[i] || r.locks[i + 1] == Released)
  }

  ghost predicate Enabled<T>(c: Chain<T>, r: Run<T>, step: Step<T>)
    requires Sized(c, r)
  {
    match step
    case Set(_) => r.value == Idle
    case Lock => r.value.Wants? && IsFree(r, r.value.i)
    case Enter => r.value.Inside?
    case Call => r.value.Calls?
    case RunQueued => r.value.Queued?
    case Unlock(i) => Returns(c, r, i)
    case TimerEnds => r.timeout == Pending
    case TimeoutLock => r.timeout.Climbs? && IsFree(r, r.timeout.j)
    case TimeoutCheck => r.timeout.Checks?
    case TimeoutCall => r.timeout == Fires
  }

  ghost function Apply<T>(c: Chain<T>, r: Run<T>, step: Step<T>): Run<T>
    requires Sized(c, r) && Enabled(c, r, step)
  {
    match step
    case Set(x) => r.(input := Some(x), value := Wants(0, x))
    case Lock => r.(locks := r.locks[r.value.i := Held], value := Inside(r.value.i, r.value.x))
    case Enter =>
      var i, x := r.value.i, r.value.x;
      (match Fulfilled(i == 0, r.progress[i])
       case None => r.(value := Refused)
       case Some(p) =>
         r.(progress := r.progress[i := p], values := r.values[i := Some(x)],
            value := if i == c.Leaf() then Arrived else Calls(i, x)))
    case Call =>
      var i, x := r.value.i, r.value.x;
      if c.scheduled[i] then r.(value := Queued(i, x))
      else r.(ran := r.ran + [i], value := Wants(i + 1, c.fs[i](x)))
    case RunQueued =>
      var i, x := r.value.i, r.value.x;
      r.(ran := r.ran + [i], value := Wants(i + 1, c.fs[i](x)))
    case Unlock(i) => r.(locks := r.locks[i := Released])
    case TimerEnds => r.(timeout := Climbs(c.Leaf()))
    case TimeoutLock => r.(timeoutLock := Some(r.timeout.j), timeout := Checks(r.timeout.j))
    case TimeoutCheck =>
      var j := r.timeout.j;
      (match Expired(r.progress[j])
       case None => r.(timeoutLock := None, timeout := GaveUp)
       case Some(p) =>
         r.(timeoutLock := None, progress := r.progress[j := p], timeout := if j == 0 then Fires else Climbs(j - 1)))
    case TimeoutCall => r.(timeout := Fired, fired := r.fired + 1)
  }

  // ----- the invariant -----

  /** How many locks the value's side has taken, how many states it has set, how many callbacks it has run. */
  function Taken<T>(c: Chain<T>, v: ValuePc<T>): nat {
    match v
    case Idle => 0
    case Wants(i, _) => i
    case Inside(i, _) => i + 1
    case Calls(i, _) => i + 1
    case Queued(i, _) => i + 1
    case Arrived => c.Leaf() + 1
    case Refused => 1
  }

  function SetSoFar<T>(c: Chain<T>, v: ValuePc<T>): nat {
    if v == Refused then 0 else if v.Inside? then v.i else Taken(c, v)
  }

  function CallsMade<T>(c: Chain<T>, v: ValuePc<T>): nat {
    match v
    case Idle => 0
    case Wants(i, _) => i
    case Inside(i, _) => i
    case Calls(i, _) => i
    case Queued(i, _) => i
    case Arrived => c.Leaf()
    case Refused => 0
  }

  predicate Won(t: TimeoutPc) { t == Fires || t == Fired }

  /** The timeout has not come to state i yet. */
  predicate Ahead(t: TimeoutPc, i: nat) {
    match t
    case Pending => true
    case Climbs(j) => i <= j
    case Checks(j) => i <= j
    case _ => false
  }

  /** The value's side has taken the locks from the root on, the timeout at most one, and never the same. */
  ghost predicate LocksOk<T>(c: Chain<T>, r: Run<T>)
    requires Sized(c, r)
  {
    && (forall i :: 0 <= i < |r.locks| ==> (r.locks[i] == NotYet <==> i >= Taken(c, r.value)))
    && (r.value.Inside? || r.value.Calls? ==> r.locks[r.value.i] == Held)
    && (if r.timeout.Checks? then r.timeoutLock == Some(r.timeout.j) && r.locks[r.timeout.j] != Held
        else r.timeoutLock == None)
  }

  /** Every state set holds what the callbacks before it make of the input. */
  ghost predicate ValuesOk<T>(c: Chain<T>, r: Run<T>)
    requires Sized(c, r)
  {
    && (r.input == None <==> r.value == Idle)
    && (forall i :: 0 <= i < SetSoFar(c, r.value) ==>
          r.progress[i] == Done && r.values[i] == Some(c.Result(r.input.value, i)))
    && (forall i :: SetSoFar(c, r.value) <= i < |r.values| ==> r.values[i] == None)
    && (r.value.Wants? || r.value.Inside? || r.value.Calls? || r.value.Queued? ==>
          r.value.x == c.Result(r.input.value, r.value.i))
  }

  /** Whoever comes to the root first wins. */
  ghost predicate OrderOk<T>(c: Chain<T>, r: Run<T>)
    requires Sized(c, r)
  {
    && (forall i :: SetSoFar(c, r.value) <= i < |r.progress| && Ahead(r.timeout, i) ==> r.progress[i] == Unset)
    && (Won(r.timeout) <==> r.progress[0] == Timeout)
    && (r.progress[0] == Done <==> SetSoFar(c, r.value) > 0)
    && (r.timeout == GaveUp ==> SetSoFar(c, r.value) > 0)
    && (r.value == Refused ==> Won(r.timeout))
    && r.fired == (if r.timeout == Fired then 1 else 0)
  }

  ghost predicate Inv<T>(c: Chain<T>, r: Run<T>) {
    && Sized(c, r) && LocksOk(c, r) && ValuesOk(c, r) && OrderOk(c, r)
    && r.ran == seq(CallsMade(c, r.value), i => i)
  }

  lemma InitOk<T>(c: Chain<T>)
    requires c.Valid()
    ensures Inv(c, Init(c))
  {
  }

  /** The steps of the value's side, but for the release of a lock. */
  predicate IsValueStep<T>(step: Step<T>) { step.Set? || step.Lock? || step.Enter? || step.Call? || step.RunQueued? }

  lemma LocksKept<T>(c: Chain<T>, r: Run<T>, step: Step<T>)
    requires Inv(c, r) && Enabled(c, r, step)
    ensures Sized(c, Apply(c, r, step)) && LocksOk(c, Apply(c, r, step))
  {
    if IsValueStep(step) {
      LocksKeptByValue(c, r, step);
    } else {
      LocksKeptByTimeout(c, r, step);
    }
  }

  lemma LocksKeptByValue<T>(c: Chain<T>, r: Run<T>, step: Step<T>)
    requires Inv(c, r) && Enabled(c, r, step) && IsValueStep(step)
    ensures Sized(c, Apply(c, r, step)) && LocksOk(c, Apply(c, r, step))
  {
    hide ValuesOk, OrderOk, SetSoFar, CallsMade, Returns, Expired;
  }

  lemma LocksKeptByTimeout<T>(c: Chain<T>, r: Run<T>, step: Step<T>)
    requires Inv(c, r) && Enabled(c, r, step) && !IsValueStep(step)
    ensures Sized(c, Apply(c, r, step)) && LocksOk(c, Apply(c, r, step))
  {
    hide ValuesOk, OrderOk, SetSoFar, CallsMade, Fulfilled;
  }

  lemma ValuesKept<T>(c: Chain<T>, r: Run<T>, step: Step<T>)
    requires Inv(c, r) && Enabled(c, r, step) && Sized(c, Apply(c, r, step))
    ensures ValuesOk(c, Apply(c, r, step))
  {
    if IsValueStep(step) {
      ValuesKeptByValue(c, r, step);
    } else {
      ValuesKeptByTimeout(c, r, step);
    }
  }

  lemma ValuesKeptByValue<T>(c: Chain<T>, r: Run<T>, step: Step<T>)
    requires Inv(c, r) && Enabled(c, r, step) && Sized(c, Apply(c, r, step)) && IsValueStep(step)
    ensures ValuesOk(c, Apply(c, r, step))
  {
    hide LocksOk, Returns, IsFree, CallsMade, Expired;
  }

  lemma ValuesKeptByTimeout<T>(c: Chain<T>, r: Run<T>, step: Step<T>)
    requires Inv(c, r) && Enabled(c, r, step) && Sized(c, Apply(c, r, step)) && !IsValueStep(step)
    ensures ValuesOk(c, Apply(c, r, step))
  {
    hide LocksOk, Returns, IsFree, CallsMade, Fulfilled;
  }

  lemma RanKept<T>(c: Chain<T>, r: Run<T>, step: Step<T>)
    requires Inv(c, r) && Enabled(c, r, step)
    ensures Apply(c, r, step).ran == seq(CallsMade(c, Apply(c, r, step).value), i => i)
  {
    hide LocksOk, ValuesOk, Returns, IsFree, Expired, SetSoFar;
    if step == Call || step == RunQueued {
      assert r.ran + [r.value.i] == seq(r.value.i + 1, i => i);
    }
  }

  lemma OrderKept<T>(c: Chain<T>, r: Run<T>, step: Step<T>)
    requires Inv(c, r) && Enabled(c, r, step) && Sized(c, Apply(c, r, step))
    ensures OrderOk(c, Apply(c, r, step))
  {
    if IsValueStep(step) {
      OrderKeptByValue(c, r, step);
    } else {
      OrderKeptByTimeout(c, r, step);
    }
  }

  lemma OrderKeptByValue<T>(c: Chain<T>, r: Run<T>, step: Step<T>)
    requires Inv(c, r) && Enabled(c, r, step) && Sized(c, Apply(c, r, step)) && IsValueStep(step)
    ensures OrderOk(c, Apply(c, r, step))
  {
    hide LocksOk, Returns, IsFree, CallsMade, Expired;
  }

  lemma OrderKeptByTimeout<T>(c: Chain<T>, r: Run<T>, step: Step<T>)
    requires Inv(c, r) && Enabled(c, r, step) && Sized(c, Apply(c, r, step)) && !IsValueStep(step)
    ensures OrderOk(c, Apply(c, r, step))
  {
    hide LocksOk, Returns, IsFree, CallsMade, Fulfilled;
  }

  lemma StepKeeps<T>(c: Chain<T>, r: Run<T>, step: Step<T>)
    requires Inv(c, r) && Enabled(c, r, step)
    ensures Inv(c, Apply(c, r, step))
  {
    hide LocksOk, ValuesOk, OrderOk, Sized;
    LocksKept(c, r, step);
    ValuesKept(c, r, step);
    RanKept(c, r, step);
    OrderKept(c, r, step);
  }

  // ----- what holds in every run -----

  /** The states a run goes through, whatever the interleaving. */
  ghost predicate IsRun<T>(c: Chain<T>, states: seq<Run<T>>, steps: seq<Step<T>>) {
    && c.Valid() && |states| == |steps| + 1 && states[0] == Init(c)
    && forall i :: 0 <= i < |steps| ==>
         Sized(c, states[i]) && Enabled(c, states[i], steps[i]) && states[i + 1] == Apply(c, states[i], steps[i])
  }

  lemma {:induction false} RunKeeps<T>(c: Chain<T>, states: seq<Run<T>>, steps: seq<Step<T>>, k: nat)
    requires IsRun(c, states, steps) && k < |states|
    ensures Inv(c, states[k])
    decreases k
  {
    hide Apply, Enabled, Inv, Sized;
    if k == 0 {
      InitOk(c);
    } else {
      RunKeeps(c, states, steps, k - 1);
      StepKeeps(c, states[k - 1], steps[k - 1]);
    }
  }

  predicate ValueEnded<T>(r: Run<T>) { r.value.Arrived? || r.value.Refused? }

  predicate TimeoutEnded<T>(r: Run<T>) { r.timeout == Fired || r.timeout == GaveUp }

  /** All Then callbacks have run, once each and in order, and the leaf holds what they make of the input. */
  ghost predicate AllRan<T>(c: Chain<T>, r: Run<T>)
    requires Sized(c, r)
  {
    && r.ran == seq(|c.fs|, i => i) && r.input.Some?
    && r.values[c.Leaf()] == Some(c.Result(r.input.value, c.Leaf()))
    && forall i :: 0 <= i < |r.progress| ==> r.progress[i] == Done
  }

  /** No callback has run, and no state has got a value. */
  ghost predicate NoneRan<T>(c: Chain<T>, r: Run<T>)
    requires Sized(c, r)
  {
    r.ran == [] && forall i :: 0 <= i < |r.values| ==> r.values[i] == None
  }

  /** Exactly one outcome. Never do both a callback and the timeout callback run, neither of them twice; and once the
      value and the timeout have both run their course, either all callbacks have run or the timeout callback has. */
  lemma ExactlyOneOutcome<T>(c: Chain<T>, states: seq<Run<T>>, steps: seq<Step<T>>, k: nat)
    requires IsRun(c, states, steps) && k < |states|
    ensures var r := states[k];
            && Sized(c, r) && r.fired <= 1 && r.ran <= seq(|c.fs|, i => i)
            && (r.fired == 1 ==> NoneRan(c, r))
            && (ValueEnded(r) && TimeoutEnded(r) ==>
                  (AllRan(c, r) && r.fired == 0) || (NoneRan(c, r) && r.fired == 1))
  {
    RunKeeps(c, states, steps, k);
    hide LocksOk, Apply, Enabled;
    assert states[k].ran <= seq(|c.fs|, i => i);
  }

  lemma {:induction false} OnlyScheduledQueue<T>(c: Chain<T>, states: seq<Run<T>>, steps: seq<Step<T>>, k: nat)
    requires IsRun(c, states, steps) && k < |states| && states[k].value.Queued?
    ensures states[k].value.i < |c.scheduled| && c.scheduled[states[k].value.i]
    decreases k
  {
    if k > 0 && states[k - 1].value.Queued? {
      OnlyScheduledQueue(c, states, steps, k - 1);
    }
  }

  /** A callback with a scheduler runs from its queue, and no other does. */
  lemma RunsWhereItShould<T>(c: Chain<T>, states: seq<Run<T>>, steps: seq<Step<T>>, k: nat)
    requires IsRun(c, states, steps) && k < |steps|
    ensures states[k + 1].ran == states[k].ran
            || exists i: nat :: i < |c.scheduled| && states[k + 1].ran == states[k].ran + [i]
                                && (steps[k] == RunQueued <==> c.scheduled[i])
  {
    if steps[k] == RunQueued {
      OnlyScheduledQueue(c, states, steps, k);
    }
  }

  lemma {:induction false} HighestHeld<T>(r: Run<T>, i: nat) returns (k: nat)
    requires i < |r.locks| && r.locks[i] == Held
    ensures i <= k < |r.locks| && r.locks[k] == Held && (k + 1 < |r.locks| ==> r.locks[k + 1] != Held)
    decreases |r.locks| - i
  {
    k := i;
    if i + 1 < |r.locks| && r.locks[i + 1] == Held {
      k := HighestHeld(r, i + 1);
    }
  }

  /** No deadlock: from the moment the value is set, or the timer has gone off, until that side has run its course and
      every lock is free again, some thread can go on. */
  lemma NoDeadlock<T>(c: Chain<T>, r: Run<T>) returns (step: Step<T>)
    requires Inv(c, r)
    requires (r.value != Idle && !ValueEnded(r)) || (r.timeout != Pending && !TimeoutEnded(r))
             || exists i :: 0 <= i < |r.locks| && r.locks[i] == Held
    ensures Enabled(c, r, step) && !step.Set? && !step.TimerEnds?
  {
    hide ValuesOk, SetSoFar, CallsMade;
    if r.timeout.Checks? {
      step := TimeoutCheck;
    } else if r.timeout == Fires {
      step := TimeoutCall;
    } else if r.value.Inside? {
      step := Enter;
    } else if r.value.Calls? {
      step := Call;
    } else if r.value.Queued? {
      step := RunQueued;
    } else if r.value.Wants? {
      step := Lock;
    } else if i :| 0 <= i < |r.locks| && r.locks[i] == Held {
      var k := HighestHeld(r, i);
      step := Unlock(k);
    } else {
      step := TimeoutLock;
    }
  }

  // ----- every run ends -----

  function Unreleased(locks: seq<ValueLock>): nat {
    if locks == [] then 0 else (if locks[0] == Released then 0 else 1) + Unreleased(locks[1..])
  }

  lemma {:induction false} UnreleasedUpdate(locks: seq<ValueLock>, i: nat, l: ValueLock)
    requires i < |locks| && locks[i] != Released
    ensures Unreleased(locks[i := l]) == Unreleased(locks) - if l == Released then 1 else 0
  {
    var locks' := locks[i := l];
    if i == 0 {
      assert locks'[1..] == locks[1..];
    } else {
      assert locks'[1..] == locks[1..][i - 1 := l];
      UnreleasedUpdate(locks[1..], i - 1, l);
    }
  }

  /** An upper bound on the steps still to come. */
  ghost function Left<T>(c: Chain<T>, r: Run<T>): int {
    var n := |c.fs| + 1;
    Unreleased(r.locks)
    + (match r.value
       case Idle => 4 * n + 1
       case Wants(i, _) => 4 * (n - i)
       case Inside(i, _) => 4 * (n - i) - 1
       case Calls(i, _) => 4 * (n - i) - 2
       case Queued(i, _) => 4 * (n - i) - 3
       case _ => 0)
    + (match r.timeout
       case Pending => 2 * n + 3
       case Climbs(j) => 2 * j + 4
       case Checks(j) => 2 * j + 3
       case Fires => 1
       case _ => 0)
  }

  lemma StepShortens<T>(c: Chain<T>, r: Run<T>, step: Step<T>)
    requires Inv(c, r) && Enabled(c, r, step)
    ensures 0 <= Left(c, Apply(c, r, step)) < Left(c, r)
  {
    if IsValueStep(step) {
      ValueShortens(c, r, step);
    } else {
      TimeoutShortens(c, r, step);
    }
  }

  lemma ValueShortens<T>(c: Chain<T>, r: Run<T>, step: Step<T>)
    requires Inv(c, r) && Enabled(c, r, step) && IsValueStep(step)
    ensures 0 <= Left(c, Apply(c, r, step)) < Left(c, r)
  {
    hide ValuesOk, OrderOk, CallsMade, SetSoFar, Unreleased, Returns, Expired;
    if step == Lock {
      UnreleasedUpdate(r.locks, r.value.i, Held);
    }
  }

  lemma TimeoutShortens<T>(c: Chain<T>, r: Run<T>, step: Step<T>)
    requires Inv(c, r) && Enabled(c, r, step) && !IsValueStep(step)
    ensures 0 <= Left(c, Apply(c, r, step)) < Left(c, r)
  {
    hide ValuesOk, OrderOk, CallsMade, SetSoFar, Unreleased, Fulfilled;
    if step.Unlock? {
      UnreleasedUpdate(r.locks, step.i, Released);
    }
  }

  lemma {:induction false} AllUnreleased(n: nat)
    ensures Unreleased(seq(n, _ => NotYet)) == n
  {
    if n > 0 {
      assert seq(n, _ => NotYet)[1..] == seq(n - 1, _ => NotYet);
      AllUnreleased(n - 1);
    }
  }

  /** A run of a chain of n callbacks has at most 7n + 11 steps, so it ends; by NoDeadlock and ExactlyOneOutcome it ends
      with one outcome. */
  lemma {:induction false} RunsEnd<T>(c: Chain<T>, states: seq<Run<T>>, steps: seq<Step<T>>, k: nat)
    requires IsRun(c, states, steps) && k < |states|
    ensures k + Left(c, states[k]) <= 7 * |c.fs| + 11 && Left(c, states[k]) >= 0
    decreases k
  {
    hide Apply, Enabled, Inv, Sized;
    if k == 0 {
      AllUnreleased(|c.fs| + 1);
    } else {
      RunsEnd(c, states, steps, k - 1);
      RunKeeps(c, states, steps, k - 1);
      hide Left;
      StepShortens(c, states[k - 1], steps[k - 1]);
    }
  }
}
