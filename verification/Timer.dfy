/** The timer wheel: QBase/Timer.h and QBase/Timer.cc. Five levels of buckets, each a doubly linked list of timers
    behind a head of its own; the heads of all levels are numbered through. */
module Timer {
  const HEADS := 512
  const HALF := 0x8000_0000
  const FULL := 0x1_0000_0000

  /** Where AddTimer puts a timer; the distance is a 32-bit integer, and counts as past when its sign bit is set. */
  function BucketOf(last: nat, trigger: nat): (k: nat)
    ensures k < HEADS
  {
    var diff := (trigger - last) % FULL;
    if diff >= HALF then last % 256
    else if diff < 0x100 then trigger % 256
    else if diff < 0x4000 then 256 + trigger / 0x100 % 64
    else if diff < 0x10_0000 then 320 + trigger / 0x4000 % 64
    else if diff < 0x400_0000 then 384 + trigger / 0x10_0000 % 64
    else 448 + trigger / 0x400_0000 % 64
  }

  /** The tick at which bucket k of the first level is drained next, the clock standing at last. */
  function DrainTick(last: nat, k: nat): nat
    requires k < 256
  {
    var d := k - last % 256;
    last + if d < 0 then d + 256 else d
  }

  /** A timer put into the first level is not due after the tick at which its bucket is drained. */
  lemma NotEarly(last: nat, trigger: nat)
    requires trigger < last + HALF && BucketOf(last, trigger) < 256
    ensures trigger <= DrainTick(last, BucketOf(last, trigger))
  {
    if trigger >= last {
      assert (trigger - last) % FULL == trigger - last < 256;
      SameTick(last, trigger);
    }
  }

  /** The bucket of a time less than 256 ticks ahead is drained at that time. */
  lemma SameTick(last: nat, trigger: nat)
    requires last <= trigger < last + 256
    ensures DrainTick(last, trigger % 256) == trigger
  {
    var a, b := last % 256, trigger % 256;
    assert trigger - last == 256 * (trigger / 256 - last / 256) + b - a;
  }

  lemma DrainTickStep(last: nat, k: nat)
    requires k < 256
    ensures DrainTick(last, last % 256) == last
    ensures k != last % 256 ==> DrainTick(last + 1, k) == DrainTick(last, k)
    ensures DrainTick(last + 1, last % 256) == last + 256
  {
    assert (last + 1) % 256 == if last % 256 == 255 then 0 else last % 256 + 1;
  }

  // ----- the higher levels -----

  /** The bucket of a timer, and when it is due. */
  datatype Place = Place(bucket: nat, due: nat)

  /** How much time a bucket of a higher level stands for, and where its level begins. */
  function SpanOf(k: nat): (span: nat)
    requires 256 <= k < HEADS
    ensures span > 0
  {
    if k < 320 then 0x100 else if k < 384 then 0x4000 else if k < 448 then 0x10_0000 else 0x400_0000
  }

  function BaseOf(k: nat): nat
    requires 256 <= k < HEADS
  {
    if k < 320 then 256 else if k < 384 then 320 else if k < 448 then 384 else 448
  }

  /** When a timer of bucket k ought to move down: the start of the time that its bucket stands for. */
  function Turn(trigger: nat, k: nat): nat
    requires 256 <= k < HEADS
  {
    trigger / SpanOf(k) * SpanOf(k)
  }

  /** The clock points at the bucket of a timer when its turn comes, and not a round later. */
  predicate OnTurn(last: nat, trigger: nat, k: nat)
    requires 256 <= k < HEADS
  {
    k == BaseOf(k) + trigger / SpanOf(k) % 64 && last <= Turn(trigger, k) < last + 64 * SpanOf(k)
  }

  /** A timer that is put in before its time is on turn, on whichever level; on the first it is drained in time. */
  lemma PutOnTurn(last: nat, trigger: nat)
    requires last <= trigger < last + HALF
    ensures var k := BucketOf(last, trigger);
            if k < 256 then trigger < last + 256 && DrainTick(last, k) == trigger
            else OnTurn(last, trigger, k) && Turn(trigger, k) > last
  {
    hide DrainTick;
    assert (trigger - last) % FULL == trigger - last;
    var k := BucketOf(last, trigger);
    if k < 256 {
      SameTick(last, trigger);
    } else if k < 320 {
      assert Turn(trigger, k) == trigger / 0x100 * 0x100;
    } else if k < 384 {
      assert Turn(trigger, k) == trigger / 0x4000 * 0x4000;
    } else if k < 448 {
      assert Turn(trigger, k) == trigger / 0x10_0000 * 0x10_0000;
    } else {
      assert Turn(trigger, k) == trigger / 0x400_0000 * 0x400_0000;
    }
  }

  /** A timer that is put in too late is drained at once. */
  lemma PutTooLate(last: nat, trigger: nat)
    requires trigger < last < trigger + HALF
    ensures BucketOf(last, trigger) == last % 256 && DrainTick(last, last % 256) == last
  {
    assert (trigger - last) % FULL == trigger - last + FULL;
  }

  /** Whoever is put in on a higher level is not on turn already. */
  lemma NotYet(last: nat, trigger: nat)
    requires trigger < last + HALF && BucketOf(last, trigger) >= 256
    ensures Turn(trigger, BucketOf(last, trigger)) != last
  {
    hide OnTurn;
    var k := BucketOf(last, trigger);
    if Turn(trigger, k) == last {
      AfterTurn(trigger, k);
      PutOnTurn(last, trigger);
    }
  }

  lemma AfterTurn(trigger: nat, k: nat)
    requires 256 <= k < HEADS
    ensures Turn(trigger, k) <= trigger
  {
  }

  /** It is the turn of a timer. */
  predicate HasTurn(last: nat, trigger: nat, k: nat) { 256 <= k < HEADS && Turn(trigger, k) == last }

  /** When its turn has come the clock points at the bucket of a timer, and stands at a multiple of 256. */
  lemma PointedAt(last: nat, trigger: nat, k: nat)
    requires 256 <= k < HEADS && OnTurn(last, trigger, k) && Turn(trigger, k) == last
    ensures k == BaseOf(k) + last / SpanOf(k) % 64 && last % 256 == 0
  {
    if k < 320 {
      assert last == trigger / 0x100 * 0x100;
    } else if k < 384 {
      assert last == trigger / 0x4000 * 0x4000;
    } else if k < 448 {
      assert last == trigger / 0x10_0000 * 0x10_0000;
    } else {
      assert last == trigger / 0x400_0000 * 0x400_0000;
    }
  }

  /** _Index: the bucket of a level that a clock points at. */
  function IndexOf(clock: nat, level: nat): (i: nat)
    requires level < 4
    ensures i < 64
  {
    var span :=
      if level == 0 then 0x100 else if level == 1 then 0x4000 else if level == 2 then 0x10_0000 else 0x400_0000;
    clock / span % 64
  }

  /** A timer that is expected: it is on the first level; or on the second, on turn; or alone on another, on turn. */
  predicate IsExpected(last: nat, trigger: nat, k: nat, alone: bool) {
    k >= 256 ==> k < HEADS && OnTurn(last, trigger, k) && (k < 320 || alone)
  }

  /** The tick at which it is called, when tick t of bucket index is being drained. */
  function TickOf(last: nat, trigger: nat, k: nat, index: int, t: nat): nat {
    if k >= 256 then trigger else if k == index then t else DrainTick(last, k)
  }

  /** When the clock points at its bucket, a timer of the second level has its turn. */
  lemma SecondLevelTurn(last: nat, trigger: nat, k: nat)
    requires 256 <= k < 320 && OnTurn(last, trigger, k) && k == 256 + IndexOf(last, 0) && last % 256 == 0
    ensures last <= trigger < last + 256
  {
    var a, b := trigger / 0x100, last / 0x100;
    assert a % 64 == b % 64 && b * 0x100 == last && b <= a < b + 64;
  }

  /** Who is expected still is when the bucket is cascaded. */
  lemma CascadedExpected(last: nat, trigger: nat, k: nat, alone: bool)
    requires 256 <= k < HEADS && IsExpected(last, trigger, k, alone) && trigger < last + HALF && last % 256 == 0
    requires k < 320 ==> k == 256 + IndexOf(last, 0)
    ensures var to := BucketOf(last, trigger);
            IsExpected(last, trigger, to, alone) && TickOf(last, trigger, to, -1, 0) == trigger
  {
    hide OnTurn, BucketOf, IndexOf, Turn, DrainTick;
    AfterTurn(trigger, k);
    TurnAhead(last, trigger, k);
    PutOnTurn(last, trigger);
    if k < 320 {
      SecondLevelTurn(last, trigger, k);
      NearIsFirst(last, trigger);
    }
  }

  lemma TurnAhead(last: nat, trigger: nat, k: nat)
    requires 256 <= k < HEADS && OnTurn(last, trigger, k)
    ensures last <= Turn(trigger, k)
  {
  }

  lemma NearIsFirst(last: nat, trigger: nat)
    requires last <= trigger < last + 256
    ensures BucketOf(last, trigger) < 256
  {
    assert (trigger - last) % FULL == trigger - last;
  }

  /** A timer on a higher level that will not move before its turn. */
  predicate IsUp(last: nat, place: Place) {
    && 256 <= place.bucket < HEADS && OnTurn(last, place.due, place.bucket)
    && place.due < last + 64 * SpanOf(place.bucket) && place.due < last + HALF
  }

  lemma IsUpLater(last: nat, later: nat, place: Place)
    requires IsUp(last, place) && last <= later <= Turn(place.due, place.bucket)
    ensures IsUp(later, place)
  {
  }

  lemma PutIsUp(last: nat, due: nat)
    requires last <= due < last + HALF && BucketOf(last, due) >= 256
    ensures IsUp(last, Place(BucketOf(last, due), due))
  {
    hide OnTurn;
    PutOnTurn(last, due);
    assert (due - last) % FULL == due - last;
  }

  /** When the clock points at its bucket a round too soon, it is put in there again. */
  lemma PutBackUp(last: nat, place: Place)
    requires IsUp(last, place) && Turn(place.due, place.bucket) > last
    requires place.bucket == BaseOf(place.bucket) + last / SpanOf(place.bucket) % 64
    ensures BucketOf(last, place.due) == place.bucket
  {
    var k, due := place.bucket, place.due;
    AfterTurn(due, k);
    assert (due - last) % FULL == due - last;
    if k < 320 {
      RoundTooSoon(last, due, 0x100);
    } else if k < 384 {
      RoundTooSoon(last, due, 0x4000);
    } else if k < 448 {
      RoundTooSoon(last, due, 0x10_0000);
    } else {
      RoundTooSoon(last, due, 0x400_0000);
    }
  }

  lemma RoundTooSoon(last: nat, due: nat, span: nat)
    requires span in {0x100, 0x4000, 0x10_0000, 0x400_0000}
    requires last / span % 64 == due / span % 64 && due / span * span > last
    ensures due - last >= span
  {
    var a, b := due / span, last / span;
    if span == 0x100 {
      assert a > b && a - b >= 64;
    } else if span == 0x4000 {
      assert a > b && a - b >= 64;
    } else if span == 0x10_0000 {
      assert a > b && a - b >= 64;
    } else {
      assert a > b && a - b >= 64;
    }
  }

  function Later(a: nat, b: nat): nat { if a > b then a else b }

  /** A timer that is put in is expected when it is due, or at once. */
  lemma PutIsExpected(last: nat, trigger: nat, alone: bool)
    requires trigger < last + HALF && last < trigger + HALF && (trigger < last + 0x4000 || alone)
    ensures var k := BucketOf(last, trigger);
            IsExpected(last, trigger, k, alone) && TickOf(last, trigger, k, -1, 0) == Later(trigger, last)
  {
    hide BucketOf, OnTurn, DrainTick, Turn;
    if trigger < last {
      PutTooLate(last, trigger);
    } else {
      PutOnTurn(last, trigger);
      NearIsLow(last, trigger);
    }
  }

  lemma NearIsLow(last: nat, trigger: nat)
    requires last <= trigger < last + HALF
    ensures trigger < last + 0x4000 ==> BucketOf(last, trigger) < 320
  {
    assert (trigger - last) % FULL == trigger - last;
  }

  /** The call of a timer that is expected comes at a tick that has not passed. */
  lemma NotYetCalled(last: nat, trigger: nat, k: nat, alone: bool)
    requires IsExpected(last, trigger, k, alone)
    ensures TickOf(last, trigger, k, -1, 0) >= last
  {
    hide Turn;
    if k >= 256 {
      AfterTurn(trigger, k);
    }
  }

  lemma LowIsExpected(last: nat, trigger: nat, k: nat, alone: bool, now: bool)
    requires IsExpected(last, trigger, k, alone) && k < 320
    ensures IsExpected(last, trigger, k, now)
  {
  }

  class Timer {
    var next: Timer?
    var prev: Timer?
    var triggerTime: nat
    var interval: nat
    var count: int
    var hasFunc: bool
    /** The list the timer is on, and its place there: ranks go down along next. */
    ghost var bucket: nat
    ghost var rank: int

    constructor (triggerTime: nat, interval: nat, count: int)
      ensures next == null && prev == null && hasFunc
      ensures this.triggerTime == triggerTime && this.interval == interval && this.count == count
    {
      this.triggerTime, this.interval, this.count, hasFunc := triggerTime, interval, count, true;
      next, prev, bucket, rank := null, null, 0, 0;
    }

    /** Whether the next call of OnTimer returns true. */
    predicate GoesOn()
      reads this`hasFunc, this`count
    {
      hasFunc && count != 0
    }

    /** OnTimer, in the drain of tick t; the callback itself does nothing to the timers. Every call is logged. */
    method OnTimer(ghost manager: TimerManager, ghost t: nat) returns (again: bool)
      modifies this`count, this`triggerTime, manager`fired
      ensures again == old(GoesOn())
      ensures manager.fired == old(manager.fired) + [Firing(this, old(triggerTime), t, interval, again)]
      ensures triggerTime == old(triggerTime) + if again then interval else 0
      ensures count == if hasFunc && old(count) >= 0 then old(count) - 1 else old(count)
    {
      manager.fired := manager.fired + [Firing(this, triggerTime, t, interval, GoesOn())];
      if !hasFunc { return false; }
      var goes := count < 0;
      if !goes {
        count := count - 1;
        goes := count >= 0;
      }
      if goes {
        triggerTime := triggerTime + interval;
      }
      return goes;
    }
  }

  // ----- lists -----

  ghost predicate HeadOk(h: Timer, armed: set<Timer>)
    reads h, armed
  {
    h.prev == null && (h.next != null ==> h.next in armed && h.next.prev == h)
  }

  ghost predicate NodeOk(x: Timer, heads: set<Timer>, armed: set<Timer>)
    requires x in armed
    reads heads, armed
  {
    && x.prev != null && x.prev in heads + armed && x.prev.next == x && x.prev.bucket == x.bucket
    && (x.prev in armed ==> x.prev.rank > x.rank)
    && (x.next != null ==> x.next in armed && x.next.prev == x)
  }

  /** Every armed timer hangs between two others of its list, or behind the head. */
  ghost predicate Linked(heads: set<Timer>, armed: set<Timer>)
    reads heads, armed
  {
    && heads !! armed
    && (forall h :: h in heads ==> HeadOk(h, armed))
    && (forall x :: x in armed ==> NodeOk(x, heads, armed))
  }

  /** n steps along next lead from a to x. */
  ghost predicate Leads(a: Timer, x: Timer, n: nat, heads: set<Timer>, armed: set<Timer>)
    reads heads, armed
    decreases n
  {
    if n == 0 then a == x
    else a in heads + armed && a.next != null && Leads(a.next, x, n - 1, heads, armed)
  }

  lemma {:induction false} LeadsOn(a: Timer, x: Timer, n: nat, heads: set<Timer>, armed: set<Timer>)
    requires Leads(a, x, n, heads, armed) && x in heads + armed && x.next != null
    ensures Leads(a, x.next, n + 1, heads, armed)
    decreases n
  {
    if n == 0 {
      assert Leads(x.next, x.next, 0, heads, armed);
    } else {
      LeadsOn(a.next, x, n - 1, heads, armed);
    }
  }

  /** Every armed timer is on a list: some head leads to it. */
  lemma {:induction false} OnAList(x: Timer, heads: set<Timer>, armed: set<Timer>) returns (h: Timer, n: nat)
    requires Linked(heads, armed) && x in armed
    ensures h in heads && h.bucket == x.bucket && Leads(h, x, n, heads, armed)
    decreases |set y | y in armed && y.rank > x.rank|
  {
    assert NodeOk(x, heads, armed);
    var p := x.prev;
    if p in heads {
      h, n := p, 1;
      assert Leads(p.next, x, 0, heads, armed);
    } else {
      var above, abovePrev := set y | y in armed && y.rank > x.rank, set y | y in armed && y.rank > p.rank;
      assert p in above && abovePrev <= above - {p};
      Fewer(abovePrev, above, p);
      h, n := OnAList(p, heads, armed);
      LeadsOn(h, p, n, heads, armed);
      n := n + 1;
    }
  }

  lemma {:induction false} Fewer(a: set<Timer>, b: set<Timer>, p: Timer)
    requires p in b && a <= b - {p}
    ensures |a| < |b|
    decreases |b|
  {
    if a != {} {
      var x :| x in a;
      Fewer(a - {x}, b - {x}, p);
    } else {
      assert |b| > 0;
    }
  }

  /** And on no other: whatever a head leads to is of its bucket, and no two heads have the same. */
  lemma {:induction false} OnNoOther(h: Timer, x: Timer, n: nat, heads: set<Timer>, armed: set<Timer>)
    requires Linked(heads, armed) && h in heads + armed && Leads(h, x, n, heads, armed)
    ensures x.bucket == h.bucket && x in heads + armed
    decreases n
  {
    if n > 0 {
      if h in heads {
        assert HeadOk(h, armed);
      } else {
        assert NodeOk(h, heads, armed);
      }
      assert NodeOk(h.next, heads, armed);
      OnNoOther(h.next, x, n - 1, heads, armed);
    }
  }

  /** The pointers of AddTimer: at the front of a list. */
  method PushFront(head: Timer, timer: Timer, ghost heads: set<Timer>, ghost armed: set<Timer>)
    requires Linked(heads, armed) && head in heads && timer !in heads + armed
    modifies head`next, armed`prev, timer`prev, timer`next, timer`bucket, timer`rank
    ensures Linked(heads, armed + {timer}) && timer.bucket == head.bucket && head.next == timer
  {
    ghost var first := head.next;
    assert HeadOk(head, armed);
    timer.bucket := head.bucket;
    timer.rank := if head.next != null then head.next.rank + 1 else 0;
    timer.prev := head;
    timer.next := head.next;
    if head.next != null {
      head.next.prev := timer;
    }
    head.next := timer;
    forall h | h in heads ensures HeadOk(h, armed + {timer}) {
      assert old(HeadOk(h, armed));
    }
    forall x | x in armed + {timer} ensures NodeOk(x, heads, armed + {timer}) {
      if x != timer {
        assert old(NodeOk(x, heads, armed));
      }
    }
  }

  /** The pointers of KillTimer. */
  method Unlink(timer: Timer, ghost heads: set<Timer>, ghost armed: set<Timer>)
    requires Linked(heads, armed) && timer in armed
    modifies (heads + armed)`next, armed`prev
    ensures Linked(heads, armed - {timer}) && timer.prev == null && timer.next == null
  {
    assert NodeOk(timer, heads, armed);
    timer.prev.next := timer.next;
    if timer.next != null {
      assert old(NodeOk(timer.next, heads, armed));
      timer.next.prev := timer.prev;
      timer.next := null;
    }
    timer.prev := null;
    forall h | h in heads ensures HeadOk(h, armed - {timer}) {
      assert old(HeadOk(h, armed));
    }
    forall x | x in armed - {timer} ensures NodeOk(x, heads, armed - {timer}) {
      assert old(NodeOk(x, heads, armed));
    }
  }

  /** A call of OnTimer: when it was due, in the drain of which tick it came, and whether the timer goes on. */
  datatype Firing = Firing(timer: Timer, due: nat, tick: nat, interval: nat, again: bool)

  ghost predicate Early(f: Firing) { f.due > f.tick }

  /** The timer is put back into the bucket that is being drained. */
  ghost predicate ComesBack(f: Firing) { f.again && f.due + f.interval == f.tick + 256 }

  /** Call i is early if and only if it is the one right after a call whose timer came back, and of the same timer. */
  ghost predicate Explained(log: seq<Firing>, i: nat)
    requires i < |log|
  {
    && (Early(log[i]) <==> i > 0 && ComesBack(log[i - 1]))
    && (Early(log[i]) ==> i > 0 && log[i].timer == log[i - 1].timer && log[i].tick == log[i - 1].tick
                          && log[i].due == log[i].tick + 256 && !Early(log[i - 1]))
  }

  ghost predicate AllExplained(log: seq<Firing>) { forall i :: 0 <= i < |log| ==> Explained(log, i) }

  /** No timer is back in the bucket that is being drained. */
  ghost predicate Settled(log: seq<Firing>) { log == [] || !ComesBack(log[|log| - 1]) }

  /** Some call from k on is early if and only if a timer comes back then. */
  lemma EarlyIffBack(log: seq<Firing>, k: nat)
    requires AllExplained(log) && Settled(log) && k <= |log| && Settled(log[..k])
    ensures (exists i :: k <= i < |log| && Early(log[i])) <==> (exists j :: k <= j < |log| && ComesBack(log[j]))
  {
    if i :| k <= i < |log| && Early(log[i]) {
      assert Explained(log, i);
      assert log[..i] != [] && log[..i][i - 1] == log[i - 1];
    }
    if j :| k <= j < |log| && ComesBack(log[j]) {
      assert j + 1 < |log| && Explained(log, j + 1);
      assert log[j + 1 - 1] == log[j];
    }
  }

  class TimerManager {
    var lastCheckTime: nat
    /** The heads of all levels, and the same as a set. */
    const list: seq<Timer>
    ghost const heads: set<Timer>
    var freepool: set<Timer>
    ghost var armed: set<Timer>
    /** All timers there are, but for the heads. */
    ghost var timers: set<Timer>
    /** The calls of OnTimer. */
    ghost var fired: seq<Firing>

    ghost predicate Shaped()
      reads this, heads
    {
      && |list| == HEADS && heads == (set h | h in list) && heads !! timers && armed <= timers && freepool <= timers
      && freepool !! armed && forall k :: 0 <= k < HEADS ==> list[k].bucket == k
    }

    /** The time of an armed timer is not too far ahead for 32 bits, and if it is on the first level it is not before
        that time that its bucket is drained. */
    ghost predicate InTime(x: Timer)
      reads this`lastCheckTime, x
    {
      && x.triggerTime < lastCheckTime + HALF && x.interval < HALF - 256
      && (x.bucket < 256 ==> x.triggerTime <= DrainTick(lastCheckTime, x.bucket))
    }

    ghost predicate Valid()
      reads this, heads, timers
    {
      && Shaped() && Linked(heads, armed) && (forall x :: x in armed ==> InTime(x))
      && AllExplained(fired)
    }

    constructor (now: nat)
      ensures Valid() && lastCheckTime == now && armed == {} && freepool == {} && timers == {} && fired == []
      ensures fresh(heads)
    {
      var l: seq<Timer> := [];
      while |l| < HEADS
        invariant |l| <= HEADS && fresh(set h | h in l)
        invariant forall k :: 0 <= k < |l| ==> l[k].bucket == k && l[k].next == null && l[k].prev == null
      {
        var h := new Timer(0, 0, 0);
        h.bucket := |l|;
        l := l + [h];
      }
      list, heads := l, set h | h in l;
      lastCheckTime, freepool, armed, timers, fired := now, {}, {}, {}, [];
    }

    /** CreateTimer. */
    method CreateTimer() returns (timer: Timer)
      requires Valid()
      modifies this`freepool, this`timers
      ensures Valid() && armed == old(armed) && timer in timers && timer !in armed + freepool
      ensures if old(freepool) == {} then fresh(timer) && timers == old(timers) + {timer} && freepool == {}
              else timer in old(freepool) && timers == old(timers) && freepool == old(freepool) - {timer}
    {
      hide Linked;
      if freepool == {} {
        timer := new Timer(0, 0, -1);
        timers := timers + {timer};
      } else {
        timer :| timer in freepool;
        freepool := freepool - {timer};
      }
    }

    /** AddTimer. */
    method AddTimer(timer: Timer)
      requires Valid() && timer in timers && timer !in armed
      requires timer.triggerTime < lastCheckTime + HALF && timer.interval < HALF - 256
      modifies this`armed, this`freepool, heads`next, armed`prev, timer`next, timer`prev, timer`bucket, timer`rank
      ensures Valid() && armed == old(armed) + {timer} && freepool == old(freepool) - {timer}
      ensures timer.bucket == BucketOf(lastCheckTime, timer.triggerTime)
      ensures |list| == HEADS && list[timer.bucket].next == timer
    {
      hide Linked;
      var k := BucketOf(lastCheckTime, timer.triggerTime);
      if k < 256 {
        NotEarly(lastCheckTime, timer.triggerTime);
      }
      PushFront(list[k], timer, heads, armed);
      freepool := freepool - {timer};
      armed := armed + {timer};
    }

    /** ScheduleAt. A call is expected at the given time, or at once if that has passed: on the first two levels, and
        for a timer that is alone on any level. The calls expected of timers on the first two levels stay. */
    method ScheduleAt(timer: Timer, triggerTime: nat)
      requires Valid() && timer in timers && timer !in armed
      requires triggerTime < lastCheckTime + HALF && timer.interval < HALF - 256
      modifies this`armed, this`freepool, heads`next, armed`prev, timer`next, timer`prev, timer`bucket, timer`rank
      modifies timer`triggerTime
      ensures Valid() && armed == old(armed) + {timer} && freepool == old(freepool) - {timer}
      ensures timer.triggerTime == triggerTime && timer.bucket == BucketOf(lastCheckTime, triggerTime)
      ensures lastCheckTime < triggerTime + HALF && (triggerTime < lastCheckTime + 0x4000 || armed == {timer}) ==>
                && timer in Expected()
                && Expected()[timer] == Firing(timer, triggerTime, Later(triggerTime, lastCheckTime), timer.interval,
                                               timer.GoesOn())
      ensures forall x :: x in old(Expected()) && x.bucket < 320 && x != timer ==>
                x in Expected() && Expected()[x] == old(Expected())[x]
    {
      hide Valid, IsExpected, TickOf, BucketOf;
      SetTrigger(timer, triggerTime);
      ghost var expected, others := Expected(), armed;
      AddTimer(timer);
      if lastCheckTime < triggerTime + HALF && (triggerTime < lastCheckTime + 0x4000 || armed == {timer}) {
        PutIsExpected(lastCheckTime, triggerTime, armed == {timer});
      }
      forall x | x in expected && x.bucket < 320 && x != timer ensures x in Expected() && Expected()[x] == expected[x] {
        LowIsExpected(lastCheckTime, x.triggerTime, x.bucket, others == {x}, armed == {x});
      }
    }

    method SetTrigger(timer: Timer, triggerTime: nat)
      requires Valid() && timer in timers && timer !in armed
      modifies timer`triggerTime
      ensures Valid() && timer.triggerTime == triggerTime && Expected() == old(Expected())
    {
      hide Linked, IsExpected, TickOf;
      ghost var expected := Expected();
      timer.triggerTime := triggerTime;
      assert Expected() == expected;
    }

    /** KillTimer; a timer that is not armed stays as it is. */
    method KillTimer(timer: Timer)
      requires Valid() && timer in timers && (timer !in armed ==> timer.prev == null)
      modifies this`armed, (heads + armed)`next, armed`prev
      ensures Valid() && armed == old(armed) - {timer}
      ensures timer in old(armed) ==> timer.prev == null && timer.next == null
    {
      if timer.prev != null {
        Unlink(timer, heads, armed);
        armed := armed - {timer};
      }
    }

    /** _Cacsade: the timers of a bucket of a higher level are put in again, each where it belongs now. */
    method Cascade(base: nat, index: int) returns (r: bool)
      requires Valid() && base + 64 <= |list|
      modifies this`armed, this`freepool, (heads + timers)`next, timers`prev, timers`bucket, timers`rank
      ensures Valid() && armed == old(armed) && freepool == old(freepool)
      ensures r == (0 <= index < 64 && old(list[base + index].next) != null)
      ensures forall x :: x in armed ==>
                x.bucket == if r && old(x.bucket) == base + index then BucketOf(lastCheckTime, x.triggerTime)
                            else old(x.bucket)
    {
      hide Linked, Hanging, InTime, Shaped, BucketOf;
      if index < 0 || index >= 64 { return false; }
      HeadCount();
      var head := list[base + index];
      if head.next == null { return false; }
      ghost var moving := set x | x in armed && x.bucket == base + index;
      var first := Detach(head, moving);
      PutAllAgain(first, moving);
      return true;
    }

    method Detach(head: Timer, ghost moving: set<Timer>) returns (first: Timer?)
      requires Valid() && head in heads && head.next != null && moving == set x | x in armed && x.bucket == head.bucket
      modifies heads`next, this`armed
      ensures Valid() && armed == old(armed) - moving && armed + moving == old(armed)
      ensures Hanging(first, moving) && Loose(moving) && AllSoon(moving)
    {
      hide Linked, Hanging;
      HeadCount();
      first := TakeOff(head, heads, armed, moving);
      armed := armed - moving;
    }

    lemma HeadCount()
      requires Valid()
      ensures |list| == HEADS && forall k :: 0 <= k < HEADS ==> list[k] in heads && list[k].bucket == k
      ensures forall h, g :: h in heads && g in heads && h != g ==> h.bucket != g.bucket
    {
      forall h, g | h in heads && g in heads && h != g ensures h.bucket != g.bucket {
        var i, j :| 0 <= i < HEADS && 0 <= j < HEADS && list[i] == h && list[j] == g;
      }
    }

    /** The loop of _Cacsade. */
    method PutAllAgain(first: Timer?, ghost all: set<Timer>)
      requires Valid() && Hanging(first, all) && Loose(all) && AllSoon(all)
      modifies this`armed, this`freepool, (heads + timers)`next, timers`prev, timers`bucket, timers`rank
      ensures Valid() && armed == old(armed) + all && freepool == old(freepool)
      ensures forall x :: x in all ==> x.bucket == BucketOf(lastCheckTime, x.triggerTime)
      ensures forall x :: x in old(armed) ==> x.bucket == old(x.bucket)
    {
      hide Valid, Hanging, AllSoon, Loose, BucketOf;
      AllTimers(all);
      var tmp := first;
      ghost var moving := all;
      while tmp != null
        invariant Valid() && Hanging(tmp, moving) && Loose(moving) && AllSoon(moving)
        invariant armed + moving == old(armed) + all <= timers && freepool == old(freepool) && moving <= all
        invariant forall x :: x in all - moving ==> x.bucket == BucketOf(lastCheckTime, x.triggerTime)
        invariant forall x :: x in old(armed) ==> x.bucket == old(x.bucket)
        decreases |moving|
      {
        var timer: Timer := tmp;
        InMoving(timer, moving);
        OneLess(moving, timer);
        tmp := PutAgain(timer, moving);
        moving := moving - {timer};
      }
      NothingHangs(moving);
    }

    lemma AllTimers(all: set<Timer>)
      requires Valid() && Loose(all)
      ensures armed + all <= timers && armed !! all
    {
    }

    /** Timers that are on no list. */
    ghost predicate Loose(moving: set<Timer>)
      reads this
    {
      AreLoose(moving, timers, heads + armed + freepool)
    }

    ghost predicate AllSoon(moving: set<Timer>)
      reads this`lastCheckTime, moving
    {
      forall x :: x in moving ==> x.triggerTime < lastCheckTime + HALF && x.interval < HALF - 256
    }

    /** The next of the loose timers. */
    method PutAgain(timer: Timer, ghost moving: set<Timer>) returns (next: Timer?)
      requires Valid() && Hanging(timer, moving) && Loose(moving) && AllSoon(moving) && timer in moving
      modifies this`armed, this`freepool, heads`next, armed`prev, timer`next, timer`prev, timer`bucket, timer`rank
      ensures Valid() && Hanging(next, moving - {timer}) && armed == old(armed) + {timer} && freepool == old(freepool)
      ensures AllSoon(moving - {timer}) && Loose(moving - {timer})
      ensures timer.bucket == BucketOf(lastCheckTime, timer.triggerTime)
    {
      hide Linked, Shaped, InTime, Valid, BucketOf, AreLoose, Hanging;
      LooseRest(moving, timers, heads + armed + freepool, timer);
      next := timer.next;
      RestHangs(timer, moving);
      Clear(timer);
      AddTimer(timer);
      assert heads + armed + freepool == old(heads + armed + freepool) + {timer};
    }

    method Clear(timer: Timer)
      requires Valid() && timer in timers && timer !in armed
      modifies timer`next, timer`prev
      ensures Valid() && timer.next == null && timer.prev == null
    {
      hide Linked;
      timer.next := null;
      timer.prev := null;
    }

    /** No armed timer is overdue by more than 32 bits can tell. */
    ghost predicate NotFar(now: nat)
      reads this`armed, armed
    {
      forall x :: x in armed ==> x.triggerTime + HALF > now
    }

    /** While the bucket of tick t is drained: what is in it is due, but for a timer that has just come back, which is
        the first. */
    ghost predicate Draining(index: nat, t: nat)
      requires |list| == HEADS && index < HEADS
      reads this`armed, this`fired, armed, list[index]
    {
      && (forall x :: x in armed && x.bucket == index && x.triggerTime > t ==> IsBack(x, t))
      && (!Settled(fired) ==> var x := fired[|fired| - 1].timer; x in armed && IsBack(x, t) && list[index].next == x)
    }

    /** The timer of the last call has come back. */
    ghost predicate IsBack(x: Timer, t: nat)
      reads this`fired, x`triggerTime, x`interval
    {
      fired != [] && var f := fired[|fired| - 1];
      && ComesBack(f) && f.timer == x && f.tick == t && f.due <= t
      && x.triggerTime == t + 256 && x.interval == f.interval
    }

    ghost function Due(index: nat, t: nat): set<Timer>
      reads this`armed, armed
    {
      set x | x in armed && x.bucket == index && x.triggerTime <= t
    }

    ghost function DueAgain(index: nat, t: nat): set<Timer>
      reads this`armed, armed
    {
      set x | x in armed && x.bucket == index && x.triggerTime > t
    }

    lemma FirstIsArmed(k: nat)
      requires Valid() && k < HEADS && list[k].next != null
      ensures list[k].next in armed && list[k].next.bucket == k && InTime(list[k].next)
      ensures armed <= timers && freepool !! armed && freepool <= timers && list[k] in heads
    {
      assert HeadOk(list[k], armed);
      assert NodeOk(list[k].next, heads, armed);
    }

    /** A timer that has been taken off its list fires, and is put in again or into the pool. It comes back to the
        bucket being drained if and only if it is due again 256 ticks on. */
    method Fire(timer: Timer, index: nat, t: nat)
      requires Valid() && timer in timers && timer !in armed + freepool && lastCheckTime == t + 1 && index == t % 256
      requires if Settled(fired) then timer.triggerTime <= t else IsBack(timer, t)
      requires timer.triggerTime + HALF > t + 1 && timer.interval < HALF - 256
      modifies this`armed, this`freepool, this`fired, heads`next, armed`prev
      modifies timer`next, timer`prev, timer`bucket, timer`rank, timer`triggerTime, timer`count
      ensures Valid() && if old(timer.GoesOn()) then armed == old(armed) + {timer} && freepool == old(freepool)
                         else armed == old(armed) && freepool == old(freepool) + {timer}
      ensures fired == old(fired) + [Firing(timer, old(timer.triggerTime), t, timer.interval, old(timer.GoesOn()))]
      ensures timer.triggerTime == old(timer.triggerTime) + if old(timer.GoesOn()) then timer.interval else 0
      ensures timer in armed ==> (timer.bucket == index <==> ComesBack(fired[|fired| - 1]))
      ensures timer in armed ==> |list| == HEADS && timer.bucket < HEADS && list[timer.bucket].next == timer
    {
      hide Linked, BucketOf;
      ghost var log := fired;
      var again := timer.OnTimer(this, t);
      LogExplained(log, fired[|log|]);
      if again {
        InBucketAgain(t, timer.triggerTime);
        AddTimer(timer);
      } else {
        freepool := freepool + {timer};
      }
    }

    /** The first timer of the bucket fires. */
    method FireFirst(index: nat, t: nat, ghost far: nat, ghost start: Start)
      requires |list| == HEADS && index == t % 256 && lastCheckTime == t + 1 <= far && list[index].next != null
      requires Valid() && Draining(index, t) && NotFar(far) && OnCourse(start, index, t) && start.clock <= t
      modifies this`armed, this`freepool, this`fired, heads`next, timers`next, timers`prev, timers`bucket, timers`rank,
        timers`triggerTime, timers`count
      ensures Valid() && Draining(index, t) && NotFar(far) && OnCourse(start, index, t)
      ensures armed + freepool == old(armed + freepool)
      ensures Others(old(Places()), Places(), index) && OnlyCalls(old(Places()), index, old(fired), fired)
      ensures (Due(index, t) < old(Due(index, t)))
              || (Due(index, t) == old(Due(index, t)) && DueAgain(index, t) < old(DueAgain(index, t)))
    {
      hide Linked, Shaped, OnCourse, Others, OnlyCalls, Places;
      HeadCount();
      FirstIsArmed(index);
      var timer: Timer := list[index].next;
      ghost var due, again := Due(index, t), DueAgain(index, t);
      assert Settled(fired) || IsBack(timer, t);
      RefireAlone(timer, index, t, start);
      assert Due(index, t) == due - {timer};
      if timer !in due {
        assert timer in again && DueAgain(index, t) == again - {timer};
        assert due - {timer} == due;
      }
    }

    lemma OnlyArmed(a: Timer)
      requires Valid() && armed + freepool == {a} && a in armed
      ensures armed == {a} && freepool == {}
    {
      assert forall x :: x in freepool ==> x in armed + freepool;
    }

    lemma ArmedAreTimers()
      requires Valid()
      ensures armed <= timers && heads !! timers
    {
    }

    lemma ArmedIs(timer: Timer)
      requires Valid() && timer in armed
      ensures timer.interval < HALF - 256 && timer in timers && timer !in freepool && armed <= timers
    {
      assert InTime(timer);
    }

    /** An armed timer is taken off its list and fires. */
    method Refire(timer: Timer, index: nat, t: nat, ghost start: Start)
      requires Valid() && timer in armed && timer.bucket == index == t % 256 && lastCheckTime == t + 1
      requires if Settled(fired) then timer.triggerTime <= t else IsBack(timer, t)
      requires timer.triggerTime + HALF > t + 1 && OnCourse(start, index, t) && start.clock <= t
      modifies this`armed, this`freepool, this`fired, heads`next, timers`next, timers`prev, timers`bucket, timers`rank,
        timers`triggerTime, timers`count
      ensures Valid() && OnCourse(start, index, t)
      ensures armed == if old(timer.GoesOn()) then old(armed) else old(armed) - {timer}
      ensures freepool == if old(timer.GoesOn()) then old(freepool) else old(freepool) + {timer}
      ensures fired == old(fired) + [Firing(timer, old(timer.triggerTime), t, timer.interval, old(timer.GoesOn()))]
      ensures timer.triggerTime == old(timer.triggerTime) + if old(timer.GoesOn()) then timer.interval else 0
      ensures timer in armed ==> (timer.bucket == index <==> ComesBack(fired[|fired| - 1]))
      ensures timer in armed ==> |list| == HEADS && timer.bucket < HEADS && list[timer.bucket].next == timer
      ensures forall x :: x in armed && x != timer ==> x.bucket == old(x.bucket) && x.triggerTime == old(x.triggerTime)
    {
      hide Linked, Course, DrainTick, BucketOf, Valid, ComesBack, Settled, IsBack, Waiting, AllBelong, OnTurn;
      ArmedIs(timer);
      DrainedNow(timer, t);
      ghost var log, awaited := fired, Awaited(index, t);
      KillTimer(timer);
      Fire(timer, index, t);
      ghost var later := Awaited(index, t);
      forall x | x in awaited && x != timer ensures x in later && later[x] == awaited[x] {
        assert x in armed;
        assert later[x] == Waiting(x, lastCheckTime, index, t);
      }
      StillOnCourse(start, log, awaited, timer, later);
      NowBelongs(log, |start.log|, start.clock, fired[|log|]);
    }

    /** No other timer is moved by that. */
    method RefireAlone(timer: Timer, index: nat, t: nat, ghost start: Start)
      requires Valid() && timer in armed && timer.bucket == index == t % 256 && lastCheckTime == t + 1
      requires if Settled(fired) then timer.triggerTime <= t else IsBack(timer, t)
      requires timer.triggerTime + HALF > t + 1 && OnCourse(start, index, t) && start.clock <= t
      modifies this`armed, this`freepool, this`fired, heads`next, timers`next, timers`prev, timers`bucket, timers`rank,
        timers`triggerTime, timers`count
      ensures Valid() && OnCourse(start, index, t)
      ensures Others(old(Places()), Places(), index) && OnlyCalls(old(Places()), index, old(fired), fired)
      ensures armed == if old(timer.GoesOn()) then old(armed) else old(armed) - {timer}
      ensures freepool == if old(timer.GoesOn()) then old(freepool) else old(freepool) + {timer}
      ensures fired == old(fired) + [Firing(timer, old(timer.triggerTime), t, timer.interval, old(timer.GoesOn()))]
      ensures timer.triggerTime == old(timer.triggerTime) + if old(timer.GoesOn()) then timer.interval else 0
      ensures timer in armed ==> (timer.bucket == index <==> ComesBack(fired[|fired| - 1]))
      ensures timer in armed ==> |list| == HEADS && timer.bucket < HEADS && list[timer.bucket].next == timer
      ensures forall x :: x in armed && x != timer ==> x.bucket == old(x.bucket) && x.triggerTime == old(x.triggerTime)
    {
      hide Valid, OnCourse, Settled, IsBack, ComesBack, Others, OnlyCalls;
      ghost var was, log := Places(), fired;
      Refire(timer, index, t, start);
      OneFired(was, Places(), timer, index, log, fired);
    }

    /** The inner loop of UpdateTimers: drains the bucket of tick t. */
    method Drain(index: nat, t: nat, ghost far: nat, ghost start: Start)
      requires |list| == HEADS && index == t % 256 && lastCheckTime == t + 1 <= far
      requires Valid() && Draining(index, t) && NotFar(far) && OnCourse(start, index, t) && start.clock <= t
      modifies this`armed, this`freepool, this`fired, heads`next, timers`next, timers`prev, timers`bucket, timers`rank,
        timers`triggerTime, timers`count
      ensures Valid() && Settled(fired) && NotFar(far) && OnCourse(start, -1, 0)
      ensures armed + freepool == old(armed + freepool)
      ensures Others(old(Places()), Places(), index) && OnlyCalls(old(Places()), index, old(fired), fired)
      ensures forall x :: x in armed ==> x.bucket != index
    {
      hide Linked, Draining, NotFar, Due, DueAgain, OnCourse, Others, OnlyCalls;
      HeadCount();
      ghost var was, log := Places(), fired;
      NothingMoved(was, index, log);
      while list[index].next != null
        invariant Valid() && Draining(index, t) && NotFar(far) && OnCourse(start, index, t)
        invariant armed + freepool == old(armed + freepool)
        invariant Others(was, Places(), index) && OnlyCalls(was, index, log, fired)
        decreases Due(index, t), DueAgain(index, t)
      {
        hide Valid;
        ghost var before, called := Places(), fired;
        FireFirst(index, t, far, start);
        MovedOn(was, before, Places(), index, log, called, fired);
      }
      EmptyBucket(index);
      NobodyBack(index, t, start);
    }

    lemma NobodyBack(index: nat, t: nat, start: Start)
      requires |list| == HEADS && index < HEADS && list[index].next == null && Draining(index, t)
      requires OnCourse(start, index, t) && forall x :: x in armed ==> x.bucket != index
      ensures Settled(fired) && OnCourse(start, -1, 0)
    {
    }

    lemma EmptyBucket(k: nat)
      requires Valid() && k < HEADS && list[k].next == null
      ensures forall x :: x in armed ==> x.bucket != k
    {
      HeadCount();
      var there := set x | x in armed && x.bucket == k;
      if there != {} {
        var m := HighestRank(there);
        BehindHead(k, m);
      }
      assert forall x :: x in armed && x.bucket == k ==> x in there;
    }

    lemma BehindHead(k: nat, m: Timer)
      requires Valid() && k < HEADS && m in armed && m.bucket == k
      requires forall x :: x in armed && x.bucket == k ==> x.rank <= m.rank
      ensures list[k].next == m
    {
      HeadCount();
      assert NodeOk(m, heads, armed);
      assert m.prev in heads;
      assert m.prev == list[k];
    }

    /** UpdateTimers: tick by tick up to now. The log grows by calls at the ticks passed; the first of them for every
        timer on the first level comes when its bucket is drained. A call is early if and only if the one before it was
        of the same timer, and that timer was due again 256 ticks on. */
    method UpdateTimers(now: nat) returns (updated: bool)
      requires Valid() && Settled(fired) && NotFar(now + 1)
      modifies this`lastCheckTime, this`armed, this`freepool, this`fired, heads`next
      modifies timers`next, timers`prev, timers`bucket, timers`rank, timers`triggerTime, timers`count
      ensures Valid() && armed + freepool == old(armed + freepool)
      ensures updated == (old(lastCheckTime) <= now)
      ensures lastCheckTime == if updated then now + 1 else old(lastCheckTime)
      ensures old(fired) <= fired && AllExplained(fired) && Settled(fired)
      ensures forall i :: |old(fired)| <= i < |fired| ==> Belongs(fired[i], old(lastCheckTime))
      ensures forall x :: x in old(Expected()) && old(Expected())[x].tick <= now ==>
                old(Expected())[x] in fired[|old(fired)|..]
      ensures forall x :: x in old(Expected()) && old(Expected())[x].tick > now ==>
                x in Expected() && Expected()[x] == old(Expected())[x]
      ensures Undisturbed(old(Places()), old(lastCheckTime), Places(), lastCheckTime, old(fired), fired)
      ensures now == old(lastCheckTime) ==> TickMoves(old(Places()), Places(), now, old(fired), fired)
      ensures (exists i :: |old(fired)| <= i < |fired| && Early(fired[i]))
              <==> (exists j :: |old(fired)| <= j < |fired| && ComesBack(fired[j]))
      ensures (forall x :: x in timers ==> x.interval < 256) ==>
                forall i :: |old(fired)| <= i < |fired| ==> fired[i].due <= fired[i].tick
    {
      hide Linked, Draining, Due, DueAgain, InTime, Shaped, Valid, OnCourse, Undisturbed, TickMoves, Places;
      updated := lastCheckTime <= now;
      ghost var start := Start(fired, lastCheckTime, Expected());
      Starting(start);
      ghost var places := Places();
      NothingDisturbed(places, lastCheckTime, fired);
      while lastCheckTime <= now
        invariant Valid() && Settled(fired) && NotFar(now + 1) && armed + freepool == old(armed + freepool)
        invariant lastCheckTime == old(lastCheckTime) || old(lastCheckTime) < lastCheckTime <= now + 1
        invariant OnCourse(start, -1, 0)
        invariant Undisturbed(places, start.clock, Places(), lastCheckTime, start.log, fired)
        invariant lastCheckTime == start.clock ==> places == Places() && fired == start.log
        invariant lastCheckTime == start.clock + 1 ==> TickMoves(places, Places(), start.clock, start.log, fired)
        decreases now + 1 - lastCheckTime
      {
        ghost var before, called := Places(), fired;
        OneTick(now + 1, start);
        TickDisturbs(places, start.clock, before, Places(), lastCheckTime - 1, start.log, called, fired);
      }
      Ending(start);
    }

    /** One turn of the loop of UpdateTimers. */
    method OneTick(ghost far: nat, ghost start: Start)
      requires Valid() && Settled(fired) && NotFar(far) && OnCourse(start, -1, 0) && start.clock <= lastCheckTime < far
      modifies this`lastCheckTime, this`armed, this`freepool, this`fired, heads`next
      modifies timers`next, timers`prev, timers`bucket, timers`rank, timers`triggerTime, timers`count
      ensures Valid() && Settled(fired) && NotFar(far) && OnCourse(start, -1, 0)
      ensures armed + freepool == old(armed + freepool) && lastCheckTime == old(lastCheckTime) + 1
      ensures TickMoves(old(Places()), Places(), old(lastCheckTime), old(fired), fired)
    {
      hide Linked, Draining, Due, DueAgain, InTime, Shaped, Valid, OnCourse, NoTurns, TickMoves, Others, OnlyCalls;
      hide BucketOf, Cascaded;
      ghost var was, log, clock := Places(), fired, lastCheckTime;
      var index := lastCheckTime % 256;
      if index == 0 {
        CascadeLevels(start);
      } else {
        NoMultiple();
      }
      ghost var mid := Places();
      assert forall x :: x in was ==> x in mid && mid[x] == After(was, clock, x);
      assert was.Keys == mid.Keys == armed;
      HeadCount();
      Tick(index, start);
      assert Places() == mid;
      Drain(index, lastCheckTime - 1, far, start);
      TickIs(was, mid, Places(), clock, log, fired);
    }

    lemma Starting(start: Start)
      requires start == Start(fired, lastCheckTime, Expected())
      ensures OnCourse(start, -1, 0)
    {
    }

    lemma Ending(start: Start)
      requires Valid() && Settled(fired) && OnCourse(start, -1, 0) && Settled(start.log)
      ensures start.log <= fired && AllExplained(fired)
      ensures forall i :: |start.log| <= i < |fired| ==> Belongs(fired[i], start.clock)
      ensures forall x :: x in start.expected ==>
                if start.expected[x].tick < lastCheckTime then start.expected[x] in fired[|start.log|..]
                else x in Expected() && Expected()[x] == start.expected[x]
      ensures (exists i :: |start.log| <= i < |fired| && Early(fired[i]))
              <==> (exists j :: |start.log| <= j < |fired| && ComesBack(fired[j]))
      ensures (forall x :: x in timers ==> x.interval < 256) ==>
                forall i :: |start.log| <= i < |fired| ==> fired[i].due <= fired[i].tick
    {
      hide Linked, Shaped, InTime, IsExpected, TickOf;
      assert fired[..|start.log|] == start.log;
      EarlyIffBack(fired, |start.log|);
      if forall x :: x in timers ==> x.interval < 256 {
        NoneEarly(start);
      }
      forall x | x in start.expected
        ensures if start.expected[x].tick < lastCheckTime then start.expected[x] in fired[|start.log|..]
                else x in Expected() && Expected()[x] == start.expected[x]
      {
        if x in Expected() {
          NotYetCalled(lastCheckTime, x.triggerTime, x.bucket, armed == {x});
        }
        var f := start.expected[x];
        if f in fired[|start.log|..] {
          var i :| |start.log| <= i < |fired| && fired[i] == f;
          assert Belongs(fired[i], start.clock);
        }
      }
    }

    /** When all intervals are short no timer comes back to the bucket being drained. */
    lemma NoneEarly(start: Start)
      requires AllExplained(fired) && OnCourse(start, -1, 0) && Settled(start.log)
      requires forall x :: x in timers ==> x.interval < 256
      ensures forall i :: |start.log| <= i < |fired| ==> fired[i].due <= fired[i].tick
    {
      assert fired[..|start.log|] == start.log;
      forall i | |start.log| <= i < |fired| ensures fired[i].due <= fired[i].tick {
        assert Explained(fired, i) && Belongs(fired[i], start.clock);
        if i > |start.log| {
          assert Belongs(fired[i - 1], start.clock) && Explained(fired, i - 1);
        } else if i > 0 {
          assert start.log[i - 1] == fired[i - 1];
        }
      }
    }

    /** A level is cascaded only when the one below had nothing to cascade. Then the timers of its bucket are put in
        again, and nothing else is moved. */
    method CascadeLevels(ghost start: Start)
      requires Valid() && OnCourse(start, -1, 0) && lastCheckTime % 256 == 0
      modifies this`armed, this`freepool, (heads + timers)`next, timers`prev, timers`bucket, timers`rank
      ensures Valid() && armed == old(armed) && freepool == old(freepool) && OnCourse(start, -1, 0) && NoTurns()
      ensures forall x :: x in armed ==>
                x.bucket == if old(x.bucket) == Cascaded(old(Places()), lastCheckTime)
                            then BucketOf(lastCheckTime, x.triggerTime) else old(x.bucket)
    {
      hide Valid, BucketOf, AllBelong, Course, NoTurns, IsExpected, TickOf, Cascaded;
      ghost var awaited, was := Awaited(-1, 0), Places();
      CascadeFirst();
      StillAwaited(start, awaited, was, Cascaded(was, lastCheckTime));
    }

    /** The condition of UpdateTimers: one level after the other until one is cascaded. */
    method CascadeFirst()
      requires Valid()
      modifies this`armed, this`freepool, (heads + timers)`next, timers`prev, timers`bucket, timers`rank
      ensures Valid() && armed == old(armed) && freepool == old(freepool)
      ensures forall x :: x in armed ==>
                x.bucket == if old(x.bucket) == Cascaded(old(Places()), lastCheckTime)
                            then BucketOf(lastCheckTime, x.triggerTime) else old(x.bucket)
    {
      hide Valid, BucketOf, IndexOf;
      HeadCount();
      ghost var was := Places();
      var moved := CascadeOne(256, Index(0), was);
      if !moved { moved := CascadeOne(320, Index(1), was); }
      if !moved { moved := CascadeOne(384, Index(2), was); }
      if !moved { moved := CascadeOne(448, Index(3), was); }
      assert Moved(was, Cascaded(was, lastCheckTime));
    }

    /** The timers of bucket k have been put in again, and nothing else has moved. */
    ghost predicate Moved(was: map<Timer, Place>, k: nat)
      requires armed <= was.Keys
      reads this, armed
    {
      forall x :: x in armed ==>
        x.bucket == if was[x].bucket == k then BucketOf(lastCheckTime, x.triggerTime) else was[x].bucket
    }

    /** One level. */
    method CascadeOne(base: nat, index: nat, ghost was: map<Timer, Place>) returns (r: bool)
      requires Valid() && 256 <= base && base + 64 <= |list| && index < 64 && was == Places()
      modifies this`armed, this`freepool, (heads + timers)`next, timers`prev, timers`bucket, timers`rank
      ensures Valid() && armed == old(armed) && freepool == old(freepool)
      ensures r == !IsEmpty(was, base + index)
      ensures Moved(was, base + index) && (!r ==> Places() == was)
    {
      hide Valid, BucketOf;
      HeadCount();
      if list[base + index].next == null {
        EmptyBucket(base + index);
      } else {
        FirstIsArmed(base + index);
        assert list[base + index].next in was;
      }
      r := Cascade(base, index);
    }

    /** Where all armed timers are. */
    ghost function Places(): map<Timer, Place>
      reads this`armed, armed
    {
      map x | x in armed :: Place(x.bucket, x.triggerTime)
    }

    /** Who was expected before the cascade of bucket k is so afterwards, and nobody has missed its turn. */
    lemma StillAwaited(start: Start, awaited: map<Timer, Firing>, was: map<Timer, Place>, k: nat)
      requires Valid() && was.Keys == armed && k == Cascaded(was, lastCheckTime) && lastCheckTime % 256 == 0
      requires forall x :: x in armed ==>
                 x.bucket == if was[x].bucket == k then BucketOf(lastCheckTime, x.triggerTime) else was[x].bucket
      requires forall x :: x in awaited ==>
                 && x in armed && IsExpected(lastCheckTime, x.triggerTime, was[x].bucket, armed == {x})
                 && awaited[x] == Firing(x, x.triggerTime, TickOf(lastCheckTime, x.triggerTime, was[x].bucket, -1, 0),
                                         x.interval, x.GoesOn())
      requires AllBelong(fired, |start.log|, start.clock) && Course(start, fired, awaited)
      ensures OnCourse(start, -1, 0) && NoTurns()
    {
      hide Linked, Shaped, AllExplained, BucketOf, AllBelong, Course, IsExpected, TickOf, Cascaded, HasTurn;
      forall x | x in armed
        ensures x in awaited ==> Awaits(x) && Waiting(x, lastCheckTime, -1, 0) == awaited[x]
        ensures Awaits(x) ==> !HasTurn(lastCheckTime, x.triggerTime, x.bucket)
      {
        assert InTime(x);
        OneCascaded(was, lastCheckTime, x, x.triggerTime, armed == {x});
      }
      MoreAwaited(start, fired, awaited, Awaited(-1, 0));
    }

    function Index(level: nat): (i: nat)
      requires level < 4
      reads this`lastCheckTime
    {
      IndexOf(lastCheckTime, level)
    }

    /** The clock moves on by one. */
    method Tick(index: nat, ghost start: Start)
      requires Valid() && index == lastCheckTime % 256 && Settled(fired) && OnCourse(start, -1, 0) && |list| == HEADS
      requires NoTurns()
      modifies this`lastCheckTime
      ensures Valid() && lastCheckTime == old(lastCheckTime) + 1 && Draining(index, old(lastCheckTime))
      ensures OnCourse(start, index, old(lastCheckTime))
    {
      hide Linked, Course, DrainTick, ComesBack, TickOf, IsExpected, HasTurn;
      DrainTickStep(lastCheckTime, index);
      forall x | x in armed && x.bucket < 256
        ensures DrainTick(lastCheckTime, x.bucket) <= DrainTick(lastCheckTime + 1, x.bucket)
        ensures x.bucket == index ==> x.triggerTime <= lastCheckTime
      {
        assert InTime(x);
        DrainTickStep(lastCheckTime, x.bucket);
      }
      ghost var awaited := Awaited(-1, 0);
      lastCheckTime := lastCheckTime + 1;
      AfterTick(start, awaited, index);
    }

    /** Who was expected before the clock moved on is so afterwards. */
    lemma AfterTick(start: Start, awaited: map<Timer, Firing>, index: nat)
      requires lastCheckTime > 0 && index == (lastCheckTime - 1) % 256
      requires forall x :: x in awaited ==>
                 && x in armed && IsExpected(lastCheckTime - 1, x.triggerTime, x.bucket, armed == {x})
                 && !HasTurn(lastCheckTime - 1, x.triggerTime, x.bucket)
                 && awaited[x] == Firing(x, x.triggerTime, TickOf(lastCheckTime - 1, x.triggerTime, x.bucket, -1, 0),
                                         x.interval, x.GoesOn())
      requires Course(start, fired, awaited)
      ensures Course(start, fired, Awaited(index, lastCheckTime - 1))
    {
      hide Course, IsExpected, HasTurn, TickOf;
      var later := Awaited(index, lastCheckTime - 1);
      forall x | x in awaited ensures x in later && later[x] == awaited[x] {
        StillOnTurn(lastCheckTime - 1, x.triggerTime, x.bucket, armed == {x});
      }
      MoreAwaited(start, fired, awaited, later);
    }

    /** No timer that is expected has its turn right now. */
    ghost predicate NoTurns()
      reads this`lastCheckTime, this`armed, armed
    {
      forall x :: x in armed && Awaits(x) ==> !HasTurn(lastCheckTime, x.triggerTime, x.bucket)
    }

    lemma NoMultiple()
      requires lastCheckTime % 256 != 0
      ensures NoTurns()
    {
      hide OnTurn, Turn;
      forall x | x in armed && Awaits(x) ensures !HasTurn(lastCheckTime, x.triggerTime, x.bucket) {
        if HasTurn(lastCheckTime, x.triggerTime, x.bucket) {
          PointedAt(lastCheckTime, x.triggerTime, x.bucket);
        }
      }
    }

    // ----- the calls of OnTimer that are expected -----

    /** The call expected of a timer; tick t of bucket index is being drained. */
    ghost function Waiting(x: Timer, clock: nat, index: int, t: nat): Firing
      reads x`triggerTime, x`bucket, x`interval, x`count, x`hasFunc
    {
      Firing(x, x.triggerTime, TickOf(clock, x.triggerTime, x.bucket, index, t), x.interval, x.GoesOn())
    }

    ghost predicate Awaits(x: Timer)
      reads this`lastCheckTime, this`armed, x`triggerTime, x`bucket
    {
      IsExpected(lastCheckTime, x.triggerTime, x.bucket, armed == {x})
    }

    ghost function Awaited(index: int, t: nat): map<Timer, Firing>
      reads this, armed
    {
      map x | x in armed && Awaits(x) :: Waiting(x, lastCheckTime, index, t)
    }

    lemma DrainedNow(x: Timer, t: nat)
      requires x.bucket < 256
      ensures Waiting(x, lastCheckTime, x.bucket, t) == Firing(x, x.triggerTime, t, x.interval, x.GoesOn())
    {
    }

    ghost function Expected(): map<Timer, Firing>
      reads this, armed
    {
      Awaited(-1, 0)
    }

    /** Since the start only calls of timers at the ticks passed since then have been added to the log, and those
        expected then have come or are still expected. */
    ghost predicate OnCourse(start: Start, index: int, t: nat)
      reads this, timers, armed
    {
      && AllBelong(fired, |start.log|, start.clock)
      && Course(start, fired, Awaited(index, t))
    }

    /** All calls in a log from one on are of timers of this manager, at ticks passed since the clock stood there. */
    ghost predicate AllBelong(log: seq<Firing>, from: nat, clock: nat)
      reads this`timers, this`lastCheckTime, timers`interval
    {
      forall i :: from <= i < |log| ==> Belongs(log[i], clock)
    }

    lemma NowBelongs(log: seq<Firing>, from: nat, clock: nat, f: Firing)
      requires AllBelong(log, from, clock)
      requires f.timer in timers && f.interval == f.timer.interval && clock <= f.tick < lastCheckTime
      ensures AllBelong(log + [f], from, clock)
    {
    }

    ghost predicate Belongs(f: Firing, clock: nat)
      reads this`timers, this`lastCheckTime, timers`interval
    {
      f.timer in timers && f.interval == f.timer.interval && clock <= f.tick < lastCheckTime
    }
  }

  /** The timers of the other buckets are where they were, and whoever is in this one was. */
  ghost predicate Others(was: map<Timer, Place>, places: map<Timer, Place>, index: nat) {
    && (forall x :: x in was && was[x].bucket != index ==> x in places && places[x] == was[x])
    && (forall x :: x in places && places[x].bucket == index ==> x in was && was[x].bucket == index)
  }

  /** Only timers of this bucket have been called. */
  ghost predicate OnlyCalls(was: map<Timer, Place>, index: nat, log: seq<Firing>, fired: seq<Firing>) {
    log <= fired && forall i :: |log| <= i < |fired| ==> fired[i].timer in was && was[fired[i].timer].bucket == index
  }

  lemma NothingMoved(was: map<Timer, Place>, index: nat, log: seq<Firing>)
    ensures Others(was, was, index) && OnlyCalls(was, index, log, log)
  {
  }

  lemma OneFired(was: map<Timer, Place>, places: map<Timer, Place>, timer: Timer, index: nat, log: seq<Firing>,
                 fired: seq<Firing>)
    requires timer in was && was[timer].bucket == index && log <= fired && |fired| == |log| + 1
    requires fired[|log|].timer == timer
    requires (forall x :: x in was && x != timer ==> x in places && places[x] == was[x]) && places.Keys <= was.Keys
    ensures Others(was, places, index) && OnlyCalls(was, index, log, fired)
  {
    forall x | x in places && places[x].bucket == index ensures x in was && was[x].bucket == index {
      assert x in places.Keys;
    }
  }

  lemma MovedOn(was: map<Timer, Place>, before: map<Timer, Place>, places: map<Timer, Place>, index: nat,
                log: seq<Firing>, called: seq<Firing>, fired: seq<Firing>)
    requires Others(was, before, index) && OnlyCalls(was, index, log, called)
    requires Others(before, places, index) && OnlyCalls(before, index, called, fired)
    ensures Others(was, places, index) && OnlyCalls(was, index, log, fired)
  {
    forall i | |log| <= i < |fired| ensures fired[i].timer in was && was[fired[i].timer].bucket == index {
      if i < |called| {
        assert fired[i] == called[i];
      }
    }
  }

  ghost predicate IsEmpty(places: map<Timer, Place>, k: nat) { forall x :: x in places ==> places[x].bucket != k }

  /** The bucket that is cascaded: the one that the clock points at on the lowest level where it is not empty. */
  ghost function Cascaded(places: map<Timer, Place>, clock: nat): (k: nat)
    ensures 256 <= k < HEADS
  {
    if !IsEmpty(places, 256 + IndexOf(clock, 0)) then 256 + IndexOf(clock, 0)
    else if !IsEmpty(places, 320 + IndexOf(clock, 1)) then 320 + IndexOf(clock, 1)
    else if !IsEmpty(places, 384 + IndexOf(clock, 2)) then 384 + IndexOf(clock, 2)
    else 448 + IndexOf(clock, 3)
  }

  lemma CascadedPointed(was: map<Timer, Place>, last: nat)
    ensures var k := Cascaded(was, last); k == BaseOf(k) + last / SpanOf(k) % 64
  {
  }

  /** Where a tick leaves a timer of a higher level: in its place, unless its bucket is cascaded. */
  ghost function After(was: map<Timer, Place>, clock: nat, x: Timer): Place
    requires x in was
  {
    if clock % 256 == 0 && was[x].bucket == Cascaded(was, clock) then Place(BucketOf(clock, was[x].due), was[x].due)
    else was[x]
  }

  /** A tick moves a timer of a higher level if and only if its bucket is cascaded, and calls none that stays on a
      higher level. */
  ghost predicate TickMoves(was: map<Timer, Place>, places: map<Timer, Place>, clock: nat, log: seq<Firing>,
                            fired: seq<Firing>)
  {
    && log <= fired
    && (forall i :: |log| <= i < |fired| ==>
          fired[i].timer in was && (was[fired[i].timer].bucket < 256 || After(was, clock, fired[i].timer).bucket < 256))
    && forall x :: x in was && was[x].bucket >= 256 && After(was, clock, x).bucket >= 256 ==>
         x in places && places[x] == After(was, clock, x)
  }

  lemma TickIs(was: map<Timer, Place>, mid: map<Timer, Place>, places: map<Timer, Place>, clock: nat,
               log: seq<Firing>, fired: seq<Firing>)
    requires was.Keys == mid.Keys && forall x :: x in was ==> mid[x] == After(was, clock, x)
    requires Others(mid, places, clock % 256) && OnlyCalls(mid, clock % 256, log, fired)
    ensures TickMoves(was, places, clock, log, fired)
  {
    hide Cascaded, BucketOf;
    forall i | |log| <= i < |fired|
      ensures fired[i].timer in was && After(was, clock, fired[i].timer).bucket < 256
    {
      assert fired[i].timer in mid.Keys;
    }
    forall x | x in was && After(was, clock, x).bucket >= 256
      ensures x in places && places[x] == After(was, clock, x)
    {
      assert x in mid.Keys;
    }
  }

  /** Timers on higher levels whose turn has not passed are where they were, and have not been called. */
  ghost predicate Undisturbed(was: map<Timer, Place>, start: nat, places: map<Timer, Place>, clock: nat,
                              log: seq<Firing>, fired: seq<Firing>)
  {
    log <= fired
    && forall x :: x in was && IsUp(start, was[x]) && Turn(was[x].due, was[x].bucket) >= clock ==>
         x in places && places[x] == was[x] && forall i :: |log| <= i < |fired| ==> fired[i].timer != x
  }

  lemma NothingDisturbed(was: map<Timer, Place>, start: nat, log: seq<Firing>)
    ensures Undisturbed(was, start, was, start, log, log)
  {
  }

  lemma TickDisturbs(was: map<Timer, Place>, start: nat, before: map<Timer, Place>, places: map<Timer, Place>,
                     clock: nat, log: seq<Firing>, called: seq<Firing>, fired: seq<Firing>)
    requires start <= clock && Undisturbed(was, start, before, clock, log, called)
    requires TickMoves(before, places, clock, called, fired)
    ensures Undisturbed(was, start, places, clock + 1, log, fired)
  {
    hide Cascaded, BucketOf, OnTurn, Turn;
    CascadedPointed(before, clock);
    forall x | x in was && IsUp(start, was[x]) && Turn(was[x].due, was[x].bucket) >= clock + 1
      ensures x in places && places[x] == was[x] && forall i :: |log| <= i < |fired| ==> fired[i].timer != x
    {
      IsUpLater(start, clock, was[x]);
      if was[x].bucket == Cascaded(before, clock) {
        PutBackUp(clock, was[x]);
      }
      assert After(before, clock, x) == was[x];
      forall i | |log| <= i < |fired| ensures fired[i].timer != x {
        if i < |called| {
          assert fired[i] == called[i];
        }
      }
    }
  }

  /** One timer in a cascade: if it was expected it is still, at the same tick, and it has not missed its turn. */
  lemma OneCascaded(was: map<Timer, Place>, last: nat, x: Timer, trigger: nat, alone: bool)
    requires x in was && last % 256 == 0 && trigger < last + HALF && (alone <==> was.Keys == {x})
    ensures var k := Cascaded(was, last);
            var to := if was[x].bucket == k then BucketOf(last, trigger) else was[x].bucket;
            && (IsExpected(last, trigger, was[x].bucket, alone) ==>
                  IsExpected(last, trigger, to, alone)
                  && TickOf(last, trigger, to, -1, 0) == TickOf(last, trigger, was[x].bucket, -1, 0))
            && (IsExpected(last, trigger, to, alone) ==> !HasTurn(last, trigger, to))
  {
    hide OnTurn, BucketOf, Turn, DrainTick, Cascaded;
    var k := Cascaded(was, last);
    if IsExpected(last, trigger, was[x].bucket, alone) && HasTurn(last, trigger, was[x].bucket) {
      PointedAt(last, trigger, was[x].bucket);
      PointedIsCascaded(was, last, x);
    }
    if was[x].bucket == k {
      hide IndexOf;
      CascadedIs(was, last);
      if IsExpected(last, trigger, k, alone) {
        CascadedExpected(last, trigger, k, alone);
      }
      if BucketOf(last, trigger) >= 256 {
        NotYet(last, trigger);
      }
    }
  }

  lemma CascadedIs(was: map<Timer, Place>, last: nat)
    ensures Cascaded(was, last) < 320 ==> Cascaded(was, last) == 256 + IndexOf(last, 0)
  {
  }

  lemma PointedIsCascaded(was: map<Timer, Place>, last: nat, x: Timer)
    requires x in was && 256 <= was[x].bucket < HEADS
    requires var k := was[x].bucket; k == BaseOf(k) + last / SpanOf(k) % 64
    requires was[x].bucket < 320 || was.Keys == {x}
    ensures Cascaded(was, last) == was[x].bucket
  {
    assert forall y :: y in was <==> y in was.Keys;
  }

  ghost predicate Course(start: Start, log: seq<Firing>, awaited: map<Timer, Firing>) {
    && start.log <= log
    && forall x :: x in start.expected ==>
         start.expected[x] in log[|start.log|..] || (x in awaited && awaited[x] == start.expected[x])
  }

  lemma StillOnTurn(last: nat, trigger: nat, k: nat, alone: bool)
    requires IsExpected(last, trigger, k, alone) && !HasTurn(last, trigger, k)
    ensures IsExpected(last + 1, trigger, k, alone)
    ensures TickOf(last + 1, trigger, k, last % 256, last) == TickOf(last, trigger, k, -1, 0)
  {
    hide DrainTick, Turn;
    if k < 256 {
      DrainTickStep(last, k);
    }
  }

  lemma MoreAwaited(start: Start, log: seq<Firing>, awaited: map<Timer, Firing>, later: map<Timer, Firing>)
    requires Course(start, log, awaited)
    requires forall x :: x in awaited ==> x in later && later[x] == awaited[x]
    ensures Course(start, log, later)
  {
  }

  /** A timer that fires was expected to; the others are still expected. */
  lemma StillOnCourse(start: Start, log: seq<Firing>, awaited: map<Timer, Firing>, timer: Timer,
                      later: map<Timer, Firing>)
    requires Course(start, log, awaited) && timer in awaited
    requires forall x :: x in awaited && x != timer ==> x in later && later[x] == awaited[x]
    ensures Course(start, log + [awaited[timer]], later)
  {
    var k, f := |start.log|, awaited[timer];
    assert (log + [f])[k..] == log[k..] + [f];
  }

  /** What a call of UpdateTimers starts from: the log, the clock, and the calls expected of timers on the first
      level. */
  datatype Start = Start(log: seq<Firing>, clock: nat, expected: map<Timer, Firing>)

  /** A time falls into the bucket just being drained if and only if it is 256 ticks after the tick of that bucket. */
  lemma InBucketAgain(t: nat, trigger: nat)
    requires trigger + HALF > t + 1 && trigger < t + 1 + HALF
    ensures BucketOf(t + 1, trigger) == t % 256 <==> trigger == t + 256
  {
    if trigger >= t + 1 {
      assert (trigger - (t + 1)) % FULL == trigger - (t + 1);
      if trigger < t + 257 {
        SameTick(t + 1, trigger);
        DrainTickStep(t, trigger % 256);
      }
    } else {
      assert (trigger - (t + 1)) % FULL == trigger - (t + 1) + FULL;
      assert (t + 1) % 256 != t % 256;
    }
  }

  lemma LogExplained(log: seq<Firing>, f: Firing)
    requires AllExplained(log)
    requires if Settled(log) then !Early(f)
             else var l := log[|log| - 1]; f.timer == l.timer && f.tick == l.tick && f.due == f.tick + 256 && !Early(l)
    ensures AllExplained(log + [f])
  {
    var all := log + [f];
    forall i | 0 <= i < |all| ensures Explained(all, i) {
      if i < |log| {
        assert Explained(log, i);
      }
    }
  }

  /** A timer that is due at once, and then every 256 ticks: OnTimer is called when the clock stands at 0, and again
      before it moves on, 256 ticks early. */
  method FiresEarly() returns (manager: TimerManager, timer: Timer)
    ensures manager.lastCheckTime == 1 && timer.interval == 256
    ensures exists i :: 0 <= i < |manager.fired| && manager.fired[i].timer == timer
                        && manager.fired[i].due == 256 && manager.fired[i].tick == 0
  {
    manager, timer := Every256();
    hide TimerManager.Valid;
    ghost var first := manager.Expected()[timer];
    var updated := manager.UpdateTimers(0);
    SecondCall(manager.fired, first);
  }

  method Every256() returns (manager: TimerManager, timer: Timer)
    ensures fresh(manager) && fresh(manager.heads) && fresh(manager.timers) && manager.Valid() && manager.fired == []
    ensures manager.lastCheckTime == 0 && manager.timers == manager.armed == {timer} && timer.interval == 256
    ensures timer.triggerTime == 0
    ensures timer in manager.Expected() && manager.Expected()[timer] == Firing(timer, 0, 0, 256, true)
  {
    hide Linked, BucketOf, TimerManager.Valid, Explained, DrainTick;
    FirstBucket();
    manager := new TimerManager(0);
    timer := manager.CreateTimer();
    Set256(manager, timer);
    manager.AddTimer(timer);
  }

  lemma FirstBucket()
    ensures BucketOf(0, 0) == 0 == DrainTick(0, 0)
  {
  }

  method Set256(manager: TimerManager, timer: Timer)
    requires manager.Valid() && timer in manager.timers && timer !in manager.armed
    modifies timer`triggerTime, timer`interval, timer`count, timer`hasFunc
    ensures manager.Valid()
    ensures timer.triggerTime == 0 && timer.interval == 256 && timer.count == -1 && timer.hasFunc
  {
    hide Linked;
    timer.triggerTime, timer.interval, timer.count, timer.hasFunc := 0, 256, -1, true;
  }

  lemma SecondCall(log: seq<Firing>, f: Firing)
    requires AllExplained(log) && Settled(log) && f in log && ComesBack(f) && !Early(f)
    ensures exists i :: 0 <= i < |log| && log[i].timer == f.timer && log[i].due == f.tick + 256 && log[i].tick == f.tick
  {
    var j :| 0 <= j < |log| && log[j] == f;
    assert Explained(log, j + 1);
  }

  /** A timer that is scheduled at most 0x4000 ms ahead, or as the only one, is called exactly when it is due. */
  method CalledWhenDue(manager: TimerManager, timer: Timer, due: nat, now: nat)
    requires manager.Valid() && Settled(manager.fired) && manager.NotFar(now + 1)
    requires timer in manager.timers && timer !in manager.armed && timer.interval < HALF - 256
    requires manager.lastCheckTime <= due <= now < due + HALF - 1 && due < manager.lastCheckTime + HALF
    requires due < manager.lastCheckTime + 0x4000 || manager.armed == {}
    modifies manager, manager.heads`next, manager.timers
    ensures old(manager.fired) <= manager.fired
    ensures Firing(timer, due, due, timer.interval, old(timer.GoesOn())) in manager.fired[|old(manager.fired)|..]
  {
    hide Linked, BucketOf, IsExpected, TickOf, TimerManager.InTime, AllExplained, Explained, ComesBack, TickMoves;
    hide Undisturbed, TimerManager.Shaped, TimerManager.Valid;
    manager.ArmedAreTimers();
    manager.ScheduleAt(timer, due);
    var updated := manager.UpdateTimers(now);
  }

  /** But a timer that is further ahead can be called too late: two timers are due at 0x4000 ms, one scheduled at 0 and
      the other at 1. When the clock has passed 0x4000 the other has been called, and the first has not. */
  method LateTimer() returns (manager: TimerManager, a: Timer, b: Timer)
    ensures manager.lastCheckTime == 0x4001
    ensures a in manager.armed && a.triggerTime == 0x4000
    ensures NoCall(manager.fired, a)
    ensures Firing(b, 0x4000, 0x4000, 0, true) in manager.fired
  {
    hide Linked, AllExplained, TickMoves, Undisturbed, TimerManager.Shaped, TimerManager.Valid, TimerManager.InTime;
    manager, a := FirstScheduled();
    b := SecondScheduled(manager, a);
    ghost var places, log := manager.Places(), manager.fired;
    var updated := manager.UpdateTimers(0x4000);
    NotMoved(places, manager.Places(), log, manager.fired, a, b);
  }

  /** The first timer is scheduled at 0, and the clock moves on to 1. */
  method FirstScheduled() returns (manager: TimerManager, a: Timer)
    ensures fresh(manager) && fresh(manager.heads) && fresh(manager.timers) && manager.Valid() && Settled(manager.fired)
    ensures manager.lastCheckTime == 1 && manager.armed == manager.timers == {a} && manager.freepool == {}
    ensures NoCall(manager.fired, a) && a.bucket == 321 && a.triggerTime == 0x4000
  {
    hide Linked, BucketOf, AllExplained, TimerManager.InTime, TimerManager.Shaped, TimerManager.Valid, WaitsFor;
    hide TimerManager.Expected;
    LatePlaces();
    manager := new TimerManager(0);
    a := NewTimer(manager);
    Schedule(manager, a);
    Pass(manager, 0, {a});
    manager.OnlyArmed(a);
  }

  /** A timer is scheduled at 0x4000. */
  method Schedule(manager: TimerManager, timer: Timer)
    requires manager.Valid() && timer in manager.timers && timer !in manager.armed && timer.interval == 0
    requires manager.lastCheckTime < 0x4000
    modifies manager`armed, manager`freepool, manager.heads`next, manager.timers`next, manager.timers`prev
    modifies timer`bucket, timer`rank, timer`triggerTime
    ensures manager.Valid() && manager.armed == old(manager.armed) + {timer}
    ensures manager.freepool == old(manager.freepool) - {timer}
    ensures timer.triggerTime == 0x4000 && timer.bucket == BucketOf(manager.lastCheckTime, 0x4000)
    ensures manager.lastCheckTime > 0 ==>
              && timer in manager.Expected()
              && manager.Expected()[timer] == Firing(timer, 0x4000, 0x4000, 0, timer.GoesOn())
  {
    hide Linked, BucketOf, IsExpected, TickOf, AllExplained, TimerManager.InTime, TimerManager.Shaped;
    hide TimerManager.Valid, TimerManager.Awaited;
    manager.ArmedAreTimers();
    manager.ScheduleAt(timer, 0x4000);
  }

  /** The clock moves on, but not beyond the turns of timers due at 0x4000. */
  method Pass(manager: TimerManager, now: nat, ghost waiting: set<Timer>)
    requires manager.Valid() && Settled(manager.fired) && manager.lastCheckTime <= now < 0x4000
    requires waiting == manager.armed && manager.NotFar(now + 1)
    requires forall x :: x in waiting ==> x.triggerTime == 0x4000 && WaitsFor(manager.lastCheckTime, x.bucket)
    modifies manager, manager.heads`next, manager.timers
    ensures manager.Valid() && Settled(manager.fired) && manager.lastCheckTime == now + 1
    ensures manager.timers == old(manager.timers)
    ensures manager.armed + manager.freepool == old(manager.armed + manager.freepool) && waiting <= manager.armed
    ensures forall x :: x in waiting ==>
              && x.triggerTime == 0x4000 && x.bucket == old(x.bucket)
              && (NoCall(old(manager.fired), x) ==> NoCall(manager.fired, x))
    ensures forall x :: x in old(manager.Expected()) && old(manager.Expected())[x].tick > now ==>
              x in manager.Expected() && manager.Expected()[x] == old(manager.Expected())[x]
  {
    hide Linked, AllExplained, Explained, ComesBack, TickMoves, Undisturbed, IsUp, TimerManager.Expected;
    hide TimerManager.InTime, TimerManager.Shaped, TimerManager.Valid;
    ghost var places, log, clock := manager.Places(), manager.fired, manager.lastCheckTime;
    var updated := manager.UpdateTimers(now);
    forall x | x in waiting
      ensures x in manager.Places() && manager.Places()[x] == places[x]
      ensures NoCall(log, x) ==> NoCall(manager.fired, x)
    {
      assert x in places && WaitsFor(clock, places[x].bucket) && places[x].due == 0x4000;
      StillThere(places, clock, manager.Places(), now + 1, log, manager.fired, x);
    }
  }

  /** The second is scheduled at 1, and the clock moves on to 0x4000. */
  method SecondScheduled(manager: TimerManager, a: Timer) returns (b: Timer)
    requires manager.Valid() && Settled(manager.fired)
    requires manager.lastCheckTime == 1 && manager.armed == manager.timers == {a} && manager.freepool == {}
    requires NoCall(manager.fired, a) && a.bucket == 321 && a.triggerTime == 0x4000
    modifies manager, manager.heads`next, manager.timers
    ensures manager.Valid() && Settled(manager.fired) && manager.lastCheckTime == 0x4000
    ensures fresh(b) && manager.timers == manager.armed == {a, b}
    ensures NoCall(manager.fired, a) && a.bucket == 321 && a.triggerTime == 0x4000
    ensures b.bucket == 256 && b.triggerTime == 0x4000
    ensures b in manager.Expected() && manager.Expected()[b] == Firing(b, 0x4000, 0x4000, 0, true)
  {
    hide Linked, BucketOf, AllExplained, TimerManager.InTime, TimerManager.Shaped, TimerManager.Valid, WaitsFor;
    hide TimerManager.Expected;
    LatePlaces();
    b := NewTimer(manager);
    Schedule(manager, b);
    Pass(manager, 0x3FFF, {a, b});
    manager.ArmedAreTimers();
  }

  ghost predicate NoCall(log: seq<Firing>, x: Timer) { forall i :: 0 <= i < |log| ==> log[i].timer != x }

  lemma StillThere(was: map<Timer, Place>, start: nat, places: map<Timer, Place>, clock: nat, log: seq<Firing>,
                   fired: seq<Firing>, x: Timer)
    requires Undisturbed(was, start, places, clock, log, fired) && x in was && IsUp(start, was[x])
    requires Turn(was[x].due, was[x].bucket) >= clock
    ensures x in places && places[x] == was[x] && (NoCall(log, x) ==> NoCall(fired, x))
  {
    if NoCall(log, x) {
      forall i | 0 <= i < |fired| ensures fired[i].timer != x {
        if i < |log| {
          assert fired[i] == log[i];
        }
      }
    }
  }

  /** On this bucket a timer due at 0x4000 stays until then. */
  predicate WaitsFor(last: nat, k: nat) {
    IsUp(last, Place(k, 0x4000)) && Turn(0x4000, k) == 0x4000
  }

  lemma LatePlaces()
    ensures BucketOf(0, 0x4000) == 321 && BucketOf(1, 0x4000) == 256
    ensures WaitsFor(0, 321) && WaitsFor(1, 321) && WaitsFor(1, 256)
  {
    hide WaitsFor;
    WaitsThere(0, 321);
    WaitsThere(1, 321);
    WaitsThere(1, 256);
  }

  lemma WaitsThere(last: nat, k: nat)
    requires last <= 1 && (k == 321 || (k == 256 && last == 1))
    ensures WaitsFor(last, k)
  {
    assert SpanOf(k) == if k == 321 then 0x4000 else 0x100;
    assert BaseOf(k) == if k == 321 then 320 else 256;
  }

  lemma NotMoved(was: map<Timer, Place>, places: map<Timer, Place>, log: seq<Firing>, fired: seq<Firing>, a: Timer,
                 b: Timer)
    requires TickMoves(was, places, 0x4000, log, fired)
    requires a in was && was[a] == Place(321, 0x4000) && b in was && was[b] == Place(256, 0x4000)
    requires NoCall(log, a)
    ensures a in places && places[a] == was[a] && NoCall(fired, a)
  {
    hide BucketOf;
    assert IndexOf(0x4000, 0) == 0;
    assert Cascaded(was, 0x4000) == 256;
    forall i | 0 <= i < |fired| ensures fired[i].timer != a {
      if i < |log| {
        assert fired[i] == log[i];
      }
    }
  }

  method NewTimer(manager: TimerManager) returns (timer: Timer)
    requires manager.Valid() && manager.freepool == {}
    modifies manager`freepool, manager`timers
    ensures manager.Valid() && fresh(timer) && manager.timers == old(manager.timers) + {timer}
    ensures manager.armed == old(manager.armed) && manager.freepool == {} && timer !in manager.armed
    ensures timer.interval == 0 && timer.count == -1 && timer.hasFunc
  {
    hide Linked;
    timer := manager.CreateTimer();
    timer.interval, timer.count, timer.hasFunc := 0, -1, true;
  }

  /** The list of one head comes off. */
  method TakeOff(head: Timer, ghost heads: set<Timer>, ghost armed: set<Timer>, ghost moving: set<Timer>)
      returns (first: Timer?)
    requires Linked(heads, armed) && head in heads && head.next != null
    requires moving == set x | x in armed && x.bucket == head.bucket
    requires forall h :: h in heads && h != head ==> h.bucket != head.bucket
    modifies head`next
    ensures Linked(heads, armed - moving) && Hanging(first, moving)
  {
    assert HeadOk(head, armed);
    assert NodeOk(head.next, heads, armed);
    first := head.next;
    head.next := null;
    forall h | h in heads ensures HeadOk(h, armed - moving) {
      assert old(HeadOk(h, armed));
      if h.next != null {
        assert old(NodeOk(h.next, heads, armed));
      }
    }
    forall x | x in armed - moving ensures NodeOk(x, heads, armed - moving) {
      assert old(NodeOk(x, heads, armed));
      if x.next != null {
        assert old(NodeOk(x.next, heads, armed));
      }
    }
    forall x | x in moving ensures HangsOk(x, first, moving) {
      assert old(NodeOk(x, heads, armed));
      if x.next != null {
        assert old(NodeOk(x.next, heads, armed));
      }
    }
  }

  /** A list without a head, from tmp on: what is left of it to be put in again. */
  ghost predicate Hanging(tmp: Timer?, moving: set<Timer>)
    reads moving
  {
    (tmp != null ==> tmp in moving) && forall x :: x in moving ==> HangsOk(x, tmp, moving)
  }

  ghost predicate HangsOk(x: Timer, tmp: Timer?, moving: set<Timer>)
    requires x in moving
    reads moving
  {
    && (x.next != null ==> x.next != tmp && x.next in moving && x.next.prev == x)
    && (x != tmp ==> x.prev != null && x.prev in moving && x.prev.next == x && x.prev.rank > x.rank)
  }

  ghost predicate AreLoose(moving: set<Timer>, timers: set<Timer>, others: set<Timer>) {
    forall x :: x in moving ==> x in timers && x !in others
  }

  lemma LooseRest(moving: set<Timer>, timers: set<Timer>, others: set<Timer>, timer: Timer)
    requires AreLoose(moving, timers, others) && timer in moving
    ensures AreLoose(moving - {timer}, timers, others + {timer}) && timer in timers && timer !in others
    ensures moving <= timers && moving !! others
  {
  }

  lemma OneLess(s: set<Timer>, x: Timer)
    requires x in s
    ensures |s - {x}| < |s|
  {
    assert s == (s - {x}) + {x};
  }

  lemma RestHangs(timer: Timer, moving: set<Timer>)
    requires Hanging(timer, moving)
    ensures Hanging(timer.next, moving - {timer})
  {
    assert HangsOk(timer, timer, moving);
    forall x | x in moving - {timer} ensures HangsOk(x, timer.next, moving - {timer}) {
      assert HangsOk(x, timer, moving);
    }
  }

  lemma InMoving(tmp: Timer?, moving: set<Timer>)
    requires Hanging(tmp, moving) && tmp != null
    ensures tmp in moving
  {
  }

  lemma {:induction false} HighestRank(s: set<Timer>) returns (m: Timer)
    requires s != {}
    ensures m in s && forall x :: x in s ==> x.rank <= m.rank
    decreases |s|
  {
    var y :| y in s;
    m := y;
    if s != {y} {
      assert forall x :: x in s ==> x == y || x in s - {y};
      m := HighestRank(s - {y});
      if m.rank < y.rank { m := y; }
    }
  }

  lemma OneBefore(x: Timer, moving: set<Timer>) returns (y: Timer)
    requires Hanging(null, moving) && x in moving
    ensures y in moving && y.rank > x.rank
  {
    assert HangsOk(x, null, moving);
    y := x.prev;
  }

  /** When the end is reached no timer is left over: the one of the highest rank would have no one before it. */
  lemma NothingHangs(moving: set<Timer>)
    requires Hanging(null, moving)
    ensures moving == {}
  {
    if moving != {} {
      var m := HighestRank(moving);
      var y := OneBefore(m, moving);
      assert false;
    }
  }
}
