/**
 * The engine's trigger queue and running statistics (engine/trigger.rs).
 *
 * A trigger is represented by its rank in the derived order of the `Trigger`
 * enum, which is all the queue compares. The binary heap is modelled as the
 * list of queued entries together with a search for the least one, which is
 * what `peek` and `pop` return.
 */
module Triggers {
  import opened Wrappers

  /** `TriggerEntry`: a trigger and the time at which it runs. */
  datatype Entry = Entry(trigger: nat, time: nat)

  /** The order of `TriggerEntry::cmp` before its `reverse`: by time, then by trigger. */
  predicate Less(a: Entry, b: Entry) {
    a.time < b.time || (a.time == b.time && a.trigger < b.trigger)
  }

  predicate LessEq(a: Entry, b: Entry) {
    !Less(b, a)
  }

  /** The reversed order makes the heap's maximum the entry least by time, then trigger. */
  lemma OrderTotal(a: Entry, b: Entry)
    ensures Less(a, b) || a == b || Less(b, a)
    ensures !(Less(a, b) && Less(b, a))
  {
  }

  /** `e` is a least entry of the queue. */
  predicate IsMin(e: Entry, es: seq<Entry>) {
    e in es && forall x :: x in es ==> LessEq(e, x)
  }

  /** The least entry is unique. */
  lemma MinUnique(a: Entry, b: Entry, es: seq<Entry>)
    requires IsMin(a, es) && IsMin(b, es)
    ensures a == b
  {
    OrderTotal(a, b);
  }

  /**
   * What a trigger schedules when it runs: pairs of a trigger and a delay,
   * each pushed with `push_rel` at the trigger's own time.
   */
  type Schedule = Entry -> seq<(nat, nat)>

  /** The triggers whose `execute` returns an error once it has scheduled their follow-ups. */
  type Failure = set<Entry>

  /** Triggers that never fail, such as `DoublingTrigger`. */
  const NeverFails: Failure := {}

  /** No trigger of `s` returned an error. */
  ghost predicate AllSucceeded(s: seq<Entry>, fails: Failure)
  {
    forall k :: 0 <= k < |s| ==> s[k] !in fails
  }

  /** One more trigger keeps the record of errors: the earlier ones are a prefix of the new run. */
  lemma SucceededAppend(s: seq<Entry>, e: Entry, fails: Failure)
    ensures (s + [e])[..|s|] == s
    ensures AllSucceeded(s + [e], fails) <==> AllSucceeded(s, fails) && e !in fails
  {
    assert (s + [e])[..|s|] == s;
    if AllSucceeded(s + [e], fails) {
      assert (s + [e])[|s|] == e;
      forall k | 0 <= k < |s| ensures s[k] !in fails {
        assert (s + [e])[k] == s[k];
      }
    }
  }

  /** The entries a trigger schedules, each `push_rel`'d at the trigger's time. */
  function Spawned(e: Entry, schedule: Schedule): (r: seq<Entry>)
    ensures |r| == |schedule(e)|
    ensures forall i :: 0 <= i < |r| ==> r[i] == Entry(schedule(e)[i].0, e.time + schedule(e)[i].1)
  {
    SpawnedFromAt(e.time, schedule(e));
    SpawnedFrom(e.time, schedule(e))
  }

  function SpawnedFrom(t: nat, ps: seq<(nat, nat)>): (r: seq<Entry>)
    ensures |r| == |ps|
  {
    if ps == [] then [] else [Entry(ps[0].0, t + ps[0].1)] + SpawnedFrom(t, ps[1..])
  }

  /** Each follow-up is scheduled at the trigger's time plus its delay. */
  lemma {:induction false} SpawnedFromAt(t: nat, ps: seq<(nat, nat)>)
    ensures forall i :: 0 <= i < |ps| ==> SpawnedFrom(t, ps)[i] == Entry(ps[i].0, t + ps[i].1)
    decreases |ps|
  {
    if ps != [] {
      SpawnedFromAt(t, ps[1..]);
    }
  }

  /** Everything the executed triggers scheduled, in execution order. */
  function AllSpawned(executed: seq<Entry>, schedule: Schedule): seq<Entry> {
    if executed == [] then []
    else AllSpawned(executed[..|executed| - 1], schedule) + Spawned(executed[|executed| - 1], schedule)
  }

  /** The times of a sequence of executed entries never decrease. */
  predicate TimesSorted(es: seq<Entry>) {
    forall i, j :: 0 <= i < j < |es| ==> es[i].time <= es[j].time
  }

  /**
   * `TriggerQueue` with the engine clock that `advance_trigger_queue` and
   * `single_step` move together with it: the engine's `time_state.current_time`
   * is set at every place `current_time` is, so the two are one field here.
   */
  class TriggerQueue {
    var entries: seq<Entry>
    var currentTime: nat

    /** The invariant the source documents: no queued trigger lies in the past. */
    ghost predicate Valid()
      reads this
    {
      forall e :: e in entries ==> e.time >= currentTime
    }

    /** `TriggerQueue::new`: empty, at time 0. */
    constructor ()
      ensures Valid() && entries == [] && currentTime == 0
    {
      entries := [];
      currentTime := 0;
    }

    /** `push`: the source asserts that the time is not in the past. */
    method Push(trigger: nat, time: nat)
      requires Valid() && time >= currentTime
      modifies this
      ensures Valid()
      ensures entries == old(entries) + [Entry(trigger, time)] && currentTime == old(currentTime)
    {
      entries := entries + [Entry(trigger, time)];
    }

    /** `push_rel`: schedules the trigger `rel` after the current time. */
    method PushRel(trigger: nat, rel: nat)
      requires Valid()
      modifies this
      ensures Valid()
      ensures entries == old(entries) + [Entry(trigger, currentTime + rel)] && currentTime == old(currentTime)
    {
      entries := entries + [Entry(trigger, currentTime + rel)];
    }

    /** `len`: the number of queued entries. */
    method Len() returns (n: nat)
      ensures n == |entries|
    {
      n := |entries|;
    }

    /** The position of the least entry: what the heap's `peek` looks at. */
    method MinIndex() returns (m: nat)
      requires |entries| > 0
      ensures m < |entries| && IsMin(entries[m], entries)
    {
      m := 0;
      var i := 1;
      while i < |entries|
        invariant 0 <= m < i <= |entries|
        invariant forall j :: 0 <= j < i ==> LessEq(entries[m], entries[j])
      {
        if Less(entries[i], entries[m]) {
          m := i;
        }
        i := i + 1;
      }
      forall x | x in entries
        ensures LessEq(entries[m], x)
      {
        var j :| 0 <= j < |entries| && entries[j] == x;
      }
    }

    /** `heap.peek()`: the least entry, or None on an empty queue. */
    method Peek() returns (r: Option<Entry>)
      ensures r.None? <==> entries == []
      ensures r.Some? ==> IsMin(r.value, entries)
    {
      if |entries| == 0 {
        r := None;
      } else {
        var m := MinIndex();
        r := Some(entries[m]);
      }
    }

    /** `heap.pop()`: removes the least entry and returns it. */
    method Pop() returns (e: Entry)
      requires |entries| > 0
      modifies this
      ensures IsMin(e, old(entries))
      ensures multiset(entries) == multiset(old(entries)) - multiset{e}
      ensures currentTime == old(currentTime)
    {
      var m := MinIndex();
      e := entries[m];
      assert entries == entries[..m] + [e] + entries[m + 1..];
      entries := entries[..m] + entries[m + 1..];
    }

    /**
     * `single_step`: pops the least entry and moves the clock to its time. The
     * source's assertion that this time is not in the past follows from Valid.
     */
    method SingleStep() returns (e: Entry)
      requires Valid() && |entries| > 0
      modifies this
      ensures Valid()
      ensures IsMin(e, old(entries)) && e.time >= old(currentTime)
      ensures currentTime == e.time
      ensures multiset(entries) == multiset(old(entries)) - multiset{e}
    {
      e := Pop();
      currentTime := e.time;
      forall x | x in entries
        ensures x.time >= currentTime
      {
        assert x in multiset(entries);
        assert x in old(entries);
      }
    }

    /**
     * Running a popped trigger: it schedules its follow-ups with `push_rel`, and
     * reports the error `fails` says it returns.
     */
    method Execute(e: Entry, schedule: Schedule, fails: Failure) returns (ok: bool)
      requires Valid() && currentTime == e.time
      modifies this
      ensures Valid() && currentTime == old(currentTime)
      ensures entries == old(entries) + Spawned(e, schedule)
      ensures ok == (e !in fails)
    {
      var ps := schedule(e);
      ghost var start := entries;
      var i := 0;
      while i < |ps|
        invariant 0 <= i <= |ps|
        invariant Valid() && currentTime == e.time
        invariant entries == start + SpawnedFrom(e.time, ps[..i])
      {
        PushRel(ps[i].0, ps[i].1);
        SpawnedFromStep(start, e.time, ps, i);
        i := i + 1;
      }
      assert ps[..i] == ps;
      ok := e !in fails;
    }

    /** One round of the advance loop: `single_step`, which pops and runs the least trigger. */
    method RunNext(schedule: Schedule, fails: Failure) returns (e: Entry, ok: bool)
      requires Valid() && |entries| > 0
      modifies this
      ensures Valid()
      ensures IsMin(e, old(entries)) && e.time >= old(currentTime) && currentTime == e.time
      ensures multiset(entries) == multiset(old(entries)) - multiset{e} + multiset(Spawned(e, schedule))
      ensures ok == (e !in fails)
    {
      e := SingleStep();
      ok := Execute(e, schedule, fails);
    }

    /**
     * `advance_trigger_queue`, with the wall-clock budget as a number of loop
     * rounds: while rounds remain, the least trigger runs if it is not after
     * the target time; once it is (or the queue is empty) the clock jumps to the
     * target and the loop stops. A trigger whose `execute` returns an error ends
     * the advance with that error, the clock left at that trigger's time.
     */
    method AdvanceTriggerQueue(timeStep: nat, budget: nat, schedule: Schedule, fails: Failure)
        returns (executed: seq<Entry>, finished: bool, failed: bool)
      requires Valid()
      modifies this
      ensures Valid()
      ensures old(currentTime) <= currentTime <= old(currentTime) + timeStep
      ensures TimesSorted(executed)
      ensures forall e :: e in executed ==> old(currentTime) <= e.time <= old(currentTime) + timeStep
      ensures multiset(entries) + multiset(executed) == multiset(old(entries)) + multiset(AllSpawned(executed, schedule))
      ensures forall k :: 0 <= k < |executed| - 1 ==> executed[k] !in fails
      ensures failed <==> executed != [] && executed[|executed| - 1] in fails
      ensures failed ==> !finished && currentTime == executed[|executed| - 1].time
      ensures finished ==> currentTime == old(currentTime) + timeStep
      ensures finished ==> forall e :: e in entries ==> e.time > currentTime
      ensures !finished && !failed ==> |executed| == budget
    {
      var target := currentTime + timeStep;
      executed, finished, failed := RunUntil(target, budget, schedule, fails);
      forall k | 0 <= k < |executed| - 1
        ensures executed[k] !in fails
      {
        if failed {
          assert executed[k] == executed[..|executed| - 1][k];
        }
      }
    }

    /** The loop of `advance_trigger_queue`, run towards a fixed target time. */
    method RunUntil(target: nat, budget: nat, schedule: Schedule, fails: Failure)
        returns (executed: seq<Entry>, finished: bool, failed: bool)
      requires Valid() && currentTime <= target
      modifies this
      ensures Valid() && old(currentTime) <= currentTime <= target
      ensures TimesSorted(executed)
      ensures forall e :: e in executed ==> old(currentTime) <= e.time <= currentTime
      ensures multiset(entries) + multiset(executed) == multiset(old(entries)) + multiset(AllSpawned(executed, schedule))
      ensures !failed ==> AllSucceeded(executed, fails)
      ensures failed ==> executed != [] && executed[|executed| - 1] in fails && AllSucceeded(executed[..|executed| - 1], fails)
      ensures failed ==> !finished && currentTime == executed[|executed| - 1].time
      ensures finished ==> currentTime == target && forall e :: e in entries ==> e.time > target
      ensures !finished && !failed ==> |executed| == budget
    {
      executed := [];
      finished, failed := false, false;
      ghost var start := currentTime;
      ghost var initial := entries;
      while |executed| < budget && !finished && !failed
        invariant Valid()
        invariant start <= currentTime <= target
        invariant |executed| <= budget
        invariant TimesSorted(executed)
        invariant forall e :: e in executed ==> start <= e.time <= currentTime
        invariant multiset(entries) + multiset(executed) == multiset(initial) + multiset(AllSpawned(executed, schedule))
        invariant !failed ==> AllSucceeded(executed, fails)
        invariant failed ==> executed != [] && executed[|executed| - 1] in fails && AllSucceeded(executed[..|executed| - 1], fails)
        invariant failed ==> !finished && currentTime == executed[|executed| - 1].time
        invariant finished ==> currentTime == target && forall e :: e in entries ==> e.time > target
        decreases budget - |executed|, if finished || failed then 0 else 1
      {
        executed, finished, failed := AdvanceStep(schedule, fails, target, start, initial, executed);
      }
    }

    /**
     * One pass of the advance loop: with no trigger due by the target, the clock moves to the
     * target and the loop ends; otherwise the least trigger runs and joins those executed.
     */
    method AdvanceStep(schedule: Schedule, fails: Failure, target: nat, ghost start: nat, ghost initial: seq<Entry>,
                       executed: seq<Entry>) returns (executed': seq<Entry>, finished: bool, failed: bool)
      requires Valid() && start <= currentTime <= target
      requires TimesSorted(executed) && forall x :: x in executed ==> start <= x.time <= currentTime
      requires multiset(entries) + multiset(executed) == multiset(initial) + multiset(AllSpawned(executed, schedule))
      requires AllSucceeded(executed, fails)
      modifies this
      ensures Valid() && start <= currentTime <= target
      ensures TimesSorted(executed') && forall x :: x in executed' ==> start <= x.time <= currentTime
      ensures multiset(entries) + multiset(executed') == multiset(initial) + multiset(AllSpawned(executed', schedule))
      ensures finished ==> executed' == executed && !failed && currentTime == target && forall x :: x in entries ==> x.time > target
      ensures !finished ==> |executed'| == |executed| + 1 && executed'[..|executed|] == executed
      ensures !finished ==> (failed <==> executed'[|executed|] in fails) && currentTime == executed'[|executed|].time
      ensures !failed ==> AllSucceeded(executed', fails)
      ensures failed ==> |executed'| > 0 && AllSucceeded(executed'[..|executed'| - 1], fails)
    {
      var next := Peek();
      if next.None? || next.value.time > target {
        AfterTarget(next, entries, target);
        currentTime := target;
        return executed, true, false;
      }
      var e, ok := AdvanceRound(schedule, fails, target, next.value, start, initial, executed);
      executed', finished, failed := executed + [e], false, !ok;
      SucceededAppend(executed, e, fails);
    }

    /** A round of the advance loop that runs a trigger due by the target keeps the loop's bookkeeping. */
    method AdvanceRound(schedule: Schedule, fails: Failure, target: nat, ghost next: Entry, ghost start: nat, ghost initial: seq<Entry>,
                        ghost executed: seq<Entry>) returns (e: Entry, ok: bool)
      requires Valid() && IsMin(next, entries) && next.time <= target && start <= currentTime
      requires TimesSorted(executed) && forall x :: x in executed ==> start <= x.time <= currentTime
      requires multiset(entries) + multiset(executed) == multiset(initial) + multiset(AllSpawned(executed, schedule))
      modifies this
      ensures Valid() && e == next && start <= currentTime <= target && currentTime == e.time && ok == (e !in fails)
      ensures TimesSorted(executed + [e]) && forall x :: x in executed + [e] ==> start <= x.time <= currentTime
      ensures multiset(entries) + multiset(executed + [e]) == multiset(initial) + multiset(AllSpawned(executed + [e], schedule))
    {
      ghost var before := entries;
      ghost var clock := currentTime;
      e, ok := RunNext(schedule, fails);
      MinUnique(e, next, before);
      RoundKeeps(initial, before, entries, executed, e, schedule, start, clock);
    }
  }

  /** The least entry is after the target, so every entry is. */
  lemma AfterTarget(next: Option<Entry>, es: seq<Entry>, target: nat)
    requires next.None? <==> es == []
    requires next.Some? ==> IsMin(next.value, es)
    requires next.None? || next.value.time > target
    ensures forall e :: e in es ==> e.time > target
  {
    if next.Some? {
      forall e | e in es
        ensures e.time > target
      {
        assert LessEq(next.value, e);
      }
    }
  }

  /** One round of the advance loop keeps its bookkeeping invariants. */
  lemma RoundKeeps(initial: seq<Entry>, before: seq<Entry>, after: seq<Entry>, executed: seq<Entry>, e: Entry,
                   schedule: Schedule, start: nat, clock: nat)
    requires e in before && e.time >= clock
    requires multiset(after) == multiset(before) - multiset{e} + multiset(Spawned(e, schedule))
    requires multiset(before) + multiset(executed) == multiset(initial) + multiset(AllSpawned(executed, schedule))
    requires TimesSorted(executed) && forall x :: x in executed ==> start <= x.time <= clock
    ensures TimesSorted(executed + [e])
    ensures multiset(after) + multiset(executed + [e]) == multiset(initial) + multiset(AllSpawned(executed + [e], schedule))
  {
    AllSpawnedStep(executed, e, schedule);
    assert multiset(executed + [e]) == multiset(executed) + multiset{e};
    assert multiset(AllSpawned(executed + [e], schedule))
        == multiset(AllSpawned(executed, schedule)) + multiset(Spawned(e, schedule));
    MultisetRound(multiset(before), multiset(after), multiset(executed), multiset(initial),
      multiset(AllSpawned(executed, schedule)), multiset(Spawned(e, schedule)), e);
    SortedStep(executed, e, clock);
  }

  lemma MultisetRound(before: multiset<Entry>, after: multiset<Entry>, executed: multiset<Entry>,
                      initial: multiset<Entry>, spawned: multiset<Entry>, added: multiset<Entry>, e: Entry)
    requires e in before
    requires after == before - multiset{e} + added
    requires before + executed == initial + spawned
    ensures after + (executed + multiset{e}) == initial + (spawned + added)
  {
    forall x
      ensures (after + (executed + multiset{e}))[x] == (initial + (spawned + added))[x]
    {
      assert (before + executed)[x] == (initial + spawned)[x];
    }
  }

  lemma SortedStep(executed: seq<Entry>, e: Entry, clock: nat)
    requires TimesSorted(executed) && forall x :: x in executed ==> x.time <= clock
    requires e.time >= clock
    ensures TimesSorted(executed + [e])
  {
    forall i, j | 0 <= i < j < |executed + [e]|
      ensures (executed + [e])[i].time <= (executed + [e])[j].time
    {
      if j == |executed| {
        assert executed[i] in executed;
      }
    }
  }

  lemma SpawnedFromAppend(t: nat, a: seq<(nat, nat)>, b: seq<(nat, nat)>)
    ensures SpawnedFrom(t, a + b) == SpawnedFrom(t, a) + SpawnedFrom(t, b)
  {
    SpawnedFromAt(t, a);
    SpawnedFromAt(t, b);
    SpawnedFromAt(t, a + b);
  }

  /** One more follow-up pushed after the ones before it. */
  lemma SpawnedFromStep(start: seq<Entry>, t: nat, ps: seq<(nat, nat)>, i: nat)
    requires i < |ps|
    ensures start + SpawnedFrom(t, ps[..i]) + [Entry(ps[i].0, t + ps[i].1)] == start + SpawnedFrom(t, ps[..i + 1])
  {
    assert ps[..i + 1] == ps[..i] + [ps[i]];
    SpawnedFromAppend(t, ps[..i], [ps[i]]);
  }

  lemma AllSpawnedStep(executed: seq<Entry>, e: Entry, schedule: Schedule)
    ensures AllSpawned(executed + [e], schedule) == AllSpawned(executed, schedule) + Spawned(e, schedule)
  {
    assert (executed + [e])[..|executed|] == executed;
  }

  /** `DoublingTrigger::execute`: the trigger pushes itself back twice, one tick later. */
  function DoublingSchedule(e: Entry): seq<(nat, nat)> {
    [(e.trigger, 1), (e.trigger, 1)]
  }

  /** Follow-ups of triggers at time t or later run at t + 1 or later. */
  lemma {:induction false} SpawnedLater(executed: seq<Entry>, t: nat)
    requires forall y :: y in executed ==> y.time >= t
    ensures forall x :: x in AllSpawned(executed, DoublingSchedule) ==> x.time >= t + 1
  {
    if executed != [] {
      var init := executed[..|executed| - 1];
      assert forall y :: y in init ==> y in executed;
      SpawnedLater(init, t);
      assert executed[|executed| - 1] in executed;
    }
  }

  /** Copies of one entry each spawn two copies of its successor. */
  lemma {:induction false} SpawnedOfSame(executed: seq<Entry>, e: Entry)
    requires forall y :: y in executed ==> y == e
    ensures |AllSpawned(executed, DoublingSchedule)| == 2 * |executed|
    ensures forall x :: x in AllSpawned(executed, DoublingSchedule) ==> x == Entry(e.trigger, e.time + 1)
  {
    if executed != [] {
      var init := executed[..|executed| - 1];
      assert forall y :: y in init ==> y in executed;
      SpawnedOfSame(init, e);
      assert executed[|executed| - 1] in executed;
    }
  }

  /** In a sequence of copies of a, a occurs as often as the sequence is long. */
  lemma {:induction false} CountOfSame(s: seq<Entry>, a: Entry)
    requires forall x :: x in s ==> x == a
    ensures multiset(s)[a] == |s|
  {
    if s != [] {
      var init := s[..|s| - 1];
      assert s == init + [s[|s| - 1]];
      assert s[|s| - 1] in s;
      assert forall x :: x in init ==> x in s;
      CountOfSame(init, a);
    }
  }

  /** What is left plus what ran equals what was queued plus what was spawned, element by element. */
  lemma CountsAt(left: multiset<Entry>, ran: multiset<Entry>, queued: multiset<Entry>, added: multiset<Entry>, x: Entry)
    requires left + ran == queued + added
    ensures left[x] + ran[x] == queued[x] + added[x]
  {
    assert (left + ran)[x] == (queued + added)[x];
  }

  /** Whatever ran was queued before or spawned on the way. */
  lemma RanFrom(left: multiset<Entry>, ran: multiset<Entry>, queued: multiset<Entry>, added: multiset<Entry>, x: Entry)
    requires left + ran == queued + added
    requires x in ran
    ensures x in queued || x in added
  {
    CountsAt(left, ran, queued, added, x);
  }

  /** The triggers behind one doubling update are exactly the queued copies, due at t + 1. */
  lemma DoublingRan(before: seq<Entry>, after: seq<Entry>, executed: seq<Entry>, d: nat, t: nat)
    requires forall e :: e in before ==> e == Entry(d, t + 1)
    requires forall e :: e in executed ==> t <= e.time <= t + 1
    requires multiset(after) + multiset(executed) == multiset(before) + multiset(AllSpawned(executed, DoublingSchedule))
    ensures forall e :: e in executed ==> e == Entry(d, t + 1)
  {
    var spawned := AllSpawned(executed, DoublingSchedule);
    SpawnedLater(executed, t);
    forall x | x in executed
      ensures x.time == t + 1
    {
      RanFrom(multiset(after), multiset(executed), multiset(before), multiset(spawned), x);
      assert x in before || x in spawned;
    }
    SpawnedLater(executed, t + 1);
    forall x | x in executed
      ensures x == Entry(d, t + 1)
    {
      RanFrom(multiset(after), multiset(executed), multiset(before), multiset(spawned), x);
      assert x in before || x in spawned;
    }
  }

  /**
   * Counting one update once its source is known: copies of e1 ran and copies
   * of e2 were spawned, two per run, so what is left after the update, when it
   * holds no e1, is twice the old queue in copies of e2.
   */
  lemma DoublingCounts(after: seq<Entry>, executed: seq<Entry>, before: seq<Entry>, spawned: seq<Entry>, e1: Entry, e2: Entry)
    requires e1 != e2
    requires forall x :: x in executed ==> x == e1
    requires forall x :: x in before ==> x == e1
    requires forall x :: x in spawned ==> x == e2
    requires |spawned| == 2 * |executed|
    requires multiset(after) + multiset(executed) == multiset(before) + multiset(spawned)
    ensures |executed| <= |before|
    ensures e1 !in after ==> |after| == 2 * |before| && forall x :: x in after ==> x == e2
  {
    var left, ran, queued, added := multiset(after), multiset(executed), multiset(before), multiset(spawned);
    CountOfSame(executed, e1);
    CountOfSame(before, e1);
    CountOfSame(spawned, e2);
    assert e1 !in spawned && e2 !in executed && e2 !in before;
    assert added[e1] == 0 && ran[e2] == 0 && queued[e2] == 0;
    CountsAt(left, ran, queued, added, e1);
    if e1 !in after {
      forall x | x in after
        ensures x == e2
      {
        CountsAt(left, ran, queued, added, x);
        assert x in before <==> x in queued;
        assert x in spawned <==> x in added;
      }
      CountOfSame(after, e2);
      CountsAt(left, ran, queued, added, e2);
    }
  }

  /**
   * One update of a queue holding only copies of one doubling trigger due at
   * t + 1, advanced from t to t + 1: exactly those copies run, and when the
   * loop finishes the queue holds twice as many copies due at t + 2.
   */
  lemma DoublingRound(before: seq<Entry>, after: seq<Entry>, executed: seq<Entry>, d: nat, t: nat, finished: bool)
    requires forall e :: e in before ==> e == Entry(d, t + 1)
    requires forall e :: e in executed ==> t <= e.time <= t + 1
    requires multiset(after) + multiset(executed) == multiset(before) + multiset(AllSpawned(executed, DoublingSchedule))
    requires finished ==> forall e :: e in after ==> e.time > t + 1
    ensures |executed| <= |before|
    ensures finished ==> |after| == 2 * |before| && forall e :: e in after ==> e == Entry(d, t + 2)
  {
    var e1, e2 := Entry(d, t + 1), Entry(d, t + 2);
    DoublingRan(before, after, executed, d, t);
    SpawnedOfSame(executed, e1);
    if finished {
      assert e1 !in after;
    }
    DoublingCounts(after, executed, before, AllSpawned(executed, DoublingSchedule), e1, e2);
  }

  /** 2^128: `IncrementalStats` keeps u128 fields and panics on overflow. */
  const U128: nat := 0x1_0000_0000_0000_0000_0000_0000_0000_0000

  /** The values of an `IncrementalStats`. */
  datatype Stats = Stats(count: nat, sum: nat, sumSq: nat, min: Option<nat>, max: Option<nat>)

  /** `IncrementalStats::new`: everything zero and no extremes yet. */
  const NoStats := Stats(0, 0, 0, None, None)

  /**
   * The statistics after `observe`: None stands for the panic when a counter, the square or a sum
   * would not fit in a u128.
   */
  function Observed(s: Stats, v: nat): (r: Option<Stats>)
    ensures r.None? <==> s.count + 1 >= U128 || s.sum + v >= U128 || v * v >= U128 || s.sumSq + v * v >= U128
    ensures r.Some? ==> r.value.count == s.count + 1 && r.value.sum == s.sum + v && r.value.sumSq == s.sumSq + v * v
    ensures r.Some? ==> r.value.min.Some? && r.value.max.Some?
    ensures r.Some? ==> r.value.min.value <= v <= r.value.max.value
    ensures r.Some? && s.min.Some? ==> r.value.min.value <= s.min.value && r.value.min.value in {s.min.value, v}
    ensures r.Some? && s.max.Some? ==> r.value.max.value >= s.max.value && r.value.max.value in {s.max.value, v}
    ensures r.Some? && s.min.None? ==> r.value.min.value == v
    ensures r.Some? && s.max.None? ==> r.value.max.value == v
  {
    if s.count + 1 >= U128 || s.sum + v >= U128 || v * v >= U128 || s.sumSq + v * v >= U128 then None
    else
      var lo := if s.min.None? || v < s.min.value then v else s.min.value;
      var hi := if s.max.None? || v > s.max.value then v else s.max.value;
      Some(Stats(s.count + 1, s.sum + v, s.sumSq + v * v, Some(lo), Some(hi)))
  }

  /** Observing the values one after another. */
  function ObserveAll(s: Stats, vs: seq<nat>): Option<Stats> {
    if vs == [] then Some(s)
    else
      match ObserveAll(s, vs[..|vs| - 1])
      case None => None
      case Some(t) => Observed(t, vs[|vs| - 1])
  }

  function Sum(vs: seq<nat>): nat {
    if vs == [] then 0 else Sum(vs[..|vs| - 1]) + vs[|vs| - 1]
  }

  function SumSq(vs: seq<nat>): nat {
    if vs == [] then 0 else SumSq(vs[..|vs| - 1]) + vs[|vs| - 1] * vs[|vs| - 1]
  }

  /**
   * Starting from `new`, the statistics after observing vs count the values,
   * sum them and their squares, and hold their least and greatest value.
   */
  lemma {:induction false} ObserveAllSummarises(vs: seq<nat>)
    requires ObserveAll(NoStats, vs).Some?
    ensures var s := ObserveAll(NoStats, vs).value;
      && s.count == |vs| && s.sum == Sum(vs) && s.sumSq == SumSq(vs)
      && (s.min.Some? <==> vs != []) && (s.max.Some? <==> vs != [])
      && (vs != [] ==> s.min.value in vs && s.max.value in vs)
      && (forall v :: v in vs ==> s.min.value <= v <= s.max.value)
  {
    if vs != [] {
      var init := vs[..|vs| - 1];
      var last := vs[|vs| - 1];
      assert vs == init + [last];
      ObserveAllSummarises(init);
    }
  }

  /** `mean` is None exactly for no observations; otherwise mean times count is the sum. */
  function Mean(s: Stats): (r: Option<real>)
    ensures r.None? <==> s.count == 0
    ensures r.Some? ==> r.value * s.count as real == s.sum as real
  {
    if s.count > 0 then Some(s.sum as real / s.count as real) else None
  }

  /**
   * `variance` is None for fewer than two observations; otherwise it is the
   * mean of the squares less the square of the mean.
   */
  function Variance(s: Stats): (r: Option<real>)
    ensures r.None? <==> s.count <= 1
    ensures r.Some? ==>
      r.value * (s.count as real * s.count as real) == s.count as real * s.sumSq as real - s.sum as real * s.sum as real
  {
    if s.count > 1 then
      var n, total, squares := s.count as real, s.sum as real, s.sumSq as real;
      var m := total / n;
      assert (squares / n - m * m) * (n * n) == n * squares - total * total by {
        assert m * n == total;
        assert (squares / n) * n == squares;
      }
      Some(squares / n - m * m)
    else None
  }

  /** The sum of squared distances of the values from any point c is not negative. */
  lemma {:induction false} SpreadNonNegative(vs: seq<nat>, c: int)
    ensures SumSq(vs) - 2 * c * Sum(vs) + |vs| * c * c >= 0
  {
    if vs != [] {
      var init, x := vs[..|vs| - 1], vs[|vs| - 1];
      SpreadNonNegative(init, c);
      SpreadStep(SumSq(init), Sum(init), |init|, x, c);
    }
  }

  lemma SpreadStep(q: int, t: int, n: int, x: int, c: int)
    ensures (q + x * x) - 2 * c * (t + x) + (n + 1) * c * c == (q - 2 * c * t + n * c * c) + (x - c) * (x - c)
    ensures (x - c) * (x - c) >= 0
  {
  }

  /** Cauchy-Schwarz for observations: the count times the sum of squares bounds the squared sum. */
  lemma {:induction false} SquaredSumBound(vs: seq<nat>)
    ensures |vs| * SumSq(vs) >= Sum(vs) * Sum(vs)
  {
    if vs != [] {
      var init, x := vs[..|vs| - 1], vs[|vs| - 1];
      SquaredSumBound(init);
      SpreadNonNegative(init, x);
      BoundStep(SumSq(init), Sum(init), |init|, x);
    }
  }

  lemma BoundStep(q: int, t: int, n: int, x: int)
    ensures (n + 1) * (q + x * x) - (t + x) * (t + x) == (n * q - t * t) + (q - 2 * x * t + n * x * x)
  {
  }

  /** The variance of observed values, computed exactly, is never negative. */
  lemma VarianceNonNegative(vs: seq<nat>)
    requires ObserveAll(NoStats, vs).Some? && |vs| > 1
    ensures Variance(ObserveAll(NoStats, vs).value).Some?
    ensures Variance(ObserveAll(NoStats, vs).value).value >= 0.0
  {
    var s := ObserveAll(NoStats, vs).value;
    ObserveAllSummarises(vs);
    SquaredSumBound(vs);
    BoundTransfers(vs, s);
    VarianceOfBoundedStats(s);
  }

  lemma VarianceOfBoundedStats(s: Stats)
    requires s.count > 1 && s.count * s.sumSq >= s.sum * s.sum
    ensures Variance(s).Some? && Variance(s).value >= 0.0
  {
    RealProducts(s.count, s.sumSq, s.sum);
    var n, q, t := s.count as real, s.sumSq as real, s.sum as real;
    SignOfQuotient(Variance(s).value, n * n, n * q - t * t);
  }

  lemma BoundTransfers(vs: seq<nat>, s: Stats)
    requires s.count == |vs| && s.sum == Sum(vs) && s.sumSq == SumSq(vs)
    requires |vs| * SumSq(vs) >= Sum(vs) * Sum(vs)
    ensures s.count * s.sumSq >= s.sum * s.sum
  {
  }

  lemma RealProducts(n: nat, q: nat, t: nat)
    requires n * q >= t * t
    ensures n as real * q as real - t as real * t as real >= 0.0
    ensures n > 0 ==> n as real * n as real > 0.0
  {
    assert (n * q) as real == n as real * q as real;
    assert (t * t) as real == t as real * t as real;
    assert (n * n) as real == n as real * n as real;
  }

  lemma SignOfQuotient(r: real, m: real, a: real)
    requires m > 0.0 && r * m == a && a >= 0.0
    ensures r >= 0.0
  {
  }

  /** `IncrementalStats`: the running counters one observation at a time. */
  class IncrementalStats {
    var count: nat
    var sum: nat
    var sumSq: nat
    var min: Option<nat>
    var max: Option<nat>

    function Value(): Stats
      reads this
    {
      Stats(count, sum, sumSq, min, max)
    }

    /** `IncrementalStats::new`. */
    constructor ()
      ensures Value() == NoStats
    {
      count, sum, sumSq, min, max := 0, 0, 0, None, None;
    }

    /** `observe`, which the source lets panic when a u128 would overflow. */
    method Observe(v: nat)
      requires Observed(Value(), v).Some?
      modifies this
      ensures Value() == Observed(old(Value()), v).value
    {
      count := count + 1;
      sum := sum + v;
      sumSq := sumSq + v * v;
      min := Some(if min.None? || v < min.value then v else min.value);
      max := Some(if max.None? || v > max.value then v else max.value);
    }
  }
}
