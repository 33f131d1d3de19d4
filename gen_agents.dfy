/**
 * The generator's agents (generate/agents.py). Every housing tile offers `density`
 * homes and every workplace tile `density` jobs. As many agents as there are homes
 * or jobs, whichever is fewer, get both a home and a job drawn at random; every home
 * left over gets an agent without a job.
 */
module GenAgents {
  import opened Wrappers
  import opened GenQuadtrees
  import opened AgentDatas

  /** The `tile` entry of a node's payload: its `type` and `density`, when present. */
  datatype TileRecord = TileRecord(kind: Option<string>, density: Option<int>)

  /**
   * What the walk hands the callback at one node: the node's address, and the `tile`
   * entry of its payload (None when the payload is missing or has no `tile`).
   */
  type Visit = (seq<nat>, Option<TileRecord>)

  /** `engine.Address(data.address, max_depth)`: a node's address in a tree of the given depth. */
  datatype Slot = Slot(path: seq<nat>, maxDepth: int)

  /** One call of the state's `add_agent`: the agent's data, its home and its job, if any. */
  datatype Request = Request(data: AgentData, home: Slot, work: Option<Slot>)

  const Housing := "HousingTile"
  const Workplace := "WorkplaceTile"

  /** `create_agent`: born on 1 January 2000 with 16 years of education. */
  const Newborn := AgentData(Date(2000, 1, 1), 16)

  /** A count as `range` takes it: a negative count gives no iterations. */
  function Iterations(n: int): nat {
    if n < 0 then 0 else n
  }

  /**
   * The homes and jobs one node offers; None when a housing or workplace tile has no
   * `density`, where the source raises.
   */
  function NodeSlots(v: Visit): (r: Option<(nat, nat)>)
    ensures r.None? <==> v.1.Some? && v.1.value.density.None? && v.1.value.kind in {Some(Housing), Some(Workplace)}
    ensures r.Some? && r.value.0 > 0 ==> v.1.Some? && v.1.value.kind == Some(Housing)
    ensures r.Some? && r.value.1 > 0 ==> v.1.Some? && v.1.value.kind == Some(Workplace)
  {
    match v.1
    case None => Some((0, 0))
    case Some(t) =>
      if t.kind == Some(Housing) then
        if t.density.None? then None else Some((Iterations(t.density.value), 0))
      else if t.kind == Some(Workplace) then
        if t.density.None? then None else Some((0, Iterations(t.density.value)))
      else Some((0, 0))
  }

  /** The home and job lists `count_tiles` builds over the visits, in the walk's order. */
  function Tally(visits: seq<Visit>, maxDepth: int): Option<(seq<Slot>, seq<Slot>)> {
    if visits == [] then Some(([], []))
    else Extend(Tally(visits[..|visits| - 1], maxDepth), visits[|visits| - 1], maxDepth)
  }

  /** The lists after one more visit: that node's homes and jobs appended. */
  function Extend(lists: Option<(seq<Slot>, seq<Slot>)>, v: Visit, maxDepth: int): Option<(seq<Slot>, seq<Slot>)> {
    match (lists, NodeSlots(v))
    case (Some(l), Some(n)) =>
      var s := Slot(v.0, maxDepth);
      Some((l.0 + Copies(s, n.0), l.1 + Copies(s, n.1)))
    case _ => None
  }

  /** The tally succeeds exactly when no housing or workplace tile lacks its density. */
  lemma {:induction false} TallyDefined(visits: seq<Visit>, maxDepth: int)
    ensures Tally(visits, maxDepth).Some? <==> forall i :: 0 <= i < |visits| ==> NodeSlots(visits[i]).Some?
  {
    if visits != [] {
      var init := visits[..|visits| - 1];
      TallyDefined(init, maxDepth);
      assert forall i :: 0 <= i < |init| ==> init[i] == visits[i];
    }
  }

  /** How many times `x` repeats in `Copies(c, n)`. */
  lemma {:induction false} CopiesCount<T>(c: T, n: nat, x: T)
    ensures multiset(Copies(c, n))[x] == if x == c then n else 0
  {
    if n > 0 {
      CopiesCount(c, n - 1, x);
    }
  }

  /** Whether no two visits are at the same address; the walk never repeats one. */
  predicate DistinctPaths(visits: seq<Visit>) {
    forall i, j :: 0 <= i < j < |visits| ==> visits[i].0 != visits[j].0
  }

  /**
   * When the visits' addresses are distinct, each node's address appears in the home
   * list exactly as often as its housing density says, and in the job list exactly as
   * often as its workplace density says.
   */
  lemma {:induction false} TallyMultiplicity(visits: seq<Visit>, maxDepth: int, i: nat)
    requires DistinctPaths(visits)
    requires Tally(visits, maxDepth).Some?
    requires i < |visits|
    ensures NodeSlots(visits[i]).Some?
    ensures multiset(Tally(visits, maxDepth).value.0)[Slot(visits[i].0, maxDepth)] == NodeSlots(visits[i]).value.0
    ensures multiset(Tally(visits, maxDepth).value.1)[Slot(visits[i].0, maxDepth)] == NodeSlots(visits[i]).value.1
    decreases |visits|
  {
    var init := visits[..|visits| - 1];
    var v := visits[|visits| - 1];
    var lists := Tally(init, maxDepth).value;
    var n := NodeSlots(v).value;
    var x := Slot(visits[i].0, maxDepth);
    CopiesCount(Slot(v.0, maxDepth), n.0, x);
    CopiesCount(Slot(v.0, maxDepth), n.1, x);
    if i < |init| {
      assert init[i] == visits[i];
      TallyMultiplicity(init, maxDepth, i);
    } else {
      TallyAbsent(init, maxDepth, visits[i].0);
    }
  }

  /** An address no visit is at is neither a home nor a job. */
  lemma {:induction false} TallyAbsent(visits: seq<Visit>, maxDepth: int, path: seq<nat>)
    requires Tally(visits, maxDepth).Some?
    requires forall i :: 0 <= i < |visits| ==> visits[i].0 != path
    ensures multiset(Tally(visits, maxDepth).value.0)[Slot(path, maxDepth)] == 0
    ensures multiset(Tally(visits, maxDepth).value.1)[Slot(path, maxDepth)] == 0
    decreases |visits|
  {
    if visits != [] {
      var init := visits[..|visits| - 1];
      var v := visits[|visits| - 1];
      assert forall i :: 0 <= i < |init| ==> init[i] == visits[i];
      TallyAbsent(init, maxDepth, path);
      var n := NodeSlots(v).value;
      CopiesCount(Slot(v.0, maxDepth), n.0, Slot(path, maxDepth));
      CopiesCount(Slot(v.0, maxDepth), n.1, Slot(path, maxDepth));
    }
  }

  /** `count_tiles` over the walk: appends each node's homes and jobs, one slot at a time. */
  method CountTiles(visits: seq<Visit>, maxDepth: int) returns (r: Option<(seq<Slot>, seq<Slot>)>)
    ensures r == Tally(visits, maxDepth)
  {
    var housing: seq<Slot> := [];
    var workplaces: seq<Slot> := [];
    var k := 0;
    while k < |visits|
      invariant 0 <= k <= |visits|
      invariant Tally(visits[..k], maxDepth) == Some((housing, workplaces))
    {
      var v := visits[k];
      assert visits[..k + 1][..k] == visits[..k] && visits[..k + 1][k] == v;
      ghost var before := Some((housing, workplaces));
      assert Tally(visits[..k + 1], maxDepth) == Extend(before, v, maxDepth);
      if v.1.Some? && v.1.value.kind in {Some(Housing), Some(Workplace)} {
        var t := v.1.value;
        if t.density.None? {
          TallyDefined(visits, maxDepth);
          return None;
        }
        var s := Slot(v.0, maxDepth);
        assert Copies(s, 0) == [] && housing + [] == housing && workplaces + [] == workplaces;
        if t.kind == Some(Housing) {
          housing := AppendCopies(housing, s, t.density.value);
        } else {
          workplaces := AppendCopies(workplaces, s, t.density.value);
        }
      } else {
        assert NodeSlots(v) == Some((0, 0));
        assert Copies(Slot(v.0, maxDepth), 0) == [] && housing + [] == housing && workplaces + [] == workplaces;
      }
      assert Some((housing, workplaces)) == Extend(before, v, maxDepth);
      k := k + 1;
    }
    assert visits[..k] == visits;
    r := Some((housing, workplaces));
  }

  /** The inner `for _ in range(density)` loop: `density` copies of the slot appended. */
  method AppendCopies(list: seq<Slot>, s: Slot, density: int) returns (r: seq<Slot>)
    ensures r == list + Copies(s, Iterations(density))
  {
    r := list;
    var j := 0;
    while j < density
      invariant 0 <= j <= Iterations(density)
      invariant r == list + Copies(s, j)
    {
      r := r + [s];
      j := j + 1;
    }
  }

  function Min(a: nat, b: nat): nat {
    if a < b then a else b
  }

  /**
   * The random draws of the assignment loop: for the k-th working agent, an index into
   * what is left of the homes and of the jobs, as `randrange` gives them.
   */
  predicate ValidPicks(picks: seq<(nat, nat)>, homes: nat, jobs: nat) {
    |picks| == Min(homes, jobs) && Fits(picks, homes, jobs)
  }

  /** `list.pop(i)`: the list without its i-th element. */
  function RemoveAt<T>(s: seq<T>, i: nat): (r: seq<T>)
    requires i < |s|
    ensures |r| == |s| - 1
    ensures multiset(s) == multiset(r) + multiset{s[i]}
  {
    assert s == s[..i] + [s[i]] + s[i + 1..];
    s[..i] + s[i + 1..]
  }

  /** The homes of the requests, in order. */
  function Homes(agents: seq<Request>): (r: seq<Slot>)
    ensures |r| == |agents| && forall k :: 0 <= k < |agents| ==> r[k] == agents[k].home
  {
    seq(|agents|, k requires 0 <= k < |agents| => agents[k].home)
  }

  /** The jobs of the requests that have one, in order. */
  function Jobs(agents: seq<Request>): seq<Slot> {
    if agents == [] then []
    else
      var a := agents[|agents| - 1];
      Jobs(agents[..|agents| - 1]) + if a.work.Some? then [a.work.value] else []
  }

  /**
   * What `modify_state` promises of the agents it adds: one per home, each home used
   * exactly once; the first min(#homes, #jobs) of them with a job, no job used twice;
   * the rest without one; all with the same agent data.
   */
  predicate Assigned(agents: seq<Request>, housing: seq<Slot>, workplaces: seq<Slot>) {
    Housed(agents, housing) && Employed(agents, Min(|housing|, |workplaces|), workplaces)
  }

  /** One agent per home, every home used exactly once, all with the same agent data. */
  predicate Housed(agents: seq<Request>, housing: seq<Slot>) {
    && |agents| == |housing|
    && (forall k :: 0 <= k < |agents| ==> agents[k].data == Newborn)
    && multiset(Homes(agents)) == multiset(housing)
  }

  /** The first `total` agents have a job and the rest none; no job is used twice. */
  predicate Employed(agents: seq<Request>, total: nat, workplaces: seq<Slot>) {
    && (forall k :: 0 <= k < |agents| ==> (agents[k].work.Some? <==> k < total))
    && multiset(Jobs(agents)) <= multiset(workplaces)
    && |Jobs(agents)| == total
  }

  /** Adding one request adds its home, and its job if it has one. */
  lemma HomesJobsAppend(agents: seq<Request>, a: Request)
    ensures Homes(agents + [a]) == Homes(agents) + [a.home]
    ensures Jobs(agents + [a]) == Jobs(agents) + if a.work.Some? then [a.work.value] else []
  {
    assert (agents + [a])[..|agents|] == agents;
    assert Homes(agents + [a]) == Homes(agents) + [a.home];
  }

  /**
   * The two loops of `modify_state`: working agents take a drawn home and a drawn job
   * until one list runs out, then every home left gets an agent without a job.
   */
  method AssignAgents(housing: seq<Slot>, workplaces: seq<Slot>, picks: seq<(nat, nat)>) returns (agents: seq<Request>)
    requires ValidPicks(picks, |housing|, |workplaces|)
    ensures Assigned(agents, housing, workplaces)
  {
    var h;
    var working;
    working, h := AddWorking(housing, workplaces, picks);
    WorkingShape(housing, workplaces, picks);
    WorkingHomes(housing, workplaces, picks);
    WorkingJobs(housing, workplaces, picks);
    agents := AddNonWorking(working, h);
    WorkingThenUnemployed(working, h, housing, workplaces);
  }

  /** Each draw is within what is left of the homes and jobs at its round. */
  predicate Fits(picks: seq<(nat, nat)>, homes: int, jobs: int) {
    forall k :: 0 <= k < |picks| ==> picks[k].0 < homes - k && picks[k].1 < jobs - k
  }

  /**
   * The working agents the draws give, front to back, and the homes left: each draw
   * pops a home and a job.
   */
  function Working(h: seq<Slot>, w: seq<Slot>, picks: seq<(nat, nat)>): (seq<Request>, seq<Slot>)
    requires Fits(picks, |h|, |w|)
    decreases |picks|
  {
    if picks == [] then ([], h)
    else
      var p := picks[0];
      assert Fits(picks[1..], |h| - 1, |w| - 1) by {
        assert forall k :: 0 <= k < |picks| - 1 ==> picks[1..][k] == picks[k + 1];
      }
      var rest := Working(RemoveAt(h, p.0), RemoveAt(w, p.1), picks[1..]);
      ([Request(Newborn, h[p.0], Some(w[p.1]))] + rest.0, rest.1)
  }

  /** The draws of `Working` are one round each. */
  lemma WorkingUnfold(h: seq<Slot>, w: seq<Slot>, picks: seq<(nat, nat)>)
    requires Fits(picks, |h|, |w|) && picks != []
    ensures Fits(picks[1..], |h| - 1, |w| - 1)
    ensures var p := picks[0];
      Working(h, w, picks) == ([Request(Newborn, h[p.0], Some(w[p.1]))] + Working(RemoveAt(h, p.0), RemoveAt(w, p.1), picks[1..]).0,
                               Working(RemoveAt(h, p.0), RemoveAt(w, p.1), picks[1..]).1)
  {
    assert forall k :: 0 <= k < |picks| - 1 ==> picks[1..][k] == picks[k + 1];
  }

  /**
   * The draws give one working agent each and leave the other homes, and every working
   * agent has a job and the same agent data.
   */
  lemma {:induction false} WorkingShape(h: seq<Slot>, w: seq<Slot>, picks: seq<(nat, nat)>)
    requires Fits(picks, |h|, |w|)
    ensures var r := Working(h, w, picks);
      && |r.0| == |picks| && |r.1| == |h| - |picks|
      && forall j :: 0 <= j < |r.0| ==> r.0[j].work.Some? && r.0[j].data == Newborn
    decreases |picks|
  {
    if picks != [] {
      var p := picks[0];
      WorkingUnfold(h, w, picks);
      WorkingShape(RemoveAt(h, p.0), RemoveAt(w, p.1), picks[1..]);
    }
  }

  /** Every home is either given to a working agent or left, exactly once. */
  lemma {:induction false} WorkingHomes(h: seq<Slot>, w: seq<Slot>, picks: seq<(nat, nat)>)
    requires Fits(picks, |h|, |w|)
    ensures multiset(Homes(Working(h, w, picks).0)) + multiset(Working(h, w, picks).1) == multiset(h)
    decreases |picks|
  {
    if picks != [] {
      var p := picks[0];
      WorkingUnfold(h, w, picks);
      var rest := Working(RemoveAt(h, p.0), RemoveAt(w, p.1), picks[1..]);
      WorkingHomes(RemoveAt(h, p.0), RemoveAt(w, p.1), picks[1..]);
      var a := Request(Newborn, h[p.0], Some(w[p.1]));
      assert Homes([a] + rest.0) == [a.home] + Homes(rest.0);
    }
  }

  /** The jobs given are among the workplaces, each at most once, one per working agent. */
  lemma {:induction false} WorkingJobs(h: seq<Slot>, w: seq<Slot>, picks: seq<(nat, nat)>)
    requires Fits(picks, |h|, |w|)
    ensures multiset(Jobs(Working(h, w, picks).0)) <= multiset(w)
    ensures |Jobs(Working(h, w, picks).0)| == |picks|
    decreases |picks|
  {
    if picks != [] {
      var p := picks[0];
      WorkingUnfold(h, w, picks);
      var rest := Working(RemoveAt(h, p.0), RemoveAt(w, p.1), picks[1..]);
      WorkingJobs(RemoveAt(h, p.0), RemoveAt(w, p.1), picks[1..]);
      var a := Request(Newborn, h[p.0], Some(w[p.1]));
      HomesJobsConcat([a], rest.0);
      HomesJobsAppend([], a);
      assert [] + [a] == [a];
    }
  }

  /** The first loop: each working agent pops a drawn home and a drawn job. */
  method AddWorking(housing: seq<Slot>, workplaces: seq<Slot>, picks: seq<(nat, nat)>) returns (agents: seq<Request>, h: seq<Slot>)
    requires Fits(picks, |housing|, |workplaces|)
    ensures (agents, h) == Working(housing, workplaces, picks)
  {
    h := housing;
    var w := workplaces;
    agents := [];
    var k := 0;
    ghost var spec := Working(housing, workplaces, picks);
    assert picks[0..] == picks && [] + spec.0 == spec.0;
    while k < |picks|
      invariant 0 <= k <= |picks|
      invariant |h| == |housing| - k && |w| == |workplaces| - k
      invariant Fits(picks[k..], |h|, |w|)
      invariant spec.0 == agents + Working(h, w, picks[k..]).0
      invariant spec.1 == Working(h, w, picks[k..]).1
    {
      var a := Request(Newborn, h[picks[k].0], Some(w[picks[k].1]));
      assert picks[k..][0] == picks[k] && picks[k..][1..] == picks[k + 1..];
      ghost var rest := Working(RemoveAt(h, picks[k].0), RemoveAt(w, picks[k].1), picks[k + 1..]);
      assert Working(h, w, picks[k..]) == ([a] + rest.0, rest.1);
      assert agents + ([a] + rest.0) == (agents + [a]) + rest.0;
      h := RemoveAt(h, picks[k].0);
      w := RemoveAt(w, picks[k].1);
      agents := agents + [a];
      k := k + 1;
    }
    assert picks[k..] == [] && agents + [] == agents;
  }

  /** The agents without a job, one per home, in order. */
  function Unemployed(h: seq<Slot>): (r: seq<Request>)
    ensures |r| == |h|
    ensures forall j :: 0 <= j < |h| ==> r[j] == Request(Newborn, h[j], None)
  {
    seq(|h|, j requires 0 <= j < |h| => Request(Newborn, h[j], None))
  }

  /** The second loop: every home left gets an agent without a job. */
  method AddNonWorking(working: seq<Request>, h: seq<Slot>) returns (agents: seq<Request>)
    ensures agents == working + Unemployed(h)
  {
    agents := working;
    var i := 0;
    while i < |h|
      invariant 0 <= i <= |h|
      invariant agents == working + Unemployed(h[..i])
    {
      agents := agents + [Request(Newborn, h[i], None)];
      i := i + 1;
      assert Unemployed(h[..i]) == Unemployed(h[..i - 1]) + [Request(Newborn, h[i - 1], None)];
    }
    assert h[..i] == h;
  }

  lemma {:induction false} HomesJobsConcat(a: seq<Request>, b: seq<Request>)
    ensures Homes(a + b) == Homes(a) + Homes(b)
    ensures Jobs(a + b) == Jobs(a) + Jobs(b)
    decreases |b|
  {
    if b == [] {
      assert a + b == a;
    } else {
      var init := b[..|b| - 1];
      var last := b[|b| - 1];
      assert a + b == (a + init) + [last];
      assert b == init + [last];
      HomesJobsConcat(a, init);
      HomesJobsAppend(a + init, last);
      HomesJobsAppend(init, last);
    }
  }

  lemma {:induction false} UnemployedHomesJobs(h: seq<Slot>)
    ensures Homes(Unemployed(h)) == h
    ensures Jobs(Unemployed(h)) == []
    decreases |h|
  {
    if h != [] {
      var init := h[..|h| - 1];
      assert Unemployed(h) == Unemployed(init) + [Request(Newborn, h[|h| - 1], None)];
      UnemployedHomesJobs(init);
      HomesJobsAppend(Unemployed(init), Request(Newborn, h[|h| - 1], None));
    }
  }

  /** The working agents followed by one jobless agent per home left satisfy `Assigned`. */
  lemma WorkingThenUnemployed(working: seq<Request>, h: seq<Slot>, housing: seq<Slot>, workplaces: seq<Slot>)
    requires |working| == Min(|housing|, |workplaces|) && |h| == |housing| - |working|
    requires multiset(Homes(working)) + multiset(h) == multiset(housing)
    requires multiset(Jobs(working)) <= multiset(workplaces) && |Jobs(working)| == |working|
    requires forall j :: 0 <= j < |working| ==> working[j].work.Some? && working[j].data == Newborn
    ensures Assigned(working + Unemployed(h), housing, workplaces)
  {
    UnemployedHoused(working, h, housing);
    UnemployedEmployed(working, h, workplaces);
  }

  lemma UnemployedHoused(working: seq<Request>, h: seq<Slot>, housing: seq<Slot>)
    requires |working| + |h| == |housing|
    requires multiset(Homes(working)) + multiset(h) == multiset(housing)
    requires forall j :: 0 <= j < |working| ==> working[j].data == Newborn
    ensures Housed(working + Unemployed(h), housing)
  {
    var all := working + Unemployed(h);
    ConcatHomesJobs(working, h);
    assert forall k :: 0 <= k < |working| ==> all[k] == working[k];
  }

  lemma UnemployedEmployed(working: seq<Request>, h: seq<Slot>, workplaces: seq<Slot>)
    requires multiset(Jobs(working)) <= multiset(workplaces) && |Jobs(working)| == |working|
    requires forall j :: 0 <= j < |working| ==> working[j].work.Some?
    ensures Employed(working + Unemployed(h), |working|, workplaces)
  {
    var all := working + Unemployed(h);
    ConcatHomesJobs(working, h);
    assert forall k :: 0 <= k < |working| ==> all[k] == working[k];
  }

  /** The homes of the working agents and the homes left, and the working agents' jobs. */
  lemma ConcatHomesJobs(working: seq<Request>, h: seq<Slot>)
    ensures Homes(working + Unemployed(h)) == Homes(working) + h
    ensures Jobs(working + Unemployed(h)) == Jobs(working)
  {
    HomesJobsConcat(working, Unemployed(h));
    UnemployedHomesJobs(h);
    assert Jobs(working) + [] == Jobs(working);
  }

  /**
   * `modify_state`: tallies homes and jobs over the walk, then assigns them. None when a
   * housing or workplace tile has no density, where the source raises.
   */
  method ModifyState(visits: seq<Visit>, maxDepth: int, picks: seq<(nat, nat)>) returns (r: Option<seq<Request>>)
    requires Tally(visits, maxDepth).Some? ==>
      var lists := Tally(visits, maxDepth).value;
      ValidPicks(picks, |lists.0|, |lists.1|)
    ensures r.Some? <==> Tally(visits, maxDepth).Some?
    ensures r.Some? ==>
      var lists := Tally(visits, maxDepth).value;
      Assigned(r.value, lists.0, lists.1)
  {
    var lists := CountTiles(visits, maxDepth);
    if lists.None? {
      return None;
    }
    var agents := AssignAgents(lists.value.0, lists.value.1, picks);
    r := Some(agents);
  }
}
