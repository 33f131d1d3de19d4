/**
 * The network store (engine/network/network.rs, with the network-level change
 * operations of engine/network/change_state.rs): junctions and segments in two
 * id-allocating maps, the junction lists kept in step with the segments'
 * endpoints, and the staged change sets. `validate` states the store's
 * invariant outright; the operations below preserve it.
 */
module Networks {
  import opened Wrappers
  import opened ManagedMaps
  import opened ChangeStates
  import opened Junctions

  /**
   * The part of a segment (engine/network/segment.rs) the store relies on; the
   * spline, its length and the bounds are computed from f64 keys and are not modelled.
   */
  datatype Segment<S> = Segment(id: nat, data: S, keys: seq<Key>, start: nat, end: nat, changeState: ChangeState)

  /** `Segment::new` followed by `set_keys` when keys are given. */
  function NewSegment<S>(id: nat, data: S, start: nat, end: nat, keys: Option<seq<Key>>): (r: Segment<S>)
    ensures r.id == id && r.data == data && r.start == start && r.end == end && r.changeState == Active
    ensures r.keys == (if keys.Some? then keys.value else [])
  {
    Segment(id, data, if keys.Some? then keys.value else [], start, end, Active)
  }

  function SegmentId<S>(s: Segment<S>): nat { s.id }
  function SegmentCloneNewId<S>(s: Segment<S>, id: nat): Segment<S> { s.(id := id) }
  function SegmentState<S>(s: Segment<S>): ChangeState { s.changeState }
  function SegmentSetState<S>(s: Segment<S>, c: ChangeState): Segment<S> { s.(changeState := c) }

  /** The segment's `WithHandle` and `WithChangeState` implementations. */
  function SegmentOps<S(!new)>(): ItemOps<Segment<S>> {
    ItemOps(SegmentId, SegmentCloneNewId, SegmentState, SegmentSetState)
  }

  lemma SegmentOpsLawful<S(!new)>()
    ensures SegmentOps<S>().Lawful()
  {
  }

  // ---------------------------------------------------------------------------
  // The invariant `validate` checks
  // ---------------------------------------------------------------------------

  predicate JunctionKeysMatch<J>(js: map<nat, Junction<J>>) {
    forall k :: k in js ==> js[k].id == k
  }

  predicate SegmentKeysMatch<S>(ss: map<nat, Segment<S>>) {
    forall k :: k in ss ==> ss[k].id == k
  }

  /** A segment id listed by junction j exists and ends (incoming) or starts (outgoing) at j. */
  predicate ListedAgrees<S>(ss: map<nat, Segment<S>>, j: nat, s: nat, incoming: bool) {
    s in ss && (if incoming then ss[s].end == j else ss[s].start == j)
  }

  /** Every segment a junction lists exists and agrees that it ends or starts there. */
  predicate ListsSound<J, S>(js: map<nat, Junction<J>>, ss: map<nat, Segment<S>>) {
    && (forall j, s :: j in js && s in js[j].incoming ==> ListedAgrees(ss, j, s, true))
    && (forall j, s :: j in js && s in js[j].outgoing ==> ListedAgrees(ss, j, s, false))
  }

  /**
   * Segment s's start (atStart) or end junction exists, lists s in the matching list,
   * and is active when s is.
   */
  predicate EndAgrees<J, S>(js: map<nat, Junction<J>>, ss: map<nat, Segment<S>>, s: nat, atStart: bool)
    requires s in ss
  {
    var g := ss[s];
    var e := if atStart then g.start else g.end;
    && e in js
    && g.id in (if atStart then js[e].outgoing else js[e].incoming)
    && (g.changeState.IsActive() ==> js[e].changeState.IsActive())
  }

  predicate EndsSound<J, S>(js: map<nat, Junction<J>>, ss: map<nat, Segment<S>>) {
    forall s :: s in ss ==> EndAgrees(js, ss, s, true) && EndAgrees(js, ss, s, false)
  }

  /** What `validate` accepts. */
  predicate Sound<J, S>(js: map<nat, Junction<J>>, ss: map<nat, Segment<S>>) {
    JunctionKeysMatch(js) && SegmentKeysMatch(ss) && ListsSound(js, ss) && EndsSound(js, ss)
  }

  /** The number of issues `validate` reports for one list of junction j, in list order. */
  function ListIssues<S>(ss: map<nat, Segment<S>>, j: nat, xs: seq<nat>, incoming: bool): nat
    decreases |xs|
  {
    if xs == [] then 0
    else ListIssues(ss, j, xs[..|xs| - 1], incoming) + (if ListedAgrees(ss, j, xs[|xs| - 1], incoming) then 0 else 1)
  }

  /** The issue (0 or 1) `validate` reports for segment s's start or end junction. */
  function EndIssue<J, S>(js: map<nat, Junction<J>>, ss: map<nat, Segment<S>>, s: nat, atStart: bool): nat
    requires s in ss
  {
    if EndAgrees(js, ss, s, atStart) then 0 else 1
  }

  /** The issues of the junctions with key below n (the BTreeMap is visited in key order). */
  function JunctionIssuesBelow<J, S>(js: map<nat, Junction<J>>, ss: map<nat, Segment<S>>, n: nat): nat {
    if n == 0 then 0 else JunctionIssuesBelow(js, ss, n - 1) + JunctionIssuesAt(js, ss, n - 1)
  }

  /** The issues of junction k's two lists; none when there is no junction k. */
  function JunctionIssuesAt<J, S>(js: map<nat, Junction<J>>, ss: map<nat, Segment<S>>, k: nat): nat {
    if k in js then ListIssues(ss, js[k].id, js[k].incoming, true) + ListIssues(ss, js[k].id, js[k].outgoing, false) else 0
  }

  /** The issues of the segments with key below n. */
  function SegmentIssuesBelow<J, S>(js: map<nat, Junction<J>>, ss: map<nat, Segment<S>>, n: nat): nat {
    if n == 0 then 0 else SegmentIssuesBelow(js, ss, n - 1) + SegmentIssuesAt(js, ss, n - 1)
  }

  /** The issues of segment k's two endpoints; none when there is no segment k. */
  function SegmentIssuesAt<J, S>(js: map<nat, Junction<J>>, ss: map<nat, Segment<S>>, k: nat): nat {
    if k in ss then EndIssue(js, ss, k, true) + EndIssue(js, ss, k, false) else 0
  }

  lemma {:induction false} ListIssuesZero<S>(ss: map<nat, Segment<S>>, j: nat, xs: seq<nat>, incoming: bool)
    ensures ListIssues(ss, j, xs, incoming) == 0 <==> forall s :: s in xs ==> ListedAgrees(ss, j, s, incoming)
    decreases |xs|
  {
    if xs != [] {
      var init := xs[..|xs| - 1];
      ListIssuesZero(ss, j, init, incoming);
      assert xs == init + [xs[|xs| - 1]];
      assert forall s :: s in xs <==> s in init || s == xs[|xs| - 1];
    }
  }

  lemma {:induction false} JunctionIssuesZero<J, S>(js: map<nat, Junction<J>>, ss: map<nat, Segment<S>>, n: nat)
    requires JunctionKeysMatch(js)
    ensures JunctionIssuesBelow(js, ss, n) == 0 <==>
      forall j, s :: j < n && j in js ==>
        (s in js[j].incoming ==> ListedAgrees(ss, j, s, true)) && (s in js[j].outgoing ==> ListedAgrees(ss, j, s, false))
  {
    if n > 0 {
      JunctionIssuesZero(js, ss, n - 1);
      if n - 1 in js {
        ListIssuesZero(ss, n - 1, js[n - 1].incoming, true);
        ListIssuesZero(ss, n - 1, js[n - 1].outgoing, false);
      }
    }
  }

  lemma {:induction false} SegmentIssuesZero<J, S>(js: map<nat, Junction<J>>, ss: map<nat, Segment<S>>, n: nat)
    ensures SegmentIssuesBelow(js, ss, n) == 0 <==>
      forall s :: s < n && s in ss ==> EndAgrees(js, ss, s, true) && EndAgrees(js, ss, s, false)
  {
    if n > 0 {
      SegmentIssuesZero(js, ss, n - 1);
    }
  }

  /**
   * With the ids matching the keys and every key below its map's counter, `validate`
   * counts no issue exactly when the junction lists and the segment endpoints agree.
   */
  lemma NoIssuesIffSound<J, S>(js: map<nat, Junction<J>>, ss: map<nat, Segment<S>>, jn: nat, sn: nat)
    requires JunctionKeysMatch(js) && SegmentKeysMatch(ss)
    requires forall k :: k in js ==> k < jn
    requires forall k :: k in ss ==> k < sn
    ensures JunctionIssuesBelow(js, ss, jn) + SegmentIssuesBelow(js, ss, sn) == 0 <==> Sound(js, ss)
  {
    JunctionIssuesZero(js, ss, jn);
    SegmentIssuesZero(js, ss, sn);
  }

  /** How `validate` ends: it returns normally only on Passed, and panics otherwise. */
  datatype ValidateOutcome = Passed | MismatchedJunctionId(key: nat) | MismatchedSegmentId(key: nat) | IssuesFound(count: nat)

  // ---------------------------------------------------------------------------
  // The store as a value, and the staged-change lifecycle it keeps
  // ---------------------------------------------------------------------------

  /** The two maps and the two change sets of a `Network`. */
  datatype Store<J, S> = Store(
    js: map<nat, Junction<J>>, ss: map<nat, Segment<S>>,
    jc: set<nat>, jr: set<nat>, sc: set<nat>, sr: set<nat>)

  /** A tombstone is removed after at most 2 days, so a stored countdown is 1 or 2. */
  predicate InRange(c: ChangeState) {
    c.Tombstone? ==> 1 <= c.countdown <= 2
  }

  /**
   * How a segment's state s may relate to the state j of one of its endpoints: a
   * segment that will be active after applying needs an endpoint that will be too;
   * a junction staged for creation carries only segments staged for creation (they
   * go first when the change set is cleared); and a tombstone junction carries only
   * tombstone segments that expire no later than it does (they go first each day).
   */
  predicate Fits(j: ChangeState, s: ChangeState) {
    && (s.IsStagedActive() ==> j.IsStagedActive())
    && (j.StagedActive? ==> s.StagedActive?)
    && (j.Tombstone? ==> s.Tombstone? && s.countdown <= j.countdown)
  }

  predicate EndsFit<J, S>(js: map<nat, Junction<J>>, g: Segment<S>) {
    && (g.start in js ==> Fits(js[g.start].changeState, g.changeState))
    && (g.end in js ==> Fits(js[g.end].changeState, g.changeState))
  }

  /** The change sets track the staged items, countdowns are in range, and segments fit their endpoints. */
  ghost predicate Lifecycle<J(!new), S(!new)>(st: Store<J, S>) {
    && Tracks(st.jc, st.jr, st.js, JunctionOps())
    && Tracks(st.sc, st.sr, st.ss, SegmentOps())
    && JunctionsInRange(st.js)
    && SegmentsFit(st.js, st.ss)
  }

  predicate JunctionsInRange<J>(js: map<nat, Junction<J>>) {
    forall k :: k in js ==> InRange(js[k].changeState)
  }

  predicate SegmentsFit<J, S>(js: map<nat, Junction<J>>, ss: map<nat, Segment<S>>) {
    forall k :: k in ss ==> InRange(ss[k].changeState) && EndsFit(js, ss[k])
  }

  /** The invariant every operation keeps: what `validate` accepts, plus the lifecycle. */
  ghost predicate Consistent<J(!new), S(!new)>(st: Store<J, S>) {
    Sound(st.js, st.ss) && Lifecycle(st)
  }

  /** The junctions after `add_segment` lists segment s as outgoing at a and incoming at b. */
  function AttachSegment<J>(js: map<nat, Junction<J>>, s: nat, a: nat, b: nat): (r: map<nat, Junction<J>>)
    requires a in js && b in js
    ensures r.Keys == js.Keys
    ensures forall k :: k in js ==> r[k].id == js[k].id && r[k].changeState == js[k].changeState
    ensures forall k, x :: k in js ==> (x in r[k].incoming <==> x in js[k].incoming || (k == b && x == s))
    ensures forall k, x :: k in js ==> (x in r[k].outgoing <==> x in js[k].outgoing || (k == a && x == s))
  {
    var js1 := js[a := js[a].AddOutgoing(s)];
    js1[b := js1[b].AddIncoming(s)]
  }

  /** The junctions after `remove_segment` drops segment s from a's outgoing and b's incoming list. */
  function DetachSegment<J>(js: map<nat, Junction<J>>, s: nat, a: nat, b: nat): (r: map<nat, Junction<J>>)
    requires a in js && b in js
    ensures r.Keys == js.Keys
    ensures forall k :: k in js ==> r[k].id == js[k].id && r[k].changeState == js[k].changeState
    ensures forall k, x :: k in js ==> (x in r[k].incoming <==> x in js[k].incoming && !(k == b && x == s))
    ensures forall k, x :: k in js ==> (x in r[k].outgoing <==> x in js[k].outgoing && !(k == a && x == s))
  {
    var js1 := js[a := js[a].RemoveOutgoing(s)];
    js1[b := js1[b].RemoveIncoming(s)]
  }

  /** Every junction with the segments of d dropped from both lists. */
  function DropLists<J>(js: map<nat, Junction<J>>, d: set<nat>): (r: map<nat, Junction<J>>)
    ensures r.Keys == js.Keys
    ensures forall k :: k in js ==> r[k].id == js[k].id && r[k].changeState == js[k].changeState
  {
    map k | k in js :: js[k].(incoming := WithoutAll(js[k].incoming, d), outgoing := WithoutAll(js[k].outgoing, d))
  }

  /** The map without the keys of d. */
  function Restrict<V>(m: map<nat, V>, d: set<nat>): (r: map<nat, V>)
    ensures r.Keys == m.Keys - d
    ensures forall k :: k in r ==> r[k] == m[k]
  {
    map k | k in m && k !in d :: m[k]
  }

  function AddJunctionTo<J, S>(st: Store<J, S>, id: nat, location: Key, data: J): Store<J, S> {
    st.(js := st.js[id := NewJunction(id, location, data)])
  }

  function AddSegmentTo<J, S>(st: Store<J, S>, id: nat, data: S, start: nat, end: nat, keys: Option<seq<Key>>): Store<J, S>
    requires start in st.js && end in st.js
  {
    st.(ss := st.ss[id := NewSegment(id, data, start, end, keys)], js := AttachSegment(st.js, id, start, end))
  }

  function RemoveSegmentFrom<J, S>(st: Store<J, S>, id: nat): Store<J, S>
    requires id in st.ss && st.ss[id].start in st.js && st.ss[id].end in st.js
  {
    st.(ss := st.ss - {id}, js := DetachSegment(st.js, id, st.ss[id].start, st.ss[id].end))
  }

  function RemoveJunctionFrom<J, S>(st: Store<J, S>, id: nat): Store<J, S> {
    st.(js := st.js - {id})
  }

  /**
   * The store after `edit_segment` of id, where newId is the fresh id a fork gets:
   * a segment already staged for creation is listed once more at both endpoints; any
   * other is forked, and the copy is listed at both endpoints.
   */
  function EditSegmentIn<J(!new), S(!new)>(st: Store<J, S>, id: nat, newId: nat): Store<J, S>
    requires id in st.ss && st.ss[id].start in st.js && st.ss[id].end in st.js
  {
    var g := st.ss[id];
    if id in st.sc then
      st.(js := AttachSegment(st.js, g.id, g.start, g.end))
    else
      st.(ss := Edited(st.ss, id, newId, SegmentOps()), sc := st.sc + {newId}, sr := st.sr + {id},
          js := AttachSegment(st.js, newId, g.start, g.end))
  }

  /** The store after `apply_change_set`: junctions first, then segments. */
  function Applied<J(!new), S(!new)>(st: Store<J, S>): Store<J, S> {
    Store(
      SetStates(SetStates(st.js, st.jc, Active, JunctionOps()), st.jr, Tombstone(2), JunctionOps()),
      SetStates(SetStates(st.ss, st.sc, Active, SegmentOps()), st.sr, Tombstone(2), SegmentOps()),
      {}, {}, {}, {})
  }

  /**
   * The store after `clear_change_set`: the segments staged for creation are removed
   * (and dropped from the junction lists), the segments staged for removal revert to
   * Active, and then the same happens to the junctions.
   */
  function Cleared<J(!new), S(!new)>(st: Store<J, S>): Store<J, S> {
    Store(
      Restrict(SetStates(DropLists(st.js, st.sc), st.jr, Active, JunctionOps()), st.jc),
      Restrict(SetStates(st.ss, st.sr, Active, SegmentOps()), st.sc),
      {}, {}, {}, {})
  }

  /** The segments whose tombstone countdown is at 0. */
  function Expired<S>(ss: map<nat, Segment<S>>): set<nat> {
    set k | k in ss && ss[k].changeState == Tombstone(0)
  }

  /** The junctions whose tombstone countdown is at 0. */
  function ExpiredJunctions<J>(js: map<nat, Junction<J>>): set<nat> {
    set k | k in js && js[k].changeState == Tombstone(0)
  }

  /**
   * The store after `advance_tombstones`: the segments count down and the expired
   * ones are removed (and dropped from the junction lists), then the same happens to
   * the junctions.
   */
  function AdvancedStore<J(!new), S(!new)>(st: Store<J, S>): Store<J, S>
    requires NoExpired(st.ss, SegmentOps()) && NoExpired(st.js, JunctionOps())
  {
    var ss1 := Advanced(st.ss, SegmentOps());
    var js0 := DropLists(st.js, Expired(ss1));
    assert NoExpired(js0, JunctionOps());
    var js1 := Advanced(js0, JunctionOps());
    Store(Restrict(js1, ExpiredJunctions(js1)), Restrict(ss1, Expired(ss1)), st.jc, st.jr, st.sc, st.sr)
  }

  // ---------------------------------------------------------------------------
  // Each operation keeps the invariant
  // ---------------------------------------------------------------------------

  /** `add_junction` under a fresh id keeps the network valid. */
  lemma AddJunctionKeepsSound<J, S>(st: Store<J, S>, id: nat, location: Key, data: J)
    requires Sound(st.js, st.ss) && id !in st.js
    ensures Sound(AddJunctionTo(st, id, location, data).js, AddJunctionTo(st, id, location, data).ss)
  {
    var r := AddJunctionTo(st, id, location, data);
    forall s | s in r.ss
      ensures EndAgrees(r.js, r.ss, s, true) && EndAgrees(r.js, r.ss, s, false)
    {
      assert EndAgrees(st.js, st.ss, s, true) && EndAgrees(st.js, st.ss, s, false);
    }
  }

  /** ... and keeps the lifecycle, the new junction being Active and in no change set. */
  lemma AddJunctionKeepsConsistent<J(!new), S(!new)>(st: Store<J, S>, id: nat, location: Key, data: J)
    requires Consistent(st) && id !in st.js
    ensures Consistent(AddJunctionTo(st, id, location, data))
  {
    AddJunctionKeepsSound(st, id, location, data);
    var r := AddJunctionTo(st, id, location, data);
    forall k | k in r.ss
      ensures EndsFit(r.js, r.ss[k])
    {
      assert EndAgrees(st.js, st.ss, k, true) && EndAgrees(st.js, st.ss, k, false);
    }
  }

  /**
   * `add_segment` under a fresh id between two existing junctions that are active
   * (the new segment is Active) keeps the network valid.
   */
  lemma AddSegmentKeepsSound<J, S>(st: Store<J, S>, id: nat, data: S, start: nat, end: nat, keys: Option<seq<Key>>)
    requires Sound(st.js, st.ss) && id !in st.ss
    requires start in st.js && end in st.js
    requires st.js[start].changeState.IsActive() && st.js[end].changeState.IsActive()
    ensures Sound(AddSegmentTo(st, id, data, start, end, keys).js, AddSegmentTo(st, id, data, start, end, keys).ss)
  {
    var r := AddSegmentTo(st, id, data, start, end, keys);
    forall j, x | j in r.js && x in r.js[j].incoming
      ensures ListedAgrees(r.ss, j, x, true)
    {
      if x != id {
        assert ListedAgrees(st.ss, j, x, true);
      }
    }
    forall j, x | j in r.js && x in r.js[j].outgoing
      ensures ListedAgrees(r.ss, j, x, false)
    {
      if x != id {
        assert ListedAgrees(st.ss, j, x, false);
      }
    }
    forall x | x in r.ss
      ensures EndAgrees(r.js, r.ss, x, true) && EndAgrees(r.js, r.ss, x, false)
    {
      if x != id {
        assert EndAgrees(st.js, st.ss, x, true) && EndAgrees(st.js, st.ss, x, false);
      }
    }
  }

  /** ... and keeps the lifecycle when both endpoints are Active. */
  lemma AddSegmentKeepsConsistent<J(!new), S(!new)>(st: Store<J, S>, id: nat, data: S, start: nat, end: nat, keys: Option<seq<Key>>)
    requires Consistent(st) && id !in st.ss
    requires start in st.js && end in st.js
    requires st.js[start].changeState == Active && st.js[end].changeState == Active
    ensures Consistent(AddSegmentTo(st, id, data, start, end, keys))
  {
    AddSegmentKeepsSound(st, id, data, start, end, keys);
    var r := AddSegmentTo(st, id, data, start, end, keys);
    AttachKeepsTracking(st.jc, st.jr, st.js, id, start, end);
    InsertKeepsTracking(st.sc, st.sr, st.ss, id, r.ss[id], SegmentOps());
    AddSegmentKeepsFit(st.js, st.ss, id, NewSegment(id, data, start, end, keys));
  }

  lemma AttachKeepsTracking<J(!new)>(jc: set<nat>, jr: set<nat>, js: map<nat, Junction<J>>, s: nat, a: nat, b: nat)
    requires Tracks(jc, jr, js, JunctionOps()) && a in js && b in js
    ensures Tracks(jc, jr, AttachSegment(js, s, a, b), JunctionOps())
  {
    TracksKeep(jc, jr, js, AttachSegment(js, s, a, b), JunctionOps());
  }

  lemma InsertKeepsTracking<V(!new)>(created: set<nat>, removed: set<nat>, m: map<nat, V>, id: nat, v: V, ops: ItemOps<V>)
    requires Tracks(created, removed, m, ops) && id !in m && !ops.state(v).IsStagedChange()
    ensures Tracks(created, removed, m[id := v], ops)
  {
    TracksKeep(created, removed, m, m[id := v], ops);
  }

  lemma AddSegmentKeepsFit<J, S>(js: map<nat, Junction<J>>, ss: map<nat, Segment<S>>, id: nat, g: Segment<S>)
    requires SegmentsFit(js, ss)
    requires g.start in js && g.end in js && g.changeState == Active
    requires js[g.start].changeState == Active && js[g.end].changeState == Active
    ensures SegmentsFit(AttachSegment(js, id, g.start, g.end), ss[id := g])
  {
    var r := AttachSegment(js, id, g.start, g.end);
    var ss1 := ss[id := g];
    forall k | k in ss1
      ensures InRange(ss1[k].changeState) && EndsFit(r, ss1[k])
    {
      if k != id {
        assert EndsFit(js, ss[k]);
      }
    }
  }

  /**
   * The change sets keep tracking the items when every item of the new map either
   * kept its state or is in no staged state, and every staged item is still there
   * in the same state.
   */
  lemma TracksKeep<V(!new)>(created: set<nat>, removed: set<nat>, m: map<nat, V>, m2: map<nat, V>, ops: ItemOps<V>)
    requires Tracks(created, removed, m, ops)
    requires forall k :: k in m2 ==> (k in m && ops.state(m2[k]) == ops.state(m[k])) || !ops.state(m2[k]).IsStagedChange()
    requires forall k :: k in m && ops.state(m[k]).IsStagedChange() ==> k in m2 && ops.state(m2[k]) == ops.state(m[k])
    ensures Tracks(created, removed, m2, ops)
  {
    forall k ensures k in created <==> k in m2 && ops.state(m2[k]) == StagedActive {
      if k in m2 && !(k in m && ops.state(m2[k]) == ops.state(m[k])) {
        assert !ops.state(m2[k]).IsStagedChange();
      }
    }
    forall k ensures k in removed <==> k in m2 && ops.state(m2[k]) == StagedTombstone {
      if k in m2 && !(k in m && ops.state(m2[k]) == ops.state(m[k])) {
        assert !ops.state(m2[k]).IsStagedChange();
      }
    }
  }

  /** `remove_segment` keeps the network valid: only the segment's endpoints listed it. */
  lemma RemoveSegmentKeepsSound<J, S>(st: Store<J, S>, id: nat)
    requires Sound(st.js, st.ss) && id in st.ss
    ensures st.ss[id].start in st.js && st.ss[id].end in st.js
    ensures Sound(RemoveSegmentFrom(st, id).js, RemoveSegmentFrom(st, id).ss)
  {
    assert EndAgrees(st.js, st.ss, id, true) && EndAgrees(st.js, st.ss, id, false);
    var r := RemoveSegmentFrom(st, id);
    forall j, x | j in r.js && x in r.js[j].incoming
      ensures ListedAgrees(r.ss, j, x, true)
    {
      assert ListedAgrees(st.ss, j, x, true);
    }
    forall j, x | j in r.js && x in r.js[j].outgoing
      ensures ListedAgrees(r.ss, j, x, false)
    {
      assert ListedAgrees(st.ss, j, x, false);
    }
    forall x | x in r.ss
      ensures EndAgrees(r.js, r.ss, x, true) && EndAgrees(r.js, r.ss, x, false)
    {
      assert EndAgrees(st.js, st.ss, x, true) && EndAgrees(st.js, st.ss, x, false);
    }
  }

  /**
   * `remove_junction` of a junction none of whose listed segments exists (what the
   * source asserts) keeps the network valid: no segment still ends at it.
   */
  lemma RemoveJunctionKeepsSound<J, S>(st: Store<J, S>, id: nat)
    requires Sound(st.js, st.ss) && id in st.js
    requires forall x :: x in st.js[id].incoming ==> x !in st.ss
    requires forall x :: x in st.js[id].outgoing ==> x !in st.ss
    ensures Sound(RemoveJunctionFrom(st, id).js, RemoveJunctionFrom(st, id).ss)
  {
    var r := RemoveJunctionFrom(st, id);
    forall x | x in r.ss
      ensures EndAgrees(r.js, r.ss, x, true) && EndAgrees(r.js, r.ss, x, false)
    {
      assert EndAgrees(st.js, st.ss, x, true) && EndAgrees(st.js, st.ss, x, false);
    }
  }

  /** Listing an existing segment once more at its own endpoints keeps the network valid. */
  lemma AttachListedKeepsSound<J, S>(js: map<nat, Junction<J>>, ss: map<nat, Segment<S>>, x: nat)
    requires Sound(js, ss) && x in ss
    ensures ss[x].start in js && ss[x].end in js
    ensures Sound(AttachSegment(js, ss[x].id, ss[x].start, ss[x].end), ss)
  {
    assert EndAgrees(js, ss, x, true) && EndAgrees(js, ss, x, false);
    var r := AttachSegment(js, ss[x].id, ss[x].start, ss[x].end);
    forall y | y in ss
      ensures EndAgrees(r, ss, y, true) && EndAgrees(r, ss, y, false)
    {
      assert EndAgrees(js, ss, y, true) && EndAgrees(js, ss, y, false);
    }
  }

  /** Attaching changes no junction's state, so states stay in range and segments keep fitting. */
  lemma AttachKeepsFit<J, S>(js: map<nat, Junction<J>>, ss: map<nat, Segment<S>>, s: nat, a: nat, b: nat)
    requires a in js && b in js
    requires JunctionsInRange(js) && SegmentsFit(js, ss)
    ensures JunctionsInRange(AttachSegment(js, s, a, b)) && SegmentsFit(AttachSegment(js, s, a, b), ss)
  {
    var r := AttachSegment(js, s, a, b);
    forall k | k in ss
      ensures EndsFit(r, ss[k])
    {
      assert EndsFit(js, ss[k]);
    }
  }

  /** The segments after forking id into newId. */
  lemma EditedSegments<S(!new)>(ss: map<nat, Segment<S>>, id: nat, newId: nat)
    requires id in ss && newId !in ss
    ensures var e := Edited(ss, id, newId, SegmentOps());
      && e.Keys == ss.Keys + {newId}
      && e[newId] == ss[id].(id := newId, changeState := StagedActive)
      && e[id] == ss[id].(changeState := StagedTombstone)
      && (forall k :: k in ss && k != id ==> e[k] == ss[k])
  {
  }

  /** The store `edit_segment` leaves, given what `edit_changeset` did to the segments. */
  lemma EditSegmentInStep<J(!new), S(!new)>(st: Store<J, S>, id: nat, retId: nat, ss: map<nat, Segment<S>>, sc: set<nat>, sr: set<nat>)
    requires id in st.ss && st.ss[id].start in st.js && st.ss[id].end in st.js
    requires id in st.sc ==> retId == id && sc == st.sc && sr == st.sr && ss == st.ss
    requires id !in st.sc ==>
      && retId !in st.ss && sc == st.sc + {retId} && sr == st.sr + {id} && ss == Edited(st.ss, id, retId, SegmentOps())
    ensures retId in ss && ss[retId].start == st.ss[id].start && ss[retId].end == st.ss[id].end
    ensures Store(AttachSegment(st.js, ss[retId].id, ss[retId].start, ss[retId].end), ss, st.jc, st.jr, sc, sr)
      == EditSegmentIn(st, id, retId)
  {
    if id !in st.sc {
      EditedSegments(st.ss, id, retId);
    }
  }

  /** Forking an Active segment, and listing the copy at its endpoints, keeps the network valid. */
  lemma ForkKeepsSound<J, S(!new)>(js: map<nat, Junction<J>>, ss: map<nat, Segment<S>>, id: nat, newId: nat)
    requires Sound(js, ss) && id in ss && newId !in ss && ss[id].changeState == Active
    ensures ss[id].start in js && ss[id].end in js
    ensures Sound(AttachSegment(js, newId, ss[id].start, ss[id].end), Edited(ss, id, newId, SegmentOps()))
  {
    assert EndAgrees(js, ss, id, true) && EndAgrees(js, ss, id, false);
    EditedSegments(ss, id, newId);
    ForkListsSound(js, ss, id, newId);
    ForkEndsSound(js, ss, id, newId);
  }

  /** The lists after the fork: every listed segment, the copy included, agrees with its listing. */
  lemma ForkListsSound<J, S(!new)>(js: map<nat, Junction<J>>, ss: map<nat, Segment<S>>, id: nat, newId: nat)
    requires Sound(js, ss) && id in ss && newId !in ss && ss[id].changeState == Active
    requires ss[id].start in js && ss[id].end in js
    ensures ListsSound(AttachSegment(js, newId, ss[id].start, ss[id].end), Edited(ss, id, newId, SegmentOps()))
  {
    EditedSegments(ss, id, newId);
    var g := ss[id];
    var r := AttachSegment(js, newId, g.start, g.end);
    var e := Edited(ss, id, newId, SegmentOps());
    forall j, x | j in r && x in r[j].incoming
      ensures ListedAgrees(e, j, x, true)
    {
      if x != newId {
        assert ListedAgrees(ss, j, x, true);
      }
    }
    forall j, x | j in r && x in r[j].outgoing
      ensures ListedAgrees(e, j, x, false)
    {
      if x != newId {
        assert ListedAgrees(ss, j, x, false);
      }
    }
  }

  /** The endpoints after the fork: every segment, the copy included, is listed where it ends. */
  lemma ForkEndsSound<J, S(!new)>(js: map<nat, Junction<J>>, ss: map<nat, Segment<S>>, id: nat, newId: nat)
    requires Sound(js, ss) && id in ss && newId !in ss && ss[id].changeState == Active
    requires ss[id].start in js && ss[id].end in js
    ensures EndsSound(AttachSegment(js, newId, ss[id].start, ss[id].end), Edited(ss, id, newId, SegmentOps()))
  {
    EditedSegments(ss, id, newId);
    var g := ss[id];
    var r := AttachSegment(js, newId, g.start, g.end);
    var e := Edited(ss, id, newId, SegmentOps());
    forall x | x in e
      ensures EndAgrees(r, e, x, true) && EndAgrees(r, e, x, false)
    {
      if x != newId {
        assert EndAgrees(js, ss, x, true) && EndAgrees(js, ss, x, false);
      }
    }
  }

  /** The fork and the original keep fitting the endpoints the Active original fitted. */
  lemma ForkKeepsFit<J, S(!new)>(js: map<nat, Junction<J>>, ss: map<nat, Segment<S>>, id: nat, newId: nat)
    requires id in ss && newId !in ss && ss[id].changeState == Active
    requires ss[id].start in js && ss[id].end in js
    requires JunctionsInRange(js) && SegmentsFit(js, ss)
    ensures SegmentsFit(AttachSegment(js, newId, ss[id].start, ss[id].end), Edited(ss, id, newId, SegmentOps()))
  {
    EditedSegments(ss, id, newId);
    var g := ss[id];
    var r := AttachSegment(js, newId, g.start, g.end);
    var e := Edited(ss, id, newId, SegmentOps());
    forall k | k in e
      ensures InRange(e[k].changeState) && EndsFit(r, e[k])
    {
      if k == newId || k == id {
        assert EndsFit(js, g);
      } else {
        assert EndsFit(js, ss[k]);
      }
    }
  }

  /**
   * `edit_segment` of a segment that is not staged for removal and will be active
   * once applied keeps the invariant. Afterwards the edited segment is staged for
   * creation: the same one if it already was, otherwise a fresh copy, with the
   * original staged for removal.
   */
  lemma EditSegmentKeepsConsistent<J(!new), S(!new)>(st: Store<J, S>, id: nat, newId: nat)
    requires Consistent(st) && id in st.ss && id !in st.sr && st.ss[id].changeState.IsStagedActive()
    requires newId !in st.ss
    ensures st.ss[id].start in st.js && st.ss[id].end in st.js
    ensures var r := EditSegmentIn(st, id, newId);
      && Consistent(r)
      && (id in st.sc ==> r.ss == st.ss && id in r.sc)
      && (id !in st.sc ==> newId in r.sc && id in r.sr && r.ss[newId] == st.ss[id].(id := newId, changeState := StagedActive))
  {
    assert EndAgrees(st.js, st.ss, id, true) && EndAgrees(st.js, st.ss, id, false);
    var g := st.ss[id];
    if id in st.sc {
      AttachListedKeepsSound(st.js, st.ss, id);
      AttachKeepsTracking(st.jc, st.jr, st.js, g.id, g.start, g.end);
      AttachKeepsFit(st.js, st.ss, g.id, g.start, g.end);
    } else {
      assert g.changeState == Active;
      ForkKeepsSound(st.js, st.ss, id, newId);
      SegmentOpsLawful<S>();
      EditKeepsTracking(st.sc, st.sr, st.ss, SegmentOps(), id, newId);
      AttachKeepsTracking(st.jc, st.jr, st.js, newId, g.start, g.end);
      AttachKeepsFit(st.js, st.ss, newId, g.start, g.end);
      ForkKeepsFit(st.js, st.ss, id, newId);
      EditedSegments(st.ss, id, newId);
    }
  }

  /** Active segments have active endpoints (the last check of `validate`). */
  predicate ActiveEnds<J, S>(js: map<nat, Junction<J>>, ss: map<nat, Segment<S>>) {
    forall k :: k in ss && ss[k].changeState.IsActive() ==>
      && (ss[k].start in js ==> js[ss[k].start].changeState.IsActive())
      && (ss[k].end in js ==> js[ss[k].end].changeState.IsActive())
  }

  /**
   * Changing only the change states of a valid network keeps it valid as long as
   * active segments still have active endpoints.
   */
  lemma RestatedSound<J, S>(js: map<nat, Junction<J>>, ss: map<nat, Segment<S>>, js2: map<nat, Junction<J>>, ss2: map<nat, Segment<S>>)
    requires Sound(js, ss)
    requires js2.Keys == js.Keys && ss2.Keys == ss.Keys
    requires forall k :: k in js ==> js2[k] == js[k].(changeState := js2[k].changeState)
    requires forall k :: k in ss ==> ss2[k] == ss[k].(changeState := ss2[k].changeState)
    requires ActiveEnds(js2, ss2)
    ensures Sound(js2, ss2)
  {
    forall j, x | j in js2 && x in js2[j].incoming
      ensures ListedAgrees(ss2, j, x, true)
    {
      assert ListedAgrees(ss, j, x, true);
    }
    forall j, x | j in js2 && x in js2[j].outgoing
      ensures ListedAgrees(ss2, j, x, false)
    {
      assert ListedAgrees(ss, j, x, false);
    }
    forall x | x in ss2
      ensures EndAgrees(js2, ss2, x, true) && EndAgrees(js2, ss2, x, false)
    {
      assert EndAgrees(js, ss, x, true) && EndAgrees(js, ss, x, false);
    }
  }

  /** What applying does to one change state. */
  function ApplyState(c: ChangeState): (r: ChangeState)
    ensures !r.IsStagedChange()
    ensures r.IsActive() <==> c.IsStagedActive()
  {
    match c
    case StagedActive => Active
    case StagedTombstone => Tombstone(2)
    case _ => c
  }

  /** A segment that fitted its endpoint still fits it once both states are applied. */
  lemma FitsApplied(j: ChangeState, s: ChangeState)
    requires Fits(j, s) && InRange(s)
    ensures Fits(ApplyState(j), ApplyState(s))
  {
  }

  /** Applying a tracked change set sets each segment's state by ApplyState, and nothing else. */
  lemma AppliedSegments<S(!new)>(sc: set<nat>, sr: set<nat>, ss: map<nat, Segment<S>>)
    requires Tracks(sc, sr, ss, SegmentOps())
    ensures var r := SetStates(SetStates(ss, sc, Active, SegmentOps()), sr, Tombstone(2), SegmentOps());
      && r.Keys == ss.Keys
      && forall k :: k in ss ==> r[k] == ss[k].(changeState := ApplyState(ss[k].changeState))
  {
    var r := SetStates(SetStates(ss, sc, Active, SegmentOps()), sr, Tombstone(2), SegmentOps());
    forall k | k in ss
      ensures r[k] == ss[k].(changeState := ApplyState(ss[k].changeState))
    {
      if k in sc {
        assert k !in sr;
      }
    }
  }

  /** Applying a tracked change set sets each junction's state by ApplyState, and nothing else. */
  lemma AppliedJunctions<J(!new)>(jc: set<nat>, jr: set<nat>, js: map<nat, Junction<J>>)
    requires Tracks(jc, jr, js, JunctionOps())
    ensures var r := SetStates(SetStates(js, jc, Active, JunctionOps()), jr, Tombstone(2), JunctionOps());
      && r.Keys == js.Keys
      && forall k :: k in js ==> r[k] == js[k].(changeState := ApplyState(js[k].changeState))
  {
    var r := SetStates(SetStates(js, jc, Active, JunctionOps()), jr, Tombstone(2), JunctionOps());
    forall k | k in js
      ensures r[k] == js[k].(changeState := ApplyState(js[k].changeState))
    {
      if k in jc {
        assert k !in jr;
      }
    }
  }

  /** With every state applied, segments still fit their endpoints, and active ones have active endpoints. */
  lemma AppliedStatesFit<J, S>(js: map<nat, Junction<J>>, ss: map<nat, Segment<S>>, js2: map<nat, Junction<J>>, ss2: map<nat, Segment<S>>)
    requires EndsSound(js, ss) && JunctionsInRange(js) && SegmentsFit(js, ss)
    requires js2.Keys == js.Keys && ss2.Keys == ss.Keys
    requires forall k :: k in js ==> js2[k] == js[k].(changeState := ApplyState(js[k].changeState))
    requires forall k :: k in ss ==> ss2[k] == ss[k].(changeState := ApplyState(ss[k].changeState))
    ensures JunctionsInRange(js2) && SegmentsFit(js2, ss2) && ActiveEnds(js2, ss2)
  {
    forall k | k in ss2
      ensures InRange(ss2[k].changeState) && EndsFit(js2, ss2[k])
      ensures ss2[k].changeState.IsActive() ==> js2[ss2[k].start].changeState.IsActive() && js2[ss2[k].end].changeState.IsActive()
    {
      var g := ss[k];
      assert EndsFit(js, g) && InRange(g.changeState);
      assert EndAgrees(js, ss, k, true) && EndAgrees(js, ss, k, false);
      FitsApplied(js[g.start].changeState, g.changeState);
      FitsApplied(js[g.end].changeState, g.changeState);
    }
  }

  /**
   * `apply_change_set` keeps the invariant (the network still validates, as the
   * mutation test checks), and afterwards nothing is staged: every item is Active or
   * a tombstone, and the items staged for creation are Active.
   */
  lemma ApplyKeepsConsistent<J(!new), S(!new)>(st: Store<J, S>)
    requires Consistent(st)
    ensures var r := Applied(st);
      && Consistent(r)
      && r.js.Keys == st.js.Keys && r.ss.Keys == st.ss.Keys
      && (forall k :: k in r.ss ==> r.ss[k].changeState.Active? || r.ss[k].changeState.Tombstone?)
      && (forall k :: k in r.js ==> r.js[k].changeState.Active? || r.js[k].changeState.Tombstone?)
      && (forall k :: k in st.sc ==> k in r.ss && r.ss[k].changeState == Active)
      && (forall k :: k in st.jc ==> k in r.js && r.js[k].changeState == Active)
  {
    var r := Applied(st);
    AppliedSegments(st.sc, st.sr, st.ss);
    AppliedJunctions(st.jc, st.jr, st.js);
    AppliedStatesFit(st.js, st.ss, r.js, r.ss);
    RestatedSound(st.js, st.ss, r.js, r.ss);
    SegmentOpsLawful<S>();
    JunctionOpsLawful<J>();
    ApplyLeavesNothingStaged(st.sc, st.sr, st.ss, SegmentOps());
    ApplyLeavesNothingStaged(st.jc, st.jr, st.js, JunctionOps());
  }

  /**
   * Removing a set D of segments (and dropping them from every list) and a set E of
   * junctions keeps a network valid when no remaining segment ends at a removed junction.
   */
  lemma RemovedSound<J, S>(js: map<nat, Junction<J>>, ss: map<nat, Segment<S>>, d: set<nat>, e: set<nat>)
    requires Sound(js, ss)
    requires forall x :: x in ss && x !in d ==> ss[x].start !in e && ss[x].end !in e
    ensures Sound(Restrict(DropLists(js, d), e), Restrict(ss, d))
  {
    var js2 := Restrict(DropLists(js, d), e);
    var ss2 := Restrict(ss, d);
    forall j, x | j in js2 && x in js2[j].incoming
      ensures ListedAgrees(ss2, j, x, true)
    {
      assert ListedAgrees(ss, j, x, true);
    }
    forall j, x | j in js2 && x in js2[j].outgoing
      ensures ListedAgrees(ss2, j, x, false)
    {
      assert ListedAgrees(ss, j, x, false);
    }
    forall x | x in ss2
      ensures EndAgrees(js2, ss2, x, true) && EndAgrees(js2, ss2, x, false)
    {
      assert EndAgrees(js, ss, x, true) && EndAgrees(js, ss, x, false);
    }
  }

  /** Dropping segments from the lists commutes with setting junction states. */
  lemma DropListsSetStates<J(!new)>(js: map<nat, Junction<J>>, d: set<nat>, ids: set<nat>, c: ChangeState)
    ensures SetStates(DropLists(js, d), ids, c, JunctionOps()) == DropLists(SetStates(js, ids, c, JunctionOps()), d)
  {
  }

  /** Dropping segments from the lists commutes with counting the junction tombstones down. */
  lemma DropListsAdvanced<J(!new)>(js: map<nat, Junction<J>>, d: set<nat>)
    requires NoExpired(js, JunctionOps())
    ensures NoExpired(DropLists(js, d), JunctionOps())
    ensures Advanced(DropLists(js, d), JunctionOps()) == DropLists(Advanced(js, JunctionOps()), d)
    ensures ExpiredJunctions(Advanced(DropLists(js, d), JunctionOps())) == ExpiredJunctions(Advanced(js, JunctionOps()))
  {
    var a := Advanced(DropLists(js, d), JunctionOps());
    var b := DropLists(Advanced(js, JunctionOps()), d);
    assert a.Keys == b.Keys;
    forall k | k in a
      ensures a[k] == b[k]
    {
      var j := js[k];
      var c := if j.changeState.Tombstone? then Tombstone(j.changeState.countdown - 1) else j.changeState;
      assert a[k] == j.(incoming := WithoutAll(j.incoming, d), outgoing := WithoutAll(j.outgoing, d), changeState := c);
      assert Advanced(js, JunctionOps())[k] == j.(changeState := c);
    }
  }

  // Clearing ------------------------------------------------------------------

  /** What clearing does to the state of an item that stays. */
  function ClearState(c: ChangeState): (r: ChangeState)
    ensures r.IsActive() == c.IsActive() && !r.StagedTombstone?
  {
    if c.StagedTombstone? then Active else c
  }

  /**
   * A segment that fitted its endpoint still fits it after clearing, when neither is
   * staged for creation (those are removed) and an active segment had an active endpoint.
   */
  lemma FitsCleared(j: ChangeState, s: ChangeState)
    requires Fits(j, s) && !j.StagedActive? && !s.StagedActive?
    requires s.IsActive() ==> j.IsActive()
    ensures Fits(ClearState(j), ClearState(s))
  {
  }

  /** Reverting the tracked removals sets each state by ClearState, and nothing else. */
  lemma ClearedStates<J(!new), S(!new)>(st: Store<J, S>)
    requires Tracks(st.jc, st.jr, st.js, JunctionOps()) && Tracks(st.sc, st.sr, st.ss, SegmentOps())
    ensures var js2 := SetStates(st.js, st.jr, Active, JunctionOps());
      && js2.Keys == st.js.Keys
      && forall k :: k in st.js ==> js2[k] == st.js[k].(changeState := ClearState(st.js[k].changeState))
    ensures var ss2 := SetStates(st.ss, st.sr, Active, SegmentOps());
      && ss2.Keys == st.ss.Keys
      && forall k :: k in st.ss ==> ss2[k] == st.ss[k].(changeState := ClearState(st.ss[k].changeState))
  {
  }

  /** Reverting removals keeps every item's activeness, so active segments keep active endpoints. */
  lemma ClearedActiveEnds<J, S>(js: map<nat, Junction<J>>, ss: map<nat, Segment<S>>, js2: map<nat, Junction<J>>, ss2: map<nat, Segment<S>>)
    requires EndsSound(js, ss)
    requires js2.Keys == js.Keys && ss2.Keys == ss.Keys
    requires forall k :: k in js ==> js2[k] == js[k].(changeState := ClearState(js[k].changeState))
    requires forall k :: k in ss ==> ss2[k] == ss[k].(changeState := ClearState(ss[k].changeState))
    ensures ActiveEnds(js2, ss2)
  {
    forall k | k in ss2 && ss2[k].changeState.IsActive()
      ensures js2[ss2[k].start].changeState.IsActive() && js2[ss2[k].end].changeState.IsActive()
    {
      assert EndAgrees(js, ss, k, true) && EndAgrees(js, ss, k, false);
    }
  }

  /** No segment that stays ends at a junction staged for creation. */
  lemma ClearedRemovable<J(!new), S(!new)>(st: Store<J, S>, ss2: map<nat, Segment<S>>)
    requires Lifecycle(st)
    requires ss2.Keys == st.ss.Keys
    requires forall k :: k in st.ss ==> ss2[k] == st.ss[k].(changeState := ClearState(st.ss[k].changeState))
    ensures forall x :: x in ss2 && x !in st.sc ==> ss2[x].start !in st.jc && ss2[x].end !in st.jc
  {
    forall x | x in ss2 && x !in st.sc
      ensures ss2[x].start !in st.jc && ss2[x].end !in st.jc
    {
      assert EndsFit(st.js, st.ss[x]);
    }
  }

  /** After clearing, what remains is unstaged, its states in range, and fits. */
  lemma ClearedLifecycle<J(!new), S(!new)>(st: Store<J, S>, js2: map<nat, Junction<J>>, ss2: map<nat, Segment<S>>)
    requires Lifecycle(st) && EndsSound(st.js, st.ss)
    requires js2.Keys == st.js.Keys && ss2.Keys == st.ss.Keys
    requires forall k :: k in st.js ==> js2[k] == st.js[k].(changeState := ClearState(st.js[k].changeState))
    requires forall k :: k in st.ss ==> ss2[k] == st.ss[k].(changeState := ClearState(st.ss[k].changeState))
    ensures Lifecycle(Store(Restrict(DropLists(js2, st.sc), st.jc), Restrict(ss2, st.sc), {}, {}, {}, {}))
  {
    ClearedJunctions(st, js2);
    ClearedSegments(st, ss2);
    ClearedSegmentsFit(st, js2, ss2);
  }

  /** The junctions that remain after clearing are unstaged and their states in range. */
  lemma ClearedJunctions<J(!new), S(!new)>(st: Store<J, S>, js2: map<nat, Junction<J>>)
    requires Lifecycle(st)
    requires js2.Keys == st.js.Keys
    requires forall k :: k in st.js ==> js2[k] == st.js[k].(changeState := ClearState(st.js[k].changeState))
    ensures var rjs := Restrict(DropLists(js2, st.sc), st.jc);
      Tracks({}, {}, rjs, JunctionOps()) && JunctionsInRange(rjs)
  {
    var rjs := Restrict(DropLists(js2, st.sc), st.jc);
    forall k | k in rjs
      ensures !rjs[k].changeState.IsStagedChange() && InRange(rjs[k].changeState)
    {
      assert k !in st.jc;
    }
  }

  /** The segments that remain after clearing are unstaged. */
  lemma ClearedSegments<J(!new), S(!new)>(st: Store<J, S>, ss2: map<nat, Segment<S>>)
    requires Lifecycle(st)
    requires ss2.Keys == st.ss.Keys
    requires forall k :: k in st.ss ==> ss2[k] == st.ss[k].(changeState := ClearState(st.ss[k].changeState))
    ensures Tracks({}, {}, Restrict(ss2, st.sc), SegmentOps())
  {
    var rss := Restrict(ss2, st.sc);
    forall k | k in rss
      ensures !rss[k].changeState.IsStagedChange()
    {
      assert k !in st.sc;
    }
  }

  /** The segments that remain after clearing have their states in range and fit their remaining endpoints. */
  lemma ClearedSegmentsFit<J(!new), S(!new)>(st: Store<J, S>, js2: map<nat, Junction<J>>, ss2: map<nat, Segment<S>>)
    requires Lifecycle(st) && EndsSound(st.js, st.ss)
    requires js2.Keys == st.js.Keys && ss2.Keys == st.ss.Keys
    requires forall k :: k in st.js ==> js2[k] == st.js[k].(changeState := ClearState(st.js[k].changeState))
    requires forall k :: k in st.ss ==> ss2[k] == st.ss[k].(changeState := ClearState(st.ss[k].changeState))
    ensures var rjs, rss := Restrict(DropLists(js2, st.sc), st.jc), Restrict(ss2, st.sc);
      forall k :: k in rss ==> InRange(rss[k].changeState) && EndsFit(rjs, rss[k])
  {
    var rjs, rss := Restrict(DropLists(js2, st.sc), st.jc), Restrict(ss2, st.sc);
    forall k | k in rss
      ensures InRange(rss[k].changeState) && EndsFit(rjs, rss[k])
    {
      var g := st.ss[k];
      assert k !in st.sc && EndsFit(st.js, g) && InRange(g.changeState);
      assert EndAgrees(st.js, st.ss, k, true) && EndAgrees(st.js, st.ss, k, false);
      if g.start in rjs {
        assert g.start !in st.jc;
        FitsCleared(st.js[g.start].changeState, g.changeState);
      }
      if g.end in rjs {
        assert g.end !in st.jc;
        FitsCleared(st.js[g.end].changeState, g.changeState);
      }
    }
  }

  /**
   * `clear_change_set` keeps the invariant: the items staged for creation are gone
   * (segments first, so no remaining segment ends at a removed junction), the items
   * staged for removal are Active again, and nothing is staged.
   */
  lemma ClearKeepsConsistent<J(!new), S(!new)>(st: Store<J, S>)
    requires Consistent(st)
    ensures var r := Cleared(st);
      && Consistent(r)
      && r.js.Keys == st.js.Keys - st.jc && r.ss.Keys == st.ss.Keys - st.sc
      && (forall k :: k in st.sr ==> r.ss[k].changeState == Active)
      && (forall k :: k in st.jr ==> r.js[k].changeState == Active)
  {
    var js2 := SetStates(st.js, st.jr, Active, JunctionOps());
    var ss2 := SetStates(st.ss, st.sr, Active, SegmentOps());
    ClearedStates(st);
    DropListsSetStates(st.js, st.sc, st.jr, Active);
    assert Cleared(st) == Store(Restrict(DropLists(js2, st.sc), st.jc), Restrict(ss2, st.sc), {}, {}, {}, {});
    ClearedActiveEnds(st.js, st.ss, js2, ss2);
    RestatedSound(st.js, st.ss, js2, ss2);
    ClearedRemovable(st, ss2);
    RemovedSound(js2, ss2, st.sc, st.jc);
    ClearedLifecycle(st, js2, ss2);
    forall k | k in st.sr
      ensures k !in st.sc && ss2[k].changeState == Active
    {
    }
  }

  // Advancing tombstones --------------------------------------------------------

  /** What one day does to a change state that has not run out. */
  function AdvanceState(c: ChangeState): (r: ChangeState)
    requires c != Tombstone(0)
    ensures r.IsActive() == c.IsActive() && r.IsStagedActive() == c.IsStagedActive()
    ensures r.Tombstone? == c.Tombstone? && (!c.Tombstone? ==> r == c)
  {
    if c.Tombstone? then Tombstone(c.countdown - 1) else c
  }

  /** A segment that fitted its endpoint still fits it one day later. */
  lemma FitsAdvanced(j: ChangeState, s: ChangeState)
    requires Fits(j, s) && j != Tombstone(0) && s != Tombstone(0)
    ensures Fits(AdvanceState(j), AdvanceState(s))
  {
  }

  /** One day sets each state by AdvanceState, and nothing else. */
  lemma AdvancedStates<J(!new), S(!new)>(st: Store<J, S>)
    requires NoExpired(st.ss, SegmentOps()) && NoExpired(st.js, JunctionOps())
    ensures var js2 := Advanced(st.js, JunctionOps());
      && js2.Keys == st.js.Keys
      && forall k :: k in st.js ==> js2[k] == st.js[k].(changeState := AdvanceState(st.js[k].changeState))
    ensures var ss2 := Advanced(st.ss, SegmentOps());
      && ss2.Keys == st.ss.Keys
      && forall k :: k in st.ss ==> ss2[k] == st.ss[k].(changeState := AdvanceState(st.ss[k].changeState))
  {
  }

  /** Counting down keeps every item's activeness, so active segments keep active endpoints. */
  lemma AdvancedActiveEnds<J, S>(js: map<nat, Junction<J>>, ss: map<nat, Segment<S>>, js2: map<nat, Junction<J>>, ss2: map<nat, Segment<S>>)
    requires EndsSound(js, ss)
    requires forall k :: k in js ==> js[k].changeState != Tombstone(0)
    requires forall k :: k in ss ==> ss[k].changeState != Tombstone(0)
    requires js2.Keys == js.Keys && ss2.Keys == ss.Keys
    requires forall k :: k in js ==> js2[k] == js[k].(changeState := AdvanceState(js[k].changeState))
    requires forall k :: k in ss ==> ss2[k] == ss[k].(changeState := AdvanceState(ss[k].changeState))
    ensures ActiveEnds(js2, ss2)
  {
    forall k | k in ss2 && ss2[k].changeState.IsActive()
      ensures js2[ss2[k].start].changeState.IsActive() && js2[ss2[k].end].changeState.IsActive()
    {
      assert EndAgrees(js, ss, k, true) && EndAgrees(js, ss, k, false);
    }
  }

  /** No segment that survives the day ends at a junction that expires: those segments expire no later. */
  lemma AdvancedRemovable<J(!new), S(!new)>(st: Store<J, S>, js2: map<nat, Junction<J>>, ss2: map<nat, Segment<S>>)
    requires Lifecycle(st)
    requires js2.Keys == st.js.Keys && ss2.Keys == st.ss.Keys
    requires forall k :: k in st.js ==> st.js[k].changeState != Tombstone(0)
    requires forall k :: k in st.ss ==> st.ss[k].changeState != Tombstone(0)
    requires forall k :: k in st.js ==> js2[k] == st.js[k].(changeState := AdvanceState(st.js[k].changeState))
    requires forall k :: k in st.ss ==> ss2[k] == st.ss[k].(changeState := AdvanceState(st.ss[k].changeState))
    ensures forall x :: x in ss2 && x !in Expired(ss2) ==> ss2[x].start !in ExpiredJunctions(js2) && ss2[x].end !in ExpiredJunctions(js2)
  {
    forall x | x in ss2 && x !in Expired(ss2)
      ensures ss2[x].start !in ExpiredJunctions(js2) && ss2[x].end !in ExpiredJunctions(js2)
    {
      assert EndsFit(st.js, st.ss[x]) && InRange(st.ss[x].changeState);
    }
  }

  /** Counting down touches no staged item, so the change sets keep tracking what remains. */
  lemma AdvancedTracking<J(!new), S(!new)>(st: Store<J, S>, js3: map<nat, Junction<J>>, ss3: map<nat, Segment<S>>)
    requires Tracks(st.jc, st.jr, st.js, JunctionOps()) && Tracks(st.sc, st.sr, st.ss, SegmentOps())
    requires forall k :: k in st.js ==> st.js[k].changeState != Tombstone(0)
    requires forall k :: k in st.ss ==> st.ss[k].changeState != Tombstone(0)
    requires forall k :: k in js3 ==> k in st.js && js3[k].changeState == AdvanceState(st.js[k].changeState)
    requires forall k :: k in ss3 ==> k in st.ss && ss3[k].changeState == AdvanceState(st.ss[k].changeState)
    requires forall k :: k in st.js && !st.js[k].changeState.Tombstone? ==> k in js3
    requires forall k :: k in st.ss && !st.ss[k].changeState.Tombstone? ==> k in ss3
    ensures Tracks(st.jc, st.jr, js3, JunctionOps()) && Tracks(st.sc, st.sr, ss3, SegmentOps())
  {
    TracksKeep(st.jc, st.jr, st.js, js3, JunctionOps());
    TracksKeep(st.sc, st.sr, st.ss, ss3, SegmentOps());
  }

  /** After the day, the countdowns of what remains are in range, and segments still fit. */
  lemma AdvancedLifecycle<J(!new), S(!new)>(st: Store<J, S>, js2: map<nat, Junction<J>>, ss2: map<nat, Segment<S>>)
    requires Lifecycle(st)
    requires js2.Keys == st.js.Keys && ss2.Keys == st.ss.Keys
    requires forall k :: k in st.js ==> st.js[k].changeState != Tombstone(0)
    requires forall k :: k in st.ss ==> st.ss[k].changeState != Tombstone(0)
    requires forall k :: k in st.js ==> js2[k] == st.js[k].(changeState := AdvanceState(st.js[k].changeState))
    requires forall k :: k in st.ss ==> ss2[k] == st.ss[k].(changeState := AdvanceState(st.ss[k].changeState))
    ensures Lifecycle(Store(Restrict(DropLists(js2, Expired(ss2)), ExpiredJunctions(js2)), Restrict(ss2, Expired(ss2)), st.jc, st.jr, st.sc, st.sr))
  {
    var r := Store(Restrict(DropLists(js2, Expired(ss2)), ExpiredJunctions(js2)), Restrict(ss2, Expired(ss2)), st.jc, st.jr, st.sc, st.sr);
    AdvancedTracking(st, r.js, r.ss);
    forall k | k in r.js
      ensures InRange(r.js[k].changeState)
    {
      assert InRange(st.js[k].changeState);
    }
    forall k | k in r.ss
      ensures InRange(r.ss[k].changeState) && EndsFit(r.js, r.ss[k])
    {
      var g := st.ss[k];
      assert EndsFit(st.js, g) && InRange(g.changeState);
      if g.start in r.js {
        FitsAdvanced(st.js[g.start].changeState, g.changeState);
      }
      if g.end in r.js {
        FitsAdvanced(st.js[g.end].changeState, g.changeState);
      }
    }
  }

  /**
   * `advance_tombstones` keeps the invariant: every tombstone counts down a day, the
   * ones that run out are removed (segments first, and no remaining segment ends at a
   * removed junction), and every other item keeps its state.
   */
  lemma AdvanceKeepsConsistent<J(!new), S(!new)>(st: Store<J, S>)
    requires Consistent(st)
    ensures NoExpired(st.ss, SegmentOps()) && NoExpired(st.js, JunctionOps())
    ensures var r := AdvancedStore(st);
      && Consistent(r)
      && r.ss.Keys == (set k | k in st.ss && st.ss[k].changeState != Tombstone(1))
      && r.js.Keys == (set k | k in st.js && st.js[k].changeState != Tombstone(1))
      && (forall k :: k in r.ss ==> r.ss[k].changeState == AdvanceState(st.ss[k].changeState))
      && (forall k :: k in r.js ==> r.js[k].changeState == AdvanceState(st.js[k].changeState))
  {
    assert forall k :: k in st.js ==> InRange(st.js[k].changeState);
    assert forall k :: k in st.ss ==> InRange(st.ss[k].changeState);
    var js2 := Advanced(st.js, JunctionOps());
    var ss2 := Advanced(st.ss, SegmentOps());
    AdvancedStates(st);
    DropListsAdvanced(st.js, Expired(ss2));
    assert AdvancedStore(st) == Store(Restrict(DropLists(js2, Expired(ss2)), ExpiredJunctions(js2)), Restrict(ss2, Expired(ss2)), st.jc, st.jr, st.sc, st.sr);
    AdvancedActiveEnds(st.js, st.ss, js2, ss2);
    RestatedSound(st.js, st.ss, js2, ss2);
    AdvancedRemovable(st, js2, ss2);
    RemovedSound(js2, ss2, Expired(ss2), ExpiredJunctions(js2));
    AdvancedLifecycle(st, js2, ss2);
    AdvancedKeys(st, js2, ss2);
  }

  /** The items that go are exactly those whose countdown was at 1. */
  lemma AdvancedKeys<J, S>(st: Store<J, S>, js2: map<nat, Junction<J>>, ss2: map<nat, Segment<S>>)
    requires js2.Keys == st.js.Keys && ss2.Keys == st.ss.Keys
    requires forall k :: k in st.js ==> st.js[k].changeState != Tombstone(0)
    requires forall k :: k in st.ss ==> st.ss[k].changeState != Tombstone(0)
    requires forall k :: k in st.js ==> js2[k] == st.js[k].(changeState := AdvanceState(st.js[k].changeState))
    requires forall k :: k in st.ss ==> ss2[k] == st.ss[k].(changeState := AdvanceState(st.ss[k].changeState))
    ensures Restrict(ss2, Expired(ss2)).Keys == (set k | k in st.ss && st.ss[k].changeState != Tombstone(1))
    ensures Restrict(DropLists(js2, Expired(ss2)), ExpiredJunctions(js2)).Keys == (set k | k in st.js && st.js[k].changeState != Tombstone(1))
  {
    assert forall k :: k in ss2 ==> (k in Expired(ss2) <==> st.ss[k].changeState == Tombstone(1));
    assert forall k :: k in js2 ==> (k in ExpiredJunctions(js2) <==> st.js[k].changeState == Tombstone(1));
  }

  // ---------------------------------------------------------------------------
  // Facts the store's loops use
  // ---------------------------------------------------------------------------

  /** The ids a list holds. */
  function Members(xs: seq<nat>): (r: set<nat>)
    ensures forall x :: x in r <==> x in xs
  {
    set x | x in xs
  }

  lemma DropListsNothing<J>(js: map<nat, Junction<J>>)
    ensures DropLists(js, {}) == js
  {
    forall k | k in js
      ensures DropLists(js, {})[k] == js[k]
    {
      WithoutAllNothing(js[k].incoming);
      WithoutAllNothing(js[k].outgoing);
    }
  }

  /**
   * Detaching one more segment s from its two endpoints is dropping it from every
   * list: in a network whose lists agree with the segments, no other junction lists s.
   */
  lemma DetachDrop<J, S>(js: map<nat, Junction<J>>, ss: map<nat, Segment<S>>, d: set<nat>, s: nat)
    requires ListsSound(js, ss) && s in ss
    requires ss[s].start in js && ss[s].end in js
    ensures DetachSegment(DropLists(js, d), s, ss[s].start, ss[s].end) == DropLists(js, d + {s})
  {
    var a, b := ss[s].start, ss[s].end;
    var l := DetachSegment(DropLists(js, d), s, a, b);
    var r := DropLists(js, d + {s});
    forall k | k in js
      ensures l[k] == r[k]
    {
      var j := js[k];
      if s !in j.incoming {
        WithoutAllAbsent(j.incoming, d, s);
      } else {
        assert ListedAgrees(ss, k, s, true);
      }
      if s !in j.outgoing {
        WithoutAllAbsent(j.outgoing, d, s);
      } else {
        assert ListedAgrees(ss, k, s, false);
      }
      WithoutAllStep(j.incoming, d, s);
      WithoutAllStep(j.outgoing, d, s);
      if k == a && k == b {
      } else if k == a {
        WithoutAbsent(WithoutAll(j.incoming, d), s);
      } else if k == b {
        WithoutAbsent(WithoutAll(j.outgoing, d), s);
      }
    }
  }

  /** One step of removing segments: the next segment is still there, and removing it extends d. */
  lemma RemoveStep<J, S>(js: map<nat, Junction<J>>, ss: map<nat, Segment<S>>, d: set<nat>, s: nat)
    requires ListsSound(js, ss) && s in ss && s !in d
    requires ss[s].start in js && ss[s].end in js
    ensures s in Restrict(ss, d) && Restrict(ss, d)[s] == ss[s]
    ensures Restrict(ss, d) - {s} == Restrict(ss, d + {s})
    ensures DetachSegment(DropLists(js, d), s, ss[s].start, ss[s].end) == DropLists(js, d + {s})
  {
    DetachDrop(js, ss, d, s);
  }

  lemma MembersAre(xs: seq<nat>, d: set<nat>)
    requires forall x :: x in xs <==> x in d
    ensures Members(xs) == d
  {
  }

  lemma MembersStep(xs: seq<nat>, i: nat)
    requires i < |xs|
    ensures Members(xs[..i + 1]) == Members(xs[..i]) + {xs[i]}
  {
    assert xs[..i + 1] == xs[..i] + [xs[i]];
  }

  /** Lists that agree with the segments still agree when only segment states change. */
  lemma ListsSoundRestated<J, S>(js: map<nat, Junction<J>>, ss: map<nat, Segment<S>>, ss2: map<nat, Segment<S>>)
    requires ListsSound(js, ss)
    requires ss2.Keys == ss.Keys
    requires forall k :: k in ss ==> ss2[k].start == ss[k].start && ss2[k].end == ss[k].end
    ensures ListsSound(js, ss2)
  {
    forall j, x | j in js && x in js[j].incoming
      ensures ListedAgrees(ss2, j, x, true)
    {
      assert ListedAgrees(ss, j, x, true);
    }
    forall j, x | j in js && x in js[j].outgoing
      ensures ListedAgrees(ss2, j, x, false)
    {
      assert ListedAgrees(ss, j, x, false);
    }
  }

  /** Every segment a junction staged for creation lists is itself staged for creation. */
  lemma CreatedJunctionSegments<J(!new), S(!new)>(st: Store<J, S>, j: nat)
    requires Consistent(st) && j in st.jc
    ensures forall x :: x in st.js[j].incoming ==> x in st.sc
    ensures forall x :: x in st.js[j].outgoing ==> x in st.sc
  {
    forall x | x in st.js[j].incoming
      ensures x in st.sc
    {
      assert ListedAgrees(st.ss, j, x, true);
      assert EndsFit(st.js, st.ss[x]);
    }
    forall x | x in st.js[j].outgoing
      ensures x in st.sc
    {
      assert ListedAgrees(st.ss, j, x, false);
      assert EndsFit(st.js, st.ss[x]);
    }
  }

  /** Every segment a tombstone junction about to expire lists expires the same day. */
  lemma ExpiringJunctionSegments<J(!new), S(!new)>(st: Store<J, S>, j: nat)
    requires Consistent(st) && j in st.js && st.js[j].changeState == Tombstone(1)
    ensures NoExpired(st.ss, SegmentOps())
    ensures forall x :: x in st.js[j].incoming ==> x in Expired(Advanced(st.ss, SegmentOps()))
    ensures forall x :: x in st.js[j].outgoing ==> x in Expired(Advanced(st.ss, SegmentOps()))
  {
    assert forall k :: k in st.ss ==> InRange(st.ss[k].changeState);
    forall x | x in st.js[j].incoming
      ensures x in Expired(Advanced(st.ss, SegmentOps()))
    {
      assert ListedAgrees(st.ss, j, x, true);
      assert EndsFit(st.js, st.ss[x]) && InRange(st.ss[x].changeState);
    }
    forall x | x in st.js[j].outgoing
      ensures x in Expired(Advanced(st.ss, SegmentOps()))
    {
      assert ListedAgrees(st.ss, j, x, false);
      assert EndsFit(st.js, st.ss[x]) && InRange(st.ss[x].changeState);
    }
  }

  /** A list all of whose elements are dropped is empty. */
  lemma WithoutAllCovered(xs: seq<nat>, d: set<nat>)
    requires forall x :: x in xs ==> x in d
    ensures WithoutAll(xs, d) == []
  {
  }

  /** Junctions of c whose segments all lie in d list nothing once d is dropped. */
  lemma BareAfterDrop<J>(js: map<nat, Junction<J>>, c: set<nat>, d: set<nat>)
    requires forall x :: x in c ==> x in js
    requires forall x, y :: x in c && y in js[x].incoming ==> y in d
    requires forall x, y :: x in c && y in js[x].outgoing ==> y in d
    ensures forall x :: x in c ==> DropLists(js, d)[x].incoming == [] && DropLists(js, d)[x].outgoing == []
  {
    forall x | x in c
      ensures DropLists(js, d)[x].incoming == [] && DropLists(js, d)[x].outgoing == []
    {
      WithoutAllCovered(js[x].incoming, d);
      WithoutAllCovered(js[x].outgoing, d);
    }
  }

  /** Dropping list entries leaves every junction's state, so the tracking of the junction changes survives. */
  lemma DropListsKeepsTracking<J(!new)>(jc: set<nat>, jr: set<nat>, js: map<nat, Junction<J>>, d: set<nat>)
    requires Tracks(jc, jr, js, JunctionOps())
    ensures Tracks(jc, jr, DropLists(js, d), JunctionOps())
  {
  }

  /**
   * Segments whose states changed but whose endpoints did not can still be removed
   * one by one: the lists still agree with them and every endpoint exists.
   */
  lemma RestatedRemovable<J, S>(js: map<nat, Junction<J>>, ss: map<nat, Segment<S>>, ss2: map<nat, Segment<S>>, ids: seq<nat>)
    requires ListsSound(js, ss) && EndsSound(js, ss)
    requires ss2.Keys == ss.Keys
    requires forall k :: k in ss ==> ss2[k].start == ss[k].start && ss2[k].end == ss[k].end
    requires forall x :: x in ids ==> x in ss
    ensures ListsSound(js, ss2)
    ensures forall x :: x in ids ==> x in ss2 && ss2[x].start in js && ss2[x].end in js
  {
    ListsSoundRestated(js, ss, ss2);
    forall x | x in ids
      ensures ss2[x].start in js && ss2[x].end in js
    {
      assert EndAgrees(js, ss, x, true) && EndAgrees(js, ss, x, false);
    }
  }

  /** Setting states touches no segment's endpoints. */
  lemma SetStatesKeepsEnds<S(!new)>(ss: map<nat, Segment<S>>, ids: set<nat>, c: ChangeState)
    ensures SetStates(ss, ids, c, SegmentOps()).Keys == ss.Keys
    ensures forall k :: k in ss ==> SetStates(ss, ids, c, SegmentOps())[k].start == ss[k].start && SetStates(ss, ids, c, SegmentOps())[k].end == ss[k].end
  {
  }

  /** Counting down touches no segment's endpoints. */
  lemma AdvancedKeepsEnds<S(!new)>(ss: map<nat, Segment<S>>)
    requires NoExpired(ss, SegmentOps())
    ensures Advanced(ss, SegmentOps()).Keys == ss.Keys
    ensures forall k :: k in ss ==> Advanced(ss, SegmentOps())[k].start == ss[k].start && Advanced(ss, SegmentOps())[k].end == ss[k].end
  {
  }

  /** Setting states touches no junction's lists. */
  lemma SetStatesKeepsLists<J(!new)>(js: map<nat, Junction<J>>, ids: set<nat>, c: ChangeState)
    ensures SetStates(js, ids, c, JunctionOps()).Keys == js.Keys
    ensures forall k :: k in js ==> SetStates(js, ids, c, JunctionOps())[k].incoming == js[k].incoming && SetStates(js, ids, c, JunctionOps())[k].outgoing == js[k].outgoing
  {
  }

  /** Counting down touches no junction's lists, and a junction expires exactly when its countdown was 1. */
  lemma AdvancedKeepsLists<J(!new)>(js: map<nat, Junction<J>>)
    requires NoExpired(js, JunctionOps())
    ensures Advanced(js, JunctionOps()).Keys == js.Keys
    ensures forall k :: k in js ==> Advanced(js, JunctionOps())[k].incoming == js[k].incoming && Advanced(js, JunctionOps())[k].outgoing == js[k].outgoing
    ensures forall k :: k in js && Advanced(js, JunctionOps())[k].changeState == Tombstone(0) ==> js[k].changeState == Tombstone(1)
  {
  }

  /** Once the segments staged for creation are gone, a junction staged for creation lists nothing. */
  lemma CreatedJunctionsBare<J(!new), S(!new)>(st: Store<J, S>)
    requires Consistent(st)
    ensures forall x :: x in st.jc ==> x in st.js && DropLists(st.js, st.sc)[x].incoming == [] && DropLists(st.js, st.sc)[x].outgoing == []
  {
    forall x | x in st.jc
      ensures x in st.js
      ensures forall y :: y in st.js[x].incoming ==> y in st.sc
      ensures forall y :: y in st.js[x].outgoing ==> y in st.sc
    {
      CreatedJunctionSegments(st, x);
    }
    BareAfterDrop(st.js, st.jc, st.sc);
  }

  /** Once the expired segments are gone, a junction about to expire lists nothing. */
  lemma ExpiringJunctionsBare<J(!new), S(!new)>(st: Store<J, S>)
    requires Consistent(st)
    ensures NoExpired(st.ss, SegmentOps()) && NoExpired(st.js, JunctionOps())
    ensures var js0 := DropLists(st.js, Expired(Advanced(st.ss, SegmentOps())));
      && NoExpired(js0, JunctionOps())
      && forall x :: x in js0 && js0[x].changeState == Tombstone(1) ==> js0[x].incoming == [] && js0[x].outgoing == []
  {
    assert forall k :: k in st.js ==> InRange(st.js[k].changeState);
    assert forall k :: k in st.ss ==> InRange(st.ss[k].changeState);
    var d := Expired(Advanced(st.ss, SegmentOps()));
    var c := set k | k in st.js && st.js[k].changeState == Tombstone(1);
    forall x | x in c
      ensures x in st.js
      ensures forall y :: y in st.js[x].incoming ==> y in d
      ensures forall y :: y in st.js[x].outgoing ==> y in d
    {
      ExpiringJunctionSegments(st, x);
    }
    BareAfterDrop(st.js, c, d);
  }

  // ---------------------------------------------------------------------------
  // The network object
  // ---------------------------------------------------------------------------

  /** `Network`: the two managed maps and the two change sets of `NetworkChangeSet`. */
  class Network<J(!new), S(!new)> {
    const junctions: ManagedMap<Junction<J>>
    const segments: ManagedMap<Segment<S>>
    const junctionChanges: ChangeSet
    const segmentChanges: ChangeSet

    ghost predicate Valid()
      reads junctions, segments, junctionChanges, segmentChanges
    {
      junctionChanges != segmentChanges && junctions.Valid() && segments.Valid()
    }

    /** The network's contents as a value. */
    ghost function State(): Store<J, S>
      reads junctions, segments, junctionChanges, segmentChanges
    {
      Store(junctions.inner, segments.inner, junctionChanges.created, junctionChanges.removed, segmentChanges.created, segmentChanges.removed)
    }

    /** `Network::new`: empty, and so consistent. */
    constructor ()
      ensures Valid() && State() == Store(map[], map[], {}, {}, {}, {}) && Consistent(State())
      ensures junctions.counter == 0 && segments.counter == 0
      ensures fresh(junctions) && fresh(segments) && fresh(junctionChanges) && fresh(segmentChanges)
    {
      junctions := new ManagedMap();
      segments := new ManagedMap();
      junctionChanges := new ChangeSet();
      segmentChanges := new ChangeSet();
    }

    /** `add_junction`: a new Active junction under the next junction id. */
    method AddJunction(location: Key, data: J) returns (id: nat)
      requires Valid()
      modifies junctions
      ensures Valid()
      ensures id == old(junctions.counter) && id !in old(junctions.inner) && junctions.counter == old(junctions.counter) + 1
      ensures State() == AddJunctionTo(old(State()), id, location, data)
      ensures old(Consistent(State())) ==> Consistent(State())
    {
      id := junctions.Add((i: nat) => NewJunction(i, location, data));
      if old(Consistent(State())) {
        AddJunctionKeepsConsistent(old(State()), id, location, data);
      }
    }

    /**
     * `add_segment`: a new Active segment under the next segment id, listed as
     * outgoing at its start and incoming at its end (the source panics for a
     * missing junction). It keeps the invariant when both endpoints are Active.
     */
    method AddSegment(data: S, start: nat, end: nat, keys: Option<seq<Key>>) returns (id: nat)
      requires Valid() && start in junctions.inner && end in junctions.inner
      modifies junctions, segments
      ensures Valid()
      ensures id == old(segments.counter) && id !in old(segments.inner) && segments.counter == old(segments.counter) + 1
      ensures junctions.counter == old(junctions.counter)
      ensures State() == AddSegmentTo(old(State()), id, data, start, end, keys)
      ensures old(Consistent(State())) && old(junctions.inner[start].changeState) == Active && old(junctions.inner[end].changeState) == Active
        ==> Consistent(State())
    {
      id := segments.Add((i: nat) => NewSegment(i, data, start, end, keys));
      junctions.inner := junctions.inner[start := junctions.inner[start].AddOutgoing(id)];
      junctions.inner := junctions.inner[end := junctions.inner[end].AddIncoming(id)];
      if old(Consistent(State())) && old(junctions.inner[start].changeState) == Active && old(junctions.inner[end].changeState) == Active {
        AddSegmentKeepsConsistent(old(State()), id, data, start, end, keys);
      }
    }

    /**
     * `remove_junction`: deletes the junction; the source then asserts that none of
     * the segments it lists still exists, which is required here.
     */
    method RemoveJunction(id: nat)
      requires Valid() && id in junctions.inner
      requires forall x :: x in junctions.inner[id].incoming ==> x !in segments.inner
      requires forall x :: x in junctions.inner[id].outgoing ==> x !in segments.inner
      modifies junctions
      ensures Valid() && junctions.counter == old(junctions.counter)
      ensures State() == RemoveJunctionFrom(old(State()), id)
      ensures old(Sound(junctions.inner, segments.inner)) ==> Sound(junctions.inner, segments.inner)
    {
      var _ := junctions.Remove(id);
      if old(Sound(junctions.inner, segments.inner)) {
        RemoveJunctionKeepsSound(old(State()), id);
      }
    }

    /** `remove_segment`: deletes the segment and drops it from its endpoints' lists. */
    method RemoveSegment(id: nat)
      requires Valid() && id in segments.inner
      requires segments.inner[id].start in junctions.inner && segments.inner[id].end in junctions.inner
      modifies junctions, segments
      ensures Valid() && junctions.counter == old(junctions.counter) && segments.counter == old(segments.counter)
      ensures State() == RemoveSegmentFrom(old(State()), id)
      ensures old(Sound(junctions.inner, segments.inner)) ==> Sound(junctions.inner, segments.inner)
    {
      var g := segments.Remove(id);
      junctions.inner := junctions.inner[g.start := junctions.inner[g.start].RemoveOutgoing(id)];
      junctions.inner := junctions.inner[g.end := junctions.inner[g.end].RemoveIncoming(id)];
      if old(Sound(junctions.inner, segments.inner)) {
        RemoveSegmentKeepsSound(old(State()), id);
      }
    }

    /**
     * `edit_segment`: stages the segment for editing (`edit_changeset`) and lists the
     * returned segment at its endpoints once more. The source asserts the segment is
     * not staged for removal and will be active once applied.
     */
    method EditSegment(id: nat) returns (retId: nat)
      requires Valid() && id in segments.inner && id !in segmentChanges.removed
      requires segments.inner[id].changeState.IsStagedActive()
      requires segments.inner[id].start in junctions.inner && segments.inner[id].end in junctions.inner
      modifies junctions, segments, segmentChanges
      ensures Valid() && junctions.counter == old(junctions.counter)
      ensures id in old(segmentChanges.created) ==> retId == id && segments.counter == old(segments.counter)
      ensures id !in old(segmentChanges.created) ==>
        retId == old(segments.counter) && retId !in old(segments.inner) && segments.counter == old(segments.counter) + 1
      ensures State() == EditSegmentIn(old(State()), id, retId)
      ensures old(Consistent(State())) ==> Consistent(State())
    {
      ghost var st := State();
      retId := EditChangeSet(segmentChanges, id, segments, SegmentOps());
      var g := segments.inner[retId];
      EditSegmentInStep(st, id, retId, segments.inner, segmentChanges.created, segmentChanges.removed);
      junctions.inner := AttachSegment(junctions.inner, g.id, g.start, g.end);
      if Consistent(st) {
        EditSegmentKeepsConsistent(st, id, if retId == id then old(segments.counter) else retId);
      }
    }

    /** `apply_change_set`: junctions first, then segments. The source asserts the states it finds. */
    method ApplyChangeSet()
      requires Valid()
      requires forall k :: k in junctionChanges.created ==> k in junctions.inner && junctions.inner[k].changeState == StagedActive
      requires forall k :: k in junctionChanges.removed ==> k in junctions.inner && junctions.inner[k].changeState == StagedTombstone
      requires forall k :: k in segmentChanges.created ==> k in segments.inner && segments.inner[k].changeState == StagedActive
      requires forall k :: k in segmentChanges.removed ==> k in segments.inner && segments.inner[k].changeState == StagedTombstone
      modifies junctions, segments, junctionChanges, segmentChanges
      ensures Valid() && junctions.counter == old(junctions.counter) && segments.counter == old(segments.counter)
      ensures State() == Applied(old(State()))
      ensures old(Consistent(State())) ==> Consistent(State())
    {
      ghost var st := State();
      ChangeStates.ApplyChangeSet(junctionChanges, junctions, JunctionOps());
      ChangeStates.ApplyChangeSet(segmentChanges, segments, SegmentOps());
      if Consistent(st) {
        ApplyKeepsConsistent(st);
      }
    }

    /** Removes the given distinct segments one by one (`remove_segment`). */
    method RemoveSegments(ids: seq<nat>)
      requires Valid()
      requires forall i, j :: 0 <= i < j < |ids| ==> ids[i] != ids[j]
      requires forall x :: x in ids ==> x in segments.inner && segments.inner[x].start in junctions.inner && segments.inner[x].end in junctions.inner
      requires ListsSound(junctions.inner, segments.inner)
      modifies junctions, segments
      ensures Valid() && junctions.counter == old(junctions.counter) && segments.counter == old(segments.counter)
      ensures segments.inner == Restrict(old(segments.inner), Members(ids))
      ensures junctions.inner == DropLists(old(junctions.inner), Members(ids))
    {
      ghost var js0, ss0 := junctions.inner, segments.inner;
      DropListsNothing(js0);
      assert Members(ids[..0]) == {};
      var i := 0;
      while i < |ids|
        invariant 0 <= i <= |ids|
        invariant Valid() && junctions.counter == old(junctions.counter) && segments.counter == old(segments.counter)
        invariant segments.inner == Restrict(ss0, Members(ids[..i]))
        invariant junctions.inner == DropLists(js0, Members(ids[..i]))
      {
        var s := ids[i];
        ghost var d := Members(ids[..i]);
        assert s !in d by {
          forall j | 0 <= j < i
            ensures ids[..i][j] != s
          {
          }
        }
        RemoveStep(js0, ss0, d, s);
        RemoveSegment(s);
        MembersStep(ids, i);
        i := i + 1;
      }
      assert ids[..i] == ids;
    }

    /** Removes the given distinct junctions one by one (`remove_junction`). */
    method RemoveJunctions(ids: seq<nat>)
      requires Valid()
      requires forall i, j :: 0 <= i < j < |ids| ==> ids[i] != ids[j]
      requires forall x :: x in ids ==> x in junctions.inner
      requires forall x, y :: x in ids && y in junctions.inner[x].incoming ==> y !in segments.inner
      requires forall x, y :: x in ids && y in junctions.inner[x].outgoing ==> y !in segments.inner
      modifies junctions
      ensures Valid() && junctions.counter == old(junctions.counter)
      ensures junctions.inner == Restrict(old(junctions.inner), Members(ids))
    {
      ghost var js0 := junctions.inner;
      assert Members(ids[..0]) == {};
      var i := 0;
      while i < |ids|
        invariant 0 <= i <= |ids|
        invariant Valid() && junctions.counter == old(junctions.counter)
        invariant junctions.inner == Restrict(js0, Members(ids[..i]))
      {
        var j := ids[i];
        ghost var d := Members(ids[..i]);
        assert j !in d by {
          forall k | 0 <= k < i
            ensures ids[..i][k] != j
          {
          }
        }
        RemoveJunction(j);
        MembersStep(ids, i);
        i := i + 1;
      }
      assert ids[..i] == ids;
    }
  
    /** The segment half of `clear_change_set`. */
    method ClearSegmentStage(ghost st: Store<J, S>)
      requires Valid() && State() == st
      requires ListsSound(st.js, st.ss) && EndsSound(st.js, st.ss)
      requires Tracks(st.sc, st.sr, st.ss, SegmentOps())
      modifies junctions, segments, segmentChanges
      ensures Valid() && junctions.counter == old(junctions.counter) && segments.counter == old(segments.counter)
      ensures State() == st.(js := DropLists(st.js, st.sc), ss := Restrict(SetStates(st.ss, st.sr, Active, SegmentOps()), st.sc), sc := {}, sr := {})
    {
      var segs := ChangeStates.ClearChangeSet(segmentChanges, segments, SegmentOps());
      SetStatesKeepsEnds(st.ss, st.sr, Active);
      RestatedRemovable(st.js, st.ss, segments.inner, segs);
      RemoveSegments(segs);
      MembersAre(segs, st.sc);
    }

    /** The junction half of `clear_change_set`, once the junctions staged for creation list nothing. */
    method ClearJunctionStage(ghost st: Store<J, S>)
      requires Valid() && State() == st
      requires Tracks(st.jc, st.jr, st.js, JunctionOps())
      requires forall x :: x in st.jc ==> st.js[x].incoming == [] && st.js[x].outgoing == []
      modifies junctions, junctionChanges
      ensures Valid() && junctions.counter == old(junctions.counter) && segments.counter == old(segments.counter)
      ensures State() == st.(js := Restrict(SetStates(st.js, st.jr, Active, JunctionOps()), st.jc), jc := {}, jr := {})
    {
      SetStatesKeepsLists(st.js, st.jr, Active);
      var juncs := ChangeStates.ClearChangeSet(junctionChanges, junctions, JunctionOps());
      RemoveJunctions(juncs);
      MembersAre(juncs, st.jc);
    }

    /**
     * `clear_change_set`: the segments staged for creation are removed, the segments
     * staged for removal revert to Active, and then the same for the junctions. The
     * order matters: a junction staged for creation carries only segments staged for
     * creation, so by the time it is removed none of them exists.
     */
    method ClearChangeSet()
      requires Valid() && Consistent(State())
      modifies junctions, segments, junctionChanges, segmentChanges
      ensures Valid() && junctions.counter == old(junctions.counter) && segments.counter == old(segments.counter)
      ensures State() == Cleared(old(State()))
      ensures Consistent(State())
    {
      ghost var st := State();
      ClearKeepsConsistent(st);
      CreatedJunctionsBare(st);
      DropListsKeepsTracking(st.jc, st.jr, st.js, st.sc);
      ClearSegmentStage(st);
      ClearJunctionStage(State());
    }

    /** The segment half of `advance_tombstones`. */
    method AdvanceSegmentStage(ghost st: Store<J, S>)
      requires Valid() && State() == st
      requires ListsSound(st.js, st.ss) && EndsSound(st.js, st.ss)
      requires NoExpired(st.ss, SegmentOps())
      modifies junctions, segments
      ensures Valid() && junctions.counter == old(junctions.counter) && segments.counter == old(segments.counter)
      ensures State() == st.(js := DropLists(st.js, Expired(Advanced(st.ss, SegmentOps()))),
        ss := Restrict(Advanced(st.ss, SegmentOps()), Expired(Advanced(st.ss, SegmentOps()))))
    {
      var segs := ChangeStates.AdvanceTombstones(segments, SegmentOps());
      AdvancedKeepsEnds(st.ss);
      RestatedRemovable(st.js, st.ss, segments.inner, segs);
      RemoveSegments(segs);
      MembersAre(segs, Expired(Advanced(st.ss, SegmentOps())));
    }

    /** The junction half of `advance_tombstones`, once the junctions about to expire list nothing. */
    method AdvanceJunctionStage(ghost st: Store<J, S>)
      requires Valid() && State() == st
      requires NoExpired(st.js, JunctionOps())
      requires forall x :: x in st.js && st.js[x].changeState == Tombstone(1) ==> st.js[x].incoming == [] && st.js[x].outgoing == []
      modifies junctions
      ensures Valid() && junctions.counter == old(junctions.counter) && segments.counter == old(segments.counter)
      ensures State() == st.(js := Restrict(Advanced(st.js, JunctionOps()), ExpiredJunctions(Advanced(st.js, JunctionOps()))))
    {
      AdvancedKeepsLists(st.js);
      var juncs := ChangeStates.AdvanceTombstones(junctions, JunctionOps());
      RemoveJunctions(juncs);
      MembersAre(juncs, ExpiredJunctions(Advanced(st.js, JunctionOps())));
    }

    /**
     * `advance_tombstones`, run once a day: every segment tombstone counts down and
     * the expired segments are removed, then the same for the junctions. A junction
     * that expires carries only segments that expire the same day, so none of them
     * exists by then.
     */
    method AdvanceTombstones()
      requires Valid() && Consistent(State())
      modifies junctions, segments
      ensures Valid() && junctions.counter == old(junctions.counter) && segments.counter == old(segments.counter)
      ensures NoExpired(old(State()).ss, SegmentOps()) && NoExpired(old(State()).js, JunctionOps())
      ensures State() == AdvancedStore(old(State()))
      ensures Consistent(State())
    {
      ghost var st := State();
      AdvanceKeepsConsistent(st);
      ExpiringJunctionsBare(st);
      AdvanceSegmentStage(st);
      AdvanceJunctionStage(State());
    }

    /** The issues of one list of junction j, counted in list order. */
    method CountListIssues(j: nat, xs: seq<nat>, incoming: bool) returns (c: nat)
      ensures c == ListIssues(segments.inner, j, xs, incoming)
      ensures c == 0 <==> forall x :: x in xs ==> ListedAgrees(segments.inner, j, x, incoming)
    {
      c := 0;
      var i := 0;
      while i < |xs|
        invariant 0 <= i <= |xs|
        invariant c == ListIssues(segments.inner, j, xs[..i], incoming)
      {
        assert xs[..i + 1][..i] == xs[..i];
        var x := xs[i];
        if x in segments.inner {
          var g := segments.inner[x];
          if (if incoming then g.end else g.start) != j {
            c := c + 1;
          }
        } else {
          c := c + 1;
        }
        i := i + 1;
      }
      assert xs[..i] == xs;
      ListIssuesZero(segments.inner, j, xs, incoming);
    }

    /** The issue (0 or 1) reported for segment s's start (atStart) or end junction. */
    method CountEndIssue(s: nat, atStart: bool) returns (c: nat)
      requires s in segments.inner
      ensures c == EndIssue(junctions.inner, segments.inner, s, atStart)
      ensures c == 0 <==> EndAgrees(junctions.inner, segments.inner, s, atStart)
    {
      var g := segments.inner[s];
      var e := if atStart then g.start else g.end;
      if e in junctions.inner {
        var jn := junctions.inner[e];
        if g.id !in (if atStart then jn.outgoing else jn.incoming) {
          c := 1;
        } else if g.changeState.IsActive() && !jn.changeState.IsActive() {
          c := 1;
        } else {
          c := 0;
        }
      } else {
        c := 1;
      }
    }

    /**
     * `validate`: first every id must match its key (the least mismatching key is
     * reported), then the junction lists and the segment endpoints are checked and
     * every disagreement counted; the source panics on a mismatch or a non-zero count.
     */
    method Validate() returns (r: ValidateOutcome)
      requires Valid()
      ensures r.MismatchedJunctionId? ==>
        && r.key in junctions.inner && junctions.inner[r.key].id != r.key
        && forall k :: k in junctions.inner && k < r.key ==> junctions.inner[k].id == k
      ensures r.MismatchedSegmentId? ==>
        && JunctionKeysMatch(junctions.inner)
        && r.key in segments.inner && segments.inner[r.key].id != r.key
        && forall k :: k in segments.inner && k < r.key ==> segments.inner[k].id == k
      ensures !r.MismatchedJunctionId? <==> JunctionKeysMatch(junctions.inner)
      ensures (r.Passed? || r.IssuesFound?) <==> JunctionKeysMatch(junctions.inner) && SegmentKeysMatch(segments.inner)
      ensures r.IssuesFound? ==> 0 < r.count == JunctionIssuesBelow(junctions.inner, segments.inner, junctions.counter) + SegmentIssuesBelow(junctions.inner, segments.inner, segments.counter)
      ensures r.Passed? <==> Sound(junctions.inner, segments.inner)
    {
      var js, ss := junctions.inner, segments.inner;
      var k := 0;
      while k < junctions.counter
        invariant k <= junctions.counter
        invariant forall i :: i in js && i < k ==> js[i].id == i
      {
        if k in js && js[k].id != k {
          return MismatchedJunctionId(k);
        }
        k := k + 1;
      }
      k := 0;
      while k < segments.counter
        invariant k <= segments.counter
        invariant forall i :: i in ss && i < k ==> ss[i].id == i
      {
        if k in ss && ss[k].id != k {
          return MismatchedSegmentId(k);
        }
        k := k + 1;
      }
      var issues := 0;
      k := 0;
      while k < junctions.counter
        invariant k <= junctions.counter
        invariant issues == JunctionIssuesBelow(js, ss, k)
      {
        if k in js {
          var a := CountListIssues(js[k].id, js[k].incoming, true);
          var b := CountListIssues(js[k].id, js[k].outgoing, false);
          issues := issues + a + b;
        }
        k := k + 1;
      }
      k := 0;
      ghost var ji := issues;
      while k < segments.counter
        invariant k <= segments.counter
        invariant issues == ji + SegmentIssuesBelow(js, ss, k)
      {
        if k in ss {
          var a := CountEndIssue(k, true);
          var b := CountEndIssue(k, false);
          issues := issues + a + b;
        }
        k := k + 1;
      }
      NoIssuesIffSound(js, ss, junctions.counter, segments.counter);
      if issues > 0 {
        r := IssuesFound(issues);
      } else {
        r := Passed;
      }
    }
  }
}
