/**
 * The highway segment validator (engine/highway/validate.rs): segment ids are
 * unique, every predecessor and successor id names a segment, and the
 * predecessor and successor lists mirror each other.
 *
 * The source panics on the first duplicate id, on the first reference to a
 * missing id, and at the end when it counted any one-sided reference; the model
 * returns those panics as outcomes.
 */
module HighwayValidation {
  import opened Wrappers

  /**
   * A highway segment as the validator and the graph builder see it: its id,
   * the ids of the segments before and after it, and its key points.
   */
  datatype HighwaySegment = HighwaySegment(id: nat, pred: seq<nat>, succ: seq<nat>, keys: seq<(real, real)>)

  /** How `validate_highway_segments` ends: normally, or with one of its three panics. */
  datatype Outcome = Passed | DuplicateKey(id: nat) | MissingId(id: nat) | FoundIssues(count: nat)

  /** The map the first loop builds: each segment under its id, a later one replacing an earlier. */
  function Index(segs: seq<HighwaySegment>): map<nat, HighwaySegment>
    decreases |segs|
  {
    if segs == [] then map[]
    else Index(segs[..|segs| - 1])[segs[|segs| - 1].id := segs[|segs| - 1]]
  }

  /** Some segment has this id. */
  predicate HasId(segs: seq<HighwaySegment>, id: nat) {
    exists j :: 0 <= j < |segs| && segs[j].id == id
  }

  predicate UniqueIds(segs: seq<HighwaySegment>) {
    forall i, j :: 0 <= i < j < |segs| ==> segs[i].id != segs[j].id
  }

  /** Every id a segment refers to names a segment. */
  ghost predicate Resolved(segs: seq<HighwaySegment>) {
    forall i, r :: 0 <= i < |segs| && (r in segs[i].pred || r in segs[i].succ) ==> HasId(segs, r)
  }

  /** A segment lists another as predecessor exactly when that one lists it as successor. */
  predicate Symmetric(segs: seq<HighwaySegment>) {
    forall i, j :: 0 <= i < |segs| && 0 <= j < |segs| ==>
      && (segs[j].id in segs[i].pred ==> segs[i].id in segs[j].succ)
      && (segs[j].id in segs[i].succ ==> segs[i].id in segs[j].pred)
  }

  /** The id the first loop stops at: the first one already seen. */
  function FirstDuplicate(segs: seq<HighwaySegment>): Option<nat>
    decreases |segs|
  {
    if segs == [] then None
    else
      var init := segs[..|segs| - 1];
      match FirstDuplicate(init)
      case Some(d) => Some(d)
      case None => if segs[|segs| - 1].id in Index(init) then Some(segs[|segs| - 1].id) else None
  }

  /** Whether the referenced segment `other` lists `id` back: as a successor when `fromPred`, else as a predecessor. */
  predicate ListsBack(other: HighwaySegment, id: nat, fromPred: bool) {
    if fromPred then id in other.succ else id in other.pred
  }

  /**
   * One of the inner loops: the number of references whose segment does not list
   * `id` back, or the first reference to an id missing from the index.
   */
  function CheckRefs(refs: seq<nat>, index: map<nat, HighwaySegment>, id: nat, fromPred: bool): Result<nat, nat>
    decreases |refs|
  {
    if refs == [] then Ok(0)
    else
      var r := refs[|refs| - 1];
      match CheckRefs(refs[..|refs| - 1], index, id, fromPred)
      case Err(m) => Err(m)
      case Ok(n) =>
        if r !in index then Err(r)
        else if ListsBack(index[r], id, fromPred) then Ok(n) else Ok(n + 1)
  }

  /** One segment's turn in the second loop: its predecessors, then its successors. */
  function SegmentIssues(seg: HighwaySegment, index: map<nat, HighwaySegment>): Result<nat, nat> {
    match CheckRefs(seg.pred, index, seg.id, true)
    case Err(m) => Err(m)
    case Ok(a) =>
      match CheckRefs(seg.succ, index, seg.id, false)
      case Err(m) => Err(m)
      case Ok(b) => Ok(a + b)
  }

  /** The second loop over the segments, in order. */
  function Issues(segs: seq<HighwaySegment>, index: map<nat, HighwaySegment>): Result<nat, nat>
    decreases |segs|
  {
    if segs == [] then Ok(0)
    else
      match Issues(segs[..|segs| - 1], index)
      case Err(m) => Err(m)
      case Ok(n) =>
        match SegmentIssues(segs[|segs| - 1], index)
        case Err(m) => Err(m)
        case Ok(k) => Ok(n + k)
  }

  /** The whole validator. */
  function Validation(segs: seq<HighwaySegment>): Outcome {
    match FirstDuplicate(segs)
    case Some(d) => DuplicateKey(d)
    case None =>
      match Issues(segs, Index(segs))
      case Err(m) => MissingId(m)
      case Ok(n) => if n > 0 then FoundIssues(n) else Passed
  }

  /** The index holds exactly the ids of the segments, and under unique ids each segment sits under its own. */
  lemma {:induction false} IndexSpec(segs: seq<HighwaySegment>)
    ensures forall k :: k in Index(segs) <==> HasId(segs, k)
    ensures UniqueIds(segs) ==> forall j :: 0 <= j < |segs| ==> segs[j].id in Index(segs) && Index(segs)[segs[j].id] == segs[j]
    decreases |segs|
  {
    if segs != [] {
      var init := segs[..|segs| - 1];
      IndexSpec(init);
      forall k
        ensures k in Index(segs) <==> HasId(segs, k)
      {
        if HasId(init, k) {
          var j :| 0 <= j < |init| && init[j].id == k;
          assert segs[j].id == k;
        }
        if HasId(segs, k) && k != segs[|segs| - 1].id {
          var j :| 0 <= j < |segs| && segs[j].id == k;
          assert init[j].id == k;
        }
      }
      if UniqueIds(segs) {
        assert UniqueIds(init);
        forall j | 0 <= j < |segs|
          ensures segs[j].id in Index(segs) && Index(segs)[segs[j].id] == segs[j]
        {
          if j < |init| {
            assert segs[j] == init[j];
          }
        }
      }
    }
  }

  /** The first loop gets through exactly when the ids are unique. */
  lemma {:induction false} FirstDuplicateSpec(segs: seq<HighwaySegment>)
    ensures FirstDuplicate(segs).None? <==> UniqueIds(segs)
    ensures FirstDuplicate(segs).Some? ==> HasId(segs, FirstDuplicate(segs).value)
    decreases |segs|
  {
    if segs != [] {
      var init := segs[..|segs| - 1];
      var last := segs[|segs| - 1];
      FirstDuplicateSpec(init);
      IndexSpec(init);
      if FirstDuplicate(init).Some? {
        var j :| 0 <= j < |init| && init[j].id == FirstDuplicate(init).value;
        assert segs[j] == init[j];
        assert !UniqueIds(init);
        var a, b :| 0 <= a < b < |init| && init[a].id == init[b].id;
        assert segs[a] == init[a] && segs[b] == init[b];
      } else if last.id in Index(init) {
        var j :| 0 <= j < |init| && init[j].id == last.id;
        assert segs[j] == init[j];
      } else {
        forall i, j | 0 <= i < j < |segs|
          ensures segs[i].id != segs[j].id
        {
          assert segs[i] == init[i];
          if j < |init| {
            assert segs[j] == init[j];
          }
        }
      }
    }
  }

  /** Every reference is in the index. */
  predicate RefsResolved(refs: seq<nat>, index: map<nat, HighwaySegment>) {
    forall k :: 0 <= k < |refs| ==> refs[k] in index
  }

  /** Every reference in the index lists `id` back. */
  predicate RefsListed(refs: seq<nat>, index: map<nat, HighwaySegment>, id: nat, fromPred: bool) {
    forall k :: 0 <= k < |refs| && refs[k] in index ==> ListsBack(index[refs[k]], id, fromPred)
  }

  /** An inner loop panics exactly on a missing reference and counts nothing exactly when all of them list `id` back. */
  lemma {:induction false} CheckRefsSpec(refs: seq<nat>, index: map<nat, HighwaySegment>, id: nat, fromPred: bool)
    ensures CheckRefs(refs, index, id, fromPred).Err? <==> !RefsResolved(refs, index)
    ensures CheckRefs(refs, index, id, fromPred) == Ok(0) <==>
      RefsResolved(refs, index) && RefsListed(refs, index, id, fromPred)
    decreases |refs|
  {
    if refs != [] {
      var init := refs[..|refs| - 1];
      CheckRefsSpec(init, index, id, fromPred);
      assert forall k :: 0 <= k < |init| ==> init[k] == refs[k];
    }
  }

  /** A segment passes its turn cleanly: every reference resolves and lists it back. */
  predicate SegmentClean(seg: HighwaySegment, index: map<nat, HighwaySegment>) {
    && RefsResolved(seg.pred, index) && RefsResolved(seg.succ, index)
    && RefsListed(seg.pred, index, seg.id, true) && RefsListed(seg.succ, index, seg.id, false)
  }

  lemma SegmentIssuesSpec(seg: HighwaySegment, index: map<nat, HighwaySegment>)
    ensures SegmentIssues(seg, index).Err? <==> !(RefsResolved(seg.pred, index) && RefsResolved(seg.succ, index))
    ensures SegmentIssues(seg, index) == Ok(0) <==> SegmentClean(seg, index)
  {
    CheckRefsSpec(seg.pred, index, seg.id, true);
    CheckRefsSpec(seg.succ, index, seg.id, false);
  }

  /** The second loop panics exactly on a missing reference and counts nothing exactly when every segment is clean. */
  lemma {:induction false} IssuesSpec(segs: seq<HighwaySegment>, index: map<nat, HighwaySegment>)
    ensures Issues(segs, index).Err? <==>
      exists i :: 0 <= i < |segs| && !(RefsResolved(segs[i].pred, index) && RefsResolved(segs[i].succ, index))
    ensures Issues(segs, index) == Ok(0) <==> forall i :: 0 <= i < |segs| ==> SegmentClean(segs[i], index)
    decreases |segs|
  {
    if segs != [] {
      var init := segs[..|segs| - 1];
      IssuesSpec(init, index);
      SegmentIssuesSpec(segs[|segs| - 1], index);
      assert forall i :: 0 <= i < |init| ==> init[i] == segs[i];
    }
  }

  /** With unique ids, the index-relative conditions are the conditions on the segments themselves. */
  lemma CleanIffSpec(segs: seq<HighwaySegment>)
    requires UniqueIds(segs)
    ensures (forall i :: 0 <= i < |segs| ==>
               RefsResolved(segs[i].pred, Index(segs)) && RefsResolved(segs[i].succ, Index(segs)))
      <==> Resolved(segs)
    ensures Resolved(segs) ==>
      ((forall i :: 0 <= i < |segs| ==> SegmentClean(segs[i], Index(segs))) <==> Symmetric(segs))
  {
    ResolvedIffSpec(segs);
    if Resolved(segs) {
      CleanIffSymmetric(segs);
    }
  }

  /** With unique ids, every reference resolving in the index is every referenced id existing. */
  lemma ResolvedIffSpec(segs: seq<HighwaySegment>)
    requires UniqueIds(segs)
    ensures (forall i :: 0 <= i < |segs| ==>
               RefsResolved(segs[i].pred, Index(segs)) && RefsResolved(segs[i].succ, Index(segs)))
      <==> Resolved(segs)
  {
    var index := Index(segs);
    IndexSpec(segs);
    if forall i :: 0 <= i < |segs| ==> RefsResolved(segs[i].pred, index) && RefsResolved(segs[i].succ, index) {
      forall i, r | 0 <= i < |segs| && (r in segs[i].pred || r in segs[i].succ)
        ensures HasId(segs, r)
      {
        var k :| (0 <= k < |segs[i].pred| && segs[i].pred[k] == r) || (0 <= k < |segs[i].succ| && segs[i].succ[k] == r);
      }
    }
    if Resolved(segs) {
      forall i | 0 <= i < |segs|
        ensures RefsResolved(segs[i].pred, index) && RefsResolved(segs[i].succ, index)
      {
        assert forall k :: 0 <= k < |segs[i].pred| ==> segs[i].pred[k] in segs[i].pred;
        assert forall k :: 0 <= k < |segs[i].succ| ==> segs[i].succ[k] in segs[i].succ;
      }
    }
  }

  /** With unique ids that all resolve, every segment being clean is pred and succ mirroring each other. */
  lemma CleanIffSymmetric(segs: seq<HighwaySegment>)
    requires UniqueIds(segs) && Resolved(segs)
    ensures (forall i :: 0 <= i < |segs| ==> SegmentClean(segs[i], Index(segs))) <==> Symmetric(segs)
  {
    IndexSpec(segs);
    ResolvedIffSpec(segs);
    if forall i :: 0 <= i < |segs| ==> SegmentClean(segs[i], Index(segs)) {
      CleanMirrors(segs);
    }
    if Symmetric(segs) {
      MirrorsClean(segs);
    }
  }

  lemma CleanMirrors(segs: seq<HighwaySegment>)
    requires forall j :: 0 <= j < |segs| ==> segs[j].id in Index(segs) && Index(segs)[segs[j].id] == segs[j]
    requires forall i :: 0 <= i < |segs| ==> SegmentClean(segs[i], Index(segs))
    ensures Symmetric(segs)
  {
    var index := Index(segs);
    forall i, j | 0 <= i < |segs| && 0 <= j < |segs|
      ensures segs[j].id in segs[i].pred ==> segs[i].id in segs[j].succ
      ensures segs[j].id in segs[i].succ ==> segs[i].id in segs[j].pred
    {
      assert index[segs[j].id] == segs[j];
      if segs[j].id in segs[i].pred {
        var k :| 0 <= k < |segs[i].pred| && segs[i].pred[k] == segs[j].id;
        assert ListsBack(index[segs[i].pred[k]], segs[i].id, true);
      }
      if segs[j].id in segs[i].succ {
        var k :| 0 <= k < |segs[i].succ| && segs[i].succ[k] == segs[j].id;
        assert ListsBack(index[segs[i].succ[k]], segs[i].id, false);
      }
    }
  }

  lemma MirrorsClean(segs: seq<HighwaySegment>)
    requires forall j :: 0 <= j < |segs| ==> segs[j].id in Index(segs) && Index(segs)[segs[j].id] == segs[j]
    requires forall i :: 0 <= i < |segs| ==> RefsResolved(segs[i].pred, Index(segs)) && RefsResolved(segs[i].succ, Index(segs))
    requires Resolved(segs) && Symmetric(segs)
    ensures forall i :: 0 <= i < |segs| ==> SegmentClean(segs[i], Index(segs))
  {
    var index := Index(segs);
    forall i | 0 <= i < |segs|
      ensures RefsListed(segs[i].pred, index, segs[i].id, true) && RefsListed(segs[i].succ, index, segs[i].id, false)
    {
      forall k | 0 <= k < |segs[i].pred|
        ensures ListsBack(index[segs[i].pred[k]], segs[i].id, true)
      {
        var r := segs[i].pred[k];
        assert r in segs[i].pred;
        assert HasId(segs, r);
        var j :| 0 <= j < |segs| && segs[j].id == r;
        assert segs[i].id in segs[j].succ;
        assert index[r] == segs[j];
      }
      forall k | 0 <= k < |segs[i].succ|
        ensures ListsBack(index[segs[i].succ[k]], segs[i].id, false)
      {
        var r := segs[i].succ[k];
        assert r in segs[i].succ;
        assert HasId(segs, r);
        var j :| 0 <= j < |segs| && segs[j].id == r;
        assert segs[i].id in segs[j].pred;
        assert index[r] == segs[j];
      }
    }
  }

  /**
   * The validator returns normally exactly when the ids are unique, every
   * reference resolves and the lists mirror each other; otherwise it panics on
   * a duplicate id, else on a missing id, else on the one-sided references it
   * counted.
   */
  lemma ValidationSpec(segs: seq<HighwaySegment>)
    ensures Validation(segs) == Passed <==> UniqueIds(segs) && Resolved(segs) && Symmetric(segs)
    ensures Validation(segs).DuplicateKey? <==> !UniqueIds(segs)
    ensures Validation(segs).MissingId? <==> UniqueIds(segs) && !Resolved(segs)
    ensures Validation(segs).FoundIssues? <==> UniqueIds(segs) && Resolved(segs) && !Symmetric(segs)
  {
    FirstDuplicateSpec(segs);
    if UniqueIds(segs) {
      IssuesSpec(segs, Index(segs));
      CleanIffSpec(segs);
    }
  }

  /** The first loop: store each segment under its id, stopping at the first id already stored. */
  method IndexSegments(segs: seq<HighwaySegment>) returns (index: map<nat, HighwaySegment>, dup: Option<nat>)
    ensures dup == FirstDuplicate(segs)
    ensures dup.None? ==> index == Index(segs)
  {
    index := map[];
    var i := 0;
    while i < |segs|
      invariant 0 <= i <= |segs|
      invariant FirstDuplicate(segs[..i]).None? && index == Index(segs[..i])
      decreases |segs| - i
    {
      assert segs[..i + 1][..i] == segs[..i];
      if segs[i].id in index {
        assert FirstDuplicate(segs[..i + 1]) == Some(segs[i].id);
        FirstDuplicatePrefix(segs, i + 1);
        return index, Some(segs[i].id);
      }
      index := index[segs[i].id := segs[i]];
      i := i + 1;
    }
    assert segs[..i] == segs;
    dup := None;
  }

  /** Once the first loop has stopped it stays stopped: a longer list has the same first duplicate. */
  lemma {:induction false} FirstDuplicatePrefix(segs: seq<HighwaySegment>, n: nat)
    requires n <= |segs| && FirstDuplicate(segs[..n]).Some?
    ensures FirstDuplicate(segs) == FirstDuplicate(segs[..n])
    decreases |segs| - n
  {
    if n < |segs| {
      assert segs[..n + 1][..n] == segs[..n];
      FirstDuplicatePrefix(segs, n + 1);
    } else {
      assert segs[..n] == segs;
    }
  }

  /** An inner loop of the second pass, stopping at the first missing reference. */
  method CountRefs(refs: seq<nat>, index: map<nat, HighwaySegment>, id: nat, fromPred: bool) returns (r: Result<nat, nat>)
    ensures r == CheckRefs(refs, index, id, fromPred)
  {
    var count := 0;
    var k := 0;
    while k < |refs|
      invariant 0 <= k <= |refs|
      invariant CheckRefs(refs[..k], index, id, fromPred) == Ok(count)
      decreases |refs| - k
    {
      assert refs[..k + 1][..k] == refs[..k];
      if refs[k] !in index {
        CheckRefsPrefix(refs, index, id, fromPred, k + 1);
        return Err(refs[k]);
      }
      if !ListsBack(index[refs[k]], id, fromPred) {
        count := count + 1;
      }
      k := k + 1;
    }
    assert refs[..k] == refs;
    r := Ok(count);
  }

  /** Once an inner loop has found a missing reference, the rest of the list does not matter. */
  lemma {:induction false} CheckRefsPrefix(refs: seq<nat>, index: map<nat, HighwaySegment>, id: nat, fromPred: bool, n: nat)
    requires n <= |refs| && CheckRefs(refs[..n], index, id, fromPred).Err?
    ensures CheckRefs(refs, index, id, fromPred) == CheckRefs(refs[..n], index, id, fromPred)
    decreases |refs| - n
  {
    if n < |refs| {
      assert refs[..n + 1][..n] == refs[..n];
      CheckRefsPrefix(refs, index, id, fromPred, n + 1);
    } else {
      assert refs[..n] == refs;
    }
  }

  /** Once the second loop has found a missing reference, the remaining segments do not matter. */
  lemma {:induction false} IssuesPrefix(segs: seq<HighwaySegment>, index: map<nat, HighwaySegment>, n: nat)
    requires n <= |segs| && Issues(segs[..n], index).Err?
    ensures Issues(segs, index) == Issues(segs[..n], index)
    decreases |segs| - n
  {
    if n < |segs| {
      assert segs[..n + 1][..n] == segs[..n];
      IssuesPrefix(segs, index, n + 1);
    } else {
      assert segs[..n] == segs;
    }
  }

  /** One segment's turn in the second loop: its predecessors, then its successors. */
  method SegmentTurn(seg: HighwaySegment, index: map<nat, HighwaySegment>) returns (r: Result<nat, nat>)
    ensures r == SegmentIssues(seg, index)
  {
    var preds := CountRefs(seg.pred, index, seg.id, true);
    if preds.Err? {
      return preds;
    }
    var succs := CountRefs(seg.succ, index, seg.id, false);
    if succs.Err? {
      return succs;
    }
    r := Ok(preds.value + succs.value);
  }

  /** The second loop's count after one more segment. */
  lemma IssuesStep(segs: seq<HighwaySegment>, index: map<nat, HighwaySegment>, i: nat)
    requires i < |segs|
    ensures Issues(segs[..i], index).Err? ==> Issues(segs[..i + 1], index) == Issues(segs[..i], index)
    ensures Issues(segs[..i], index).Ok? && SegmentIssues(segs[i], index).Err? ==>
      Issues(segs[..i + 1], index) == SegmentIssues(segs[i], index)
    ensures Issues(segs[..i], index).Ok? && SegmentIssues(segs[i], index).Ok? ==>
      Issues(segs[..i + 1], index) == Ok(Issues(segs[..i], index).value + SegmentIssues(segs[i], index).value)
  {
    assert segs[..i + 1][..i] == segs[..i];
  }

  /** The second loop: every segment's turn, in order, stopping at the first missing reference. */
  method CountIssues(segs: seq<HighwaySegment>, index: map<nat, HighwaySegment>) returns (r: Result<nat, nat>)
    ensures r == Issues(segs, index)
  {
    var issueCount := 0;
    var i := 0;
    while i < |segs|
      invariant 0 <= i <= |segs|
      invariant Issues(segs[..i], index) == Ok(issueCount)
      decreases |segs| - i
    {
      IssuesStep(segs, index, i);
      var turn := SegmentTurn(segs[i], index);
      if turn.Err? {
        IssuesPrefix(segs, index, i + 1);
        return turn;
      }
      issueCount := issueCount + turn.value;
      i := i + 1;
    }
    assert segs[..i] == segs;
    r := Ok(issueCount);
  }

  /** `validate_highway_segments`, with its panics as outcomes. */
  method ValidateHighwaySegments(segs: seq<HighwaySegment>) returns (outcome: Outcome)
    ensures outcome == Validation(segs)
  {
    var index, dup := IndexSegments(segs);
    if dup.Some? {
      return DuplicateKey(dup.value);
    }
    var issues := CountIssues(segs, index);
    if issues.Err? {
      return MissingId(issues.error);
    }
    if issues.value > 0 {
      return FoundIssues(issues.value);
    }
    return Passed;
  }
}
