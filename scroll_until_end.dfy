/** `ScrollUntilEndTask` and `ScrollUntilEndEntry`: scrolling a list forward
    until its tail stops changing, choosing which list to scroll, and the
    debounced entry point that owns at most one running task.

    The Handler is not modelled as a queue: the task's `phase` records which
    callback is outstanding (a queued `step()` or the delayed result of a
    scroll), and the environment calls the matching method. */
module ScrollUntilEnd {
  import opened Wrappers
  import opened Nodes

  // ---------------------------------------------------------------------
  // ScrollUntilEndTask: list detection and the tail fingerprint
  // ---------------------------------------------------------------------

  predicate IsListClass(className: string)
  {
    className == "android.widget.ListView"
    || className == "android.widget.GridView"
    || className == "androidx.recyclerview.widget.RecyclerView"
  }

  /** `isListLike(node)`: a known list widget, a node with collection
      semantics, or a scrollable node with at least two children. */
  predicate IsListLike(node: Option<Node>)
  {
    node.Some? &&
    (IsListClass(node.value.className.GetOr(""))
     || node.value.collection.Some?
     || (node.value.scrollable && |node.value.children| >= 2))
  }

  /** `ListFingerprint`: id, text and bottom edge of a list's last child. */
  datatype Fingerprint = Fingerprint(lastId: Option<string>, lastText: Option<string>, lastBottom: int)

  /** `buildListFingerprint(list)`. */
  function BuildListFingerprint(list: Node): (r: Option<Fingerprint>)
    ensures r.None? <==> |list.children| == 0 || list.children[|list.children| - 1].None?
    ensures r.Some? ==>
      var last := list.children[|list.children| - 1].value;
      r.value.lastId == last.viewId && r.value.lastText == last.text && r.value.lastBottom == last.bottom
  {
    var count := |list.children|;
    if count <= 0 then None
    else match list.children[count - 1]
      case None => None
      case Some(last) => Some(Fingerprint(last.viewId, last.text, last.bottom))
  }

  /** The `changed` flag `scrollOnceAndCheckChanged` hands to its callback:
      false when the scroll action was refused, otherwise whether the tail
      fingerprint differs between the snapshots before and after the delay. */
  function Changed(scrolled: bool, before: Node, after: Node): (c: bool)
    ensures c ==> scrolled
    ensures scrolled ==> (c <==> BuildListFingerprint(before) != BuildListFingerprint(after))
  {
    scrolled && BuildListFingerprint(before) != BuildListFingerprint(after)
  }

  // ---------------------------------------------------------------------
  // The stability count as a property of the scroll history
  // ---------------------------------------------------------------------

  /** What one scroll step observed: the `changed` flag and the fingerprint
      taken in the callback. */
  datatype Observation = Observation(changed: bool, fingerprint: Option<Fingerprint>)

  /** The fingerprint remembered after a history of steps (`lastFingerprint`). */
  function LastFingerprint(h: seq<Observation>): Option<Fingerprint>
  {
    if |h| == 0 then None else h[|h| - 1].fingerprint
  }

  /** Step `k` saw nothing change: the flag is false and its fingerprint
      equals the one remembered before it. */
  predicate StableAt(h: seq<Observation>, k: nat)
    requires k < |h|
  {
    !h[k].changed && h[k].fingerprint == LastFingerprint(h[..k])
  }

  /** The value of `stableCount` after the steps of `h`: incremented by a
      stable step, reset to zero by any other. */
  function StableCount(h: seq<Observation>): nat
  {
    if |h| == 0 then 0
    else if StableAt(h, |h| - 1) then StableCount(h[..|h| - 1]) + 1
    else 0
  }

  /** `stableCount` reaches `t` exactly when the last `t` steps were all
      stable: so finishing by stability means the tail did not move in the
      last `stableThreshold` scrolls. */
  lemma {:induction false} StableCountMeans(h: seq<Observation>, t: nat)
    ensures StableCount(h) >= t <==>
      (t <= |h| && forall k :: |h| - t <= k < |h| ==> StableAt(h, k))
  {
    if t > 0 && |h| > 0 {
      var p := h[..|h| - 1];
      assert forall k :: 0 <= k < |p| ==> p[..k] == h[..k];
      assert forall k :: 0 <= k < |p| ==> StableAt(p, k) == StableAt(h, k);
      StableCountMeans(p, t - 1);
    }
  }

  // ---------------------------------------------------------------------
  // ScrollUntilEndTask
  // ---------------------------------------------------------------------

  /** Which callback of the task is outstanding on the Handler. */
  datatype Phase = Idle | StepQueued | Scrolling

  class ScrollTask {
    var finished: bool
    var phase: Phase
    var scrollCount: int
    var stableCount: int
    var lastFingerprint: Option<Fingerprint>
    var maxScrollTimes: int
    var stableThreshold: int
    /** The arguments `onFinish` has been called with, in order. */
    var reported: seq<bool>
    ghost var started: bool
    ghost var listLike: bool
    ghost var history: seq<Observation>

    ghost predicate Valid()
      reads this
    {
      |reported| <= 1 && (|reported| == 1 ==> finished)
      && (phase != Idle ==> !finished && started && listLike)
      && scrollCount == |history|
      && stableCount == StableCount(history)
      && lastFingerprint == LastFingerprint(history)
      && (!started ==> history == [] && reported == [])
      && (phase == Scrolling ==> scrollCount < maxScrollTimes)
      && (scrollCount == 0 || scrollCount <= maxScrollTimes)
      && (|reported| == 1 && !reported[0] ==> started && listLike && scrollCount >= maxScrollTimes)
      && (|reported| == 1 && reported[0] ==> started && (!listLike || stableCount >= stableThreshold))
    }

    constructor()
      ensures Valid() && !started && !finished && phase == Idle && reported == []
    {
      finished := false;
      phase := Idle;
      scrollCount := 0;
      stableCount := 0;
      lastFingerprint := None;
      maxScrollTimes := 0;
      stableThreshold := 0;
      reported := [];
      started := false;
      listLike := false;
      history := [];
    }

    /** `finish(reachedEnd, onFinish)`: the single exit; a second call does
        nothing, so `onFinish` runs at most once. */
    method Finish(reachedEnd: bool)
      modifies this
      ensures old(finished) ==> unchanged(this)
      ensures !old(finished) ==> finished && phase == Idle && reported == old(reported) + [reachedEnd]
      ensures scrollCount == old(scrollCount) && stableCount == old(stableCount)
      ensures lastFingerprint == old(lastFingerprint) && history == old(history)
      ensures maxScrollTimes == old(maxScrollTimes) && stableThreshold == old(stableThreshold)
      ensures started == old(started) && listLike == old(listLike)
    {
      if finished {
        return;
      }
      finished := true;
      reported := reported + [reachedEnd];
      phase := Idle;
    }

    /** `cancel(reason)`: marks the task finished and drops its queued
        callbacks, without calling `onFinish`. */
    method Cancel()
      requires Valid()
      modifies this
      ensures Valid() && finished && phase == Idle && reported == old(reported)
      ensures scrollCount == old(scrollCount) && stableCount == old(stableCount) && history == old(history)
    {
      finished := true;
      phase := Idle;
    }

    /** `start(list, maxScrollTimes, stableThreshold, onFinish)`: a node that
        is not list-like finishes at once with true; otherwise the counters
        are reset and the first `step()` runs. */
    method Start(list: Node, maxScrollTimes0: int, stableThreshold0: int)
      requires Valid() && !started && phase == Idle
      modifies this
      ensures Valid() && started && listLike == IsListLike(Some(list))
      ensures maxScrollTimes == maxScrollTimes0 && stableThreshold == stableThreshold0
      ensures old(finished) ==> finished && reported == [] && phase == Idle
      ensures !old(finished) && !IsListLike(Some(list)) ==> finished && reported == [true]
      ensures !old(finished) && IsListLike(Some(list)) && maxScrollTimes0 <= 0 ==> finished && reported == [false]
      ensures !old(finished) && IsListLike(Some(list)) && maxScrollTimes0 > 0 ==>
        !finished && phase == Scrolling && reported == [] && history == []
    {
      started := true;
      var isList := IsListLike(Some(list));
      listLike := isList;
      maxScrollTimes := maxScrollTimes0;
      stableThreshold := stableThreshold0;
      if !isList {
        Finish(true);
        return;
      }
      scrollCount := 0;
      stableCount := 0;
      lastFingerprint := None;
      history := [];
      if !finished {
        phase := StepQueued;
      }
      Step();
    }

    /** `step()`: stops with false once `maxScrollTimes` scrolls were made,
        otherwise issues one forward scroll and waits for its result. */
    method Step()
      requires Valid() && (finished || phase == StepQueued)
      modifies this
      ensures Valid()
      ensures old(finished) ==> unchanged(this)
      ensures !old(finished) && scrollCount >= maxScrollTimes ==> finished && reported == [false]
      ensures !old(finished) && scrollCount < maxScrollTimes ==> !finished && phase == Scrolling && reported == []
      ensures scrollCount == old(scrollCount) && stableCount == old(stableCount)
      ensures lastFingerprint == old(lastFingerprint) && history == old(history)
      ensures maxScrollTimes == old(maxScrollTimes) && stableThreshold == old(stableThreshold)
      ensures started == old(started) && listLike == old(listLike)
    {
      if finished {
        return;
      }
      if scrollCount >= maxScrollTimes {
        Finish(false);
        return;
      }
      phase := Scrolling;
    }

    /** The callback of `scrollOnceAndCheckChanged`, with the list as seen
        before the scroll and after the delay: records the step, updates
        `stableCount`, then finishes with true once it reaches
        `stableThreshold` or queues the next `step()`. */
    method OnScrolled(scrolled: bool, before: Node, after: Node)
      requires Valid() && (finished || phase == Scrolling)
      modifies this
      ensures Valid()
      ensures old(finished) ==> unchanged(this)
      ensures !old(finished) ==>
        var obs := Observation(Changed(scrolled, before, after), BuildListFingerprint(after));
        history == old(history) + [obs]
        && scrollCount == old(scrollCount) + 1
        && lastFingerprint == obs.fingerprint
        && stableCount == (if !obs.changed && obs.fingerprint == old(lastFingerprint) then old(stableCount) + 1 else 0)
      ensures !old(finished) && stableCount >= stableThreshold ==> finished && reported == [true]
      ensures !old(finished) && stableCount < stableThreshold ==> !finished && phase == StepQueued && reported == []
    {
      if finished {
        return;
      }
      var changed := Changed(scrolled, before, after);
      var current := BuildListFingerprint(after);
      ghost var obs := Observation(changed, current);
      ghost var h := history + [obs];
      assert h[..|h| - 1] == history;
      if !changed && current == lastFingerprint {
        stableCount := stableCount + 1;
      } else {
        stableCount := 0;
      }
      lastFingerprint := current;
      scrollCount := scrollCount + 1;
      history := h;
      if stableCount >= stableThreshold {
        Finish(true);
      } else {
        phase := StepQueued;
      }
    }
  }

  // ---------------------------------------------------------------------
  // ScrollUntilEndEntry: choosing the list
  // ---------------------------------------------------------------------

  /** `scoreListCandidate(node)`. */
  function ScoreListCandidate(node: Node): (score: int)
    ensures -20 <= score <= 240
  {
    var childCount := |node.children|;
    (if IsListClass(node.className.GetOr("")) then 100 else 0)
    + (match node.collection
       case None => 0
       case Some(c) => 80 + (if c.rows > 1 || c.columns > 1 then 10 else 0))
    + (if node.scrollable then 30 else 0)
    + (if childCount >= 5 then 20 else if childCount >= 2 then 10 else 0)
    - (if childCount <= 1 then 20 else 0)
  }

  /** Every node `isListLike` accepts scores above zero. */
  lemma ListLikeScoresPositive(node: Node)
    requires IsListLike(Some(node))
    ensures ScoreListCandidate(node) > 0
  {
  }

  /** A known list widget with at least two children outscores every node
      that is neither a list widget nor reports collection semantics. */
  lemma ListWidgetOutscores(list: Node, other: Node)
    requires IsListClass(list.className.GetOr("")) && |list.children| >= 2
    requires !IsListClass(other.className.GetOr("")) && other.collection.None?
    ensures ScoreListCandidate(list) > ScoreListCandidate(other)
  {
  }

  /** The nodes `findTargetList`'s search scores: leaves are pruned. */
  predicate Candidate(node: Node) { |node.children| > 0 }

  /** The search's `best`/`bestScore` after visiting the nodes of `s` in
      order: a candidate replaces the best only with a strictly greater score. */
  function ScanBest(s: seq<Node>, best: Option<Node>, bestScore: int): (Option<Node>, int)
  {
    if |s| == 0 then (best, bestScore)
    else if Candidate(s[0]) && ScoreListCandidate(s[0]) > bestScore then
      ScanBest(s[1..], Some(s[0]), ScoreListCandidate(s[0]))
    else ScanBest(s[1..], best, bestScore)
  }

  lemma {:induction false} ScanBestAppend(a: seq<Node>, b: seq<Node>, best: Option<Node>, bestScore: int)
    ensures ScanBest(a + b, best, bestScore)
      == ScanBest(b, ScanBest(a, best, bestScore).0, ScanBest(a, best, bestScore).1)
  {
    if |a| == 0 {
      assert a + b == b;
    } else {
      assert (a + b)[1..] == a[1..] + b;
      if Candidate(a[0]) && ScoreListCandidate(a[0]) > bestScore {
        ScanBestAppend(a[1..], b, Some(a[0]), ScoreListCandidate(a[0]));
      } else {
        ScanBestAppend(a[1..], b, best, bestScore);
      }
    }
  }

  /** The scan ends with the greatest candidate score, or the starting
      score when no candidate beats it, and then keeps the starting best. */
  lemma {:induction false} ScanBestMax(s: seq<Node>, best: Option<Node>, bestScore: int)
    ensures ScanBest(s, best, bestScore).1 >= bestScore
    ensures forall k :: 0 <= k < |s| && Candidate(s[k]) ==> ScoreListCandidate(s[k]) <= ScanBest(s, best, bestScore).1
    ensures ScanBest(s, best, bestScore).1 == bestScore ==> ScanBest(s, best, bestScore).0 == best
  {
    if |s| > 0 {
      var t := s[1..];
      assert forall k :: 1 <= k < |s| ==> s[k] == t[k - 1];
      if Candidate(s[0]) && ScoreListCandidate(s[0]) > bestScore {
        ScanBestMax(t, Some(s[0]), ScoreListCandidate(s[0]));
      } else {
        ScanBestMax(t, best, bestScore);
      }
    }
  }

  /** When the scan beats the starting score, its best is the first
      candidate reaching the final score. */
  lemma {:induction false} ScanBestWinner(s: seq<Node>, best: Option<Node>, bestScore: int) returns (j: nat)
    requires ScanBest(s, best, bestScore).1 > bestScore
    ensures j < |s| && Candidate(s[j]) && ScanBest(s, best, bestScore).0 == Some(s[j])
    ensures ScoreListCandidate(s[j]) == ScanBest(s, best, bestScore).1
    ensures forall k :: 0 <= k < j && Candidate(s[k]) ==> ScoreListCandidate(s[k]) < ScanBest(s, best, bestScore).1
  {
    var r := ScanBest(s, best, bestScore);
    assert |s| > 0;
    var t := s[1..];
    if Candidate(s[0]) && ScoreListCandidate(s[0]) > bestScore {
      var sc := ScoreListCandidate(s[0]);
      if r.1 > sc {
        var j' := ScanBestWinner(t, Some(s[0]), sc);
        j := j' + 1;
        assert forall k :: 1 <= k < j ==> s[k] == t[k - 1];
      } else {
        ScanBestMax(t, Some(s[0]), sc);
        j := 0;
      }
    } else {
      var j' := ScanBestWinner(t, best, bestScore);
      j := j' + 1;
      assert forall k :: 1 <= k < j ==> s[k] == t[k - 1];
    }
  }

  /** The nested `dfs(node)` of `findTargetList`, with the captured `best`
      and `bestScore` passed in and out: it visits the subtree in pre-order,
      skipping leaves. */
  method Dfs(node: Node, best0: Option<Node>, bestScore0: int) returns (best: Option<Node>, bestScore: int)
    ensures (best, bestScore) == ScanBest(Preorder(node), best0, bestScore0)
    decreases node
  {
    best, bestScore := best0, bestScore0;
    assert Preorder(node)[1..] == Forest(node, 0);
    if |node.children| <= 0 {
      return;
    }
    var score := ScoreListCandidate(node);
    if score > bestScore {
      bestScore := score;
      best := Some(node);
    }
    ghost var target := ScanBest(Preorder(node), best0, bestScore0);
    for i := 0 to |node.children|
      invariant ScanBest(Forest(node, i), best, bestScore) == target
    {
      assert Forest(node, i) == (if node.children[i].Some? then Preorder(node.children[i].value) else []) + Forest(node, i + 1);
      if node.children[i].Some? {
        var child := node.children[i].value;
        ScanBestAppend(Preorder(child), Forest(node, i + 1), best, bestScore);
        best, bestScore := Dfs(child, best, bestScore);
        assert ScanBest(Forest(node, i + 1), best, bestScore) == target;
      } else {
        assert Forest(node, i) == Forest(node, i + 1);
      }
    }
  }

  /** `findTargetList(root)`: null without a root or when no non-leaf node
      scores above zero; otherwise the first non-leaf node in pre-order
      with the greatest score. */
  method FindTargetList(root: Option<Node>) returns (best: Option<Node>)
    ensures root.None? ==> best.None?
    ensures root.Some? ==>
      var p := Preorder(root.value);
      (best.None? <==> forall k :: 0 <= k < |p| && Candidate(p[k]) ==> ScoreListCandidate(p[k]) <= 0)
      && (best.Some? ==> exists j :: (0 <= j < |p| && Candidate(p[j]) && best == Some(p[j])
            && (forall k :: 0 <= k < |p| && Candidate(p[k]) ==> ScoreListCandidate(p[k]) <= ScoreListCandidate(p[j]))
            && forall k :: 0 <= k < j && Candidate(p[k]) ==> ScoreListCandidate(p[k]) < ScoreListCandidate(p[j])))
  {
    if root.None? {
      return None;
    }
    var bestScore;
    best, bestScore := Dfs(root.value, None, 0);
    ScanBestMax(Preorder(root.value), None, 0);
    if bestScore > 0 {
      var j := ScanBestWinner(Preorder(root.value), None, 0);
    }
  }

  // ---------------------------------------------------------------------
  // ScrollUntilEndEntry: the debounced entry point
  // ---------------------------------------------------------------------

  const DEFAULT_DEBOUNCE_MS := 1000

  /** The arguments a `start` call captures in its debounced runnable. */
  datatype StartRequest = StartRequest(list: Node, debounceMs: int, maxScrollTimes: int, delayMs: int, stableThreshold: int)

  class ScrollEntry {
    /** `pendingRunnable`, as the request it will start. */
    var pending: Option<StartRequest>
    var currentTask: ScrollTask?
    /** The arguments the caller's `onFinish` has been called with. */
    var delivered: seq<bool>

    constructor()
      ensures pending.None? && currentTask == null && delivered == []
    {
      pending := None;
      currentTask := null;
      delivered := [];
    }

    /** `start(...)`: the previous not-yet-fired request is dropped and the
        new one takes its place; nothing runs before the debounce delay. */
    method Start(req: StartRequest)
      modifies this
      ensures pending == Some(req)
      ensures currentTask == old(currentTask) && delivered == old(delivered)
    {
      pending := Some(req);
    }

    /** The wrapped `onFinish` of a task: forwarded only while that task is
        still the current one, which it then stops being; a stale task's
        result is ignored. */
    method OnTaskFinished(task: ScrollTask, reachedEnd: bool)
      modifies this
      ensures old(currentTask) == task ==> delivered == old(delivered) + [reachedEnd] && currentTask == null
      ensures old(currentTask) != task ==> delivered == old(delivered) && currentTask == old(currentTask)
      ensures pending == old(pending)
    {
      if currentTask == task {
        delivered := delivered + [reachedEnd];
        currentTask := null;
      }
    }

    /** The debounced runnable fires: the running task is cancelled and a
        new one is started on the pending request. */
    method RunPending()
      requires pending.Some?
      requires currentTask != null ==> currentTask.Valid()
      modifies this, currentTask
      ensures pending == old(pending)
      ensures old(currentTask) != null ==> old(currentTask).finished && old(currentTask).reported == old(currentTask.reported)
      ensures !IsListLike(Some(pending.value.list)) ==> currentTask == null && delivered == old(delivered) + [true]
      ensures IsListLike(Some(pending.value.list)) && pending.value.maxScrollTimes <= 0 ==>
        currentTask == null && delivered == old(delivered) + [false]
      ensures IsListLike(Some(pending.value.list)) && pending.value.maxScrollTimes > 0 ==>
        currentTask != null && fresh(currentTask) && currentTask.Valid() && currentTask.phase == Scrolling
        && delivered == old(delivered)
    {
      var req := pending.value;
      if currentTask != null {
        currentTask.Cancel();
      }
      var task := new ScrollTask();
      currentTask := task;
      task.Start(req.list, req.maxScrollTimes, req.stableThreshold);
      if |task.reported| == 1 {
        OnTaskFinished(task, task.reported[0]);
      }
    }

    /** `cancel(reason)`: drops the pending request and cancels and forgets
        the running task. */
    method Cancel()
      requires currentTask != null ==> currentTask.Valid()
      modifies this, currentTask
      ensures pending.None? && currentTask == null && delivered == old(delivered)
      ensures old(currentTask) != null ==> old(currentTask).finished && old(currentTask).reported == old(currentTask.reported)
    {
      pending := None;
      if currentTask != null {
        currentTask.Cancel();
      }
      currentTask := null;
    }
  }
}
