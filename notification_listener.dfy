/** The de-duplication filters of the notification listener service: the
    unique key of a posted notification, the key/expiry filter, the
    key/interval filter and the search for a notification that is not a
    placeholder. */
module NotificationListener {
  import opened Wrappers
  import opened Text
  import opened Decimal
  import opened NotificationUtil

  // ---------------------------------------------------------------------
  // buildNotificationUniqueKey

  /** The six fields the unique key is made of, in order. */
  function KeyFields(n: Posted): seq<string>
  {
    [n.key, n.pkg, IntToString(n.id), n.tag.GetOr(""), IntToString(n.postTime), IntToString(n.when)]
  }

  /** `buildNotificationUniqueKey`: the six fields appended with a '|'
      between each two, an empty tag standing for a null one. */
  function UniqueKey(n: Posted): string
  {
    Join(KeyFields(n), '|')
  }

  /** The unique key splits back into its six fields when the key, the package
      and the tag do not themselves contain '|'. */
  lemma UniqueKeyFields(n: Posted)
    requires Free(n.key, '|') && Free(n.pkg, '|') && Free(n.tag.GetOr(""), '|')
    ensures Split(UniqueKey(n), '|') == KeyFields(n)
  {
    PrintedAvoids(n.id, '|');
    PrintedAvoids(n.postTime, '|');
    PrintedAvoids(n.when, '|');
    SplitJoin(KeyFields(n), '|');
  }

  /** Under the same condition two notifications share a unique key exactly
      when all six fields agree (a null tag counts as ""). */
  lemma UniqueKeyInjective(a: Posted, b: Posted)
    requires Free(a.key, '|') && Free(a.pkg, '|') && Free(a.tag.GetOr(""), '|')
    requires Free(b.key, '|') && Free(b.pkg, '|') && Free(b.tag.GetOr(""), '|')
    ensures UniqueKey(a) == UniqueKey(b) <==>
      (a.key == b.key && a.pkg == b.pkg && a.id == b.id && a.tag.GetOr("") == b.tag.GetOr("")
       && a.postTime == b.postTime && a.when == b.when)
  {
    if UniqueKey(a) == UniqueKey(b) {
      UniqueKeyFields(a);
      UniqueKeyFields(b);
      assert KeyFields(a) == KeyFields(b);
      PrintInjective(a.id, b.id);
      PrintInjective(a.postTime, b.postTime);
      PrintInjective(a.when, b.when);
    }
  }

  // ---------------------------------------------------------------------
  // isTitleAndContentEmpty

  /** `isTitleAndContentEmpty`: both texts are exactly the placeholders. */
  predicate IsTitleAndContentEmpty(title: string, content: string, titleNull: string, contentNull: string)
  {
    title == titleNull && content == contentNull
  }

  // ---------------------------------------------------------------------
  // should2Handle, as a step function over its two fields

  const MIN_HANDLE_INTERVAL := 500

  datatype IntervalState = IntervalState(lastTime: int, lastKey: string)

  /** One call of `should2Handle` with unique key `key` at time `now`:
      the decision and the new state. */
  function IntervalStep(st: IntervalState, key: string, now: int): (r: (bool, IntervalState))
    ensures key == st.lastKey ==> r == (false, st)
    ensures now - st.lastTime < MIN_HANDLE_INTERVAL ==> r == (false, st)
    ensures r.0 <==> key != st.lastKey && now - st.lastTime >= MIN_HANDLE_INTERVAL
    ensures r.0 ==> r.1 == IntervalState(now, key)
  {
    if key == st.lastKey then (false, st)
    else if now - st.lastTime < MIN_HANDLE_INTERVAL then (false, st)
    else (true, IntervalState(now, key))
  }

  /** The decisions for a series of calls, and the state after them. */
  function IntervalRun(st: IntervalState, calls: seq<(string, int)>): (r: (seq<bool>, IntervalState))
    ensures |r.0| == |calls|
    decreases |calls|
  {
    if |calls| == 0 then ([], st)
    else
      var (ok, next) := IntervalStep(st, calls[0].0, calls[0].1);
      var (rest, last) := IntervalRun(next, calls[1..]);
      ([ok] + rest, last)
  }

  predicate Nondecreasing(calls: seq<(string, int)>)
  {
    forall i, j :: 0 <= i < j < |calls| ==> calls[i].1 <= calls[j].1
  }

  /** With a clock that never goes back, every accepted call comes at least
      500 ms after the time recorded in the starting state. */
  lemma {:induction false} AcceptedAfterRecorded(st: IntervalState, calls: seq<(string, int)>, j: nat)
    requires Nondecreasing(calls)
    requires forall k :: 0 <= k < |calls| ==> st.lastTime <= calls[k].1
    requires j < |calls| && IntervalRun(st, calls).0[j]
    ensures calls[j].1 - st.lastTime >= MIN_HANDLE_INTERVAL
    decreases |calls|
  {
    var next := IntervalStep(st, calls[0].0, calls[0].1).1;
    if j > 0 {
      assert IntervalRun(next, calls[1..]).0[j - 1];
      AcceptedAfterRecorded(next, calls[1..], j - 1);
    }
  }

  /** With a clock that never goes back, any two notifications accepted by
      `should2Handle` are at least 500 ms apart. */
  lemma {:induction false} AcceptedCallsSpaced(st: IntervalState, calls: seq<(string, int)>, i: nat, j: nat)
    requires Nondecreasing(calls)
    requires i < j < |calls|
    requires IntervalRun(st, calls).0[i] && IntervalRun(st, calls).0[j]
    ensures calls[j].1 - calls[i].1 >= MIN_HANDLE_INTERVAL
    decreases |calls|
  {
    var next := IntervalStep(st, calls[0].0, calls[0].1).1;
    assert IntervalRun(next, calls[1..]).0[j - 1];
    if i > 0 {
      assert IntervalRun(next, calls[1..]).0[i - 1];
      AcceptedCallsSpaced(next, calls[1..], i - 1, j - 1);
    } else {
      AcceptedAfterRecorded(next, calls[1..], j - 1);
    }
  }

  // ---------------------------------------------------------------------
  // shouldHandle

  const EXPIRY_MS := 1000

  /** The filter state the listener service keeps between notifications. */
  class NotificationFilter {
    var lastPostWhenKey: Option<string>
    var lastHandleTime: int
    var lastHandleTime2: int
    var lastHandledUniqueKey: string

    constructor ()
      ensures lastPostWhenKey == None && lastHandleTime == 0
      ensures lastHandleTime2 == 0 && lastHandledUniqueKey == ""
    {
      lastPostWhenKey := None;
      lastHandleTime := 0;
      lastHandleTime2 := 0;
      lastHandledUniqueKey := "";
    }

    function IntervalFields(): IntervalState
      reads this
    {
      IntervalState(lastHandleTime2, lastHandledUniqueKey)
    }

    /** `shouldHandle(sbn)` at time `now`: a new key is accepted and recorded
        with its time; a repeated key is rejected within the expiry window,
        and after it accepted with only the time refreshed. */
    method ShouldHandle(n: Posted, now: int) returns (ok: bool)
      modifies this
      ensures lastHandleTime2 == old(lastHandleTime2) && lastHandledUniqueKey == old(lastHandledUniqueKey)
      ensures old(lastPostWhenKey) != Some(UniqueKey(n)) ==>
        ok && lastPostWhenKey == Some(UniqueKey(n)) && lastHandleTime == now
      ensures old(lastPostWhenKey) == Some(UniqueKey(n)) && now - old(lastHandleTime) > EXPIRY_MS ==>
        ok && lastPostWhenKey == old(lastPostWhenKey) && lastHandleTime == now
      ensures old(lastPostWhenKey) == Some(UniqueKey(n)) && now - old(lastHandleTime) <= EXPIRY_MS ==>
        !ok && lastPostWhenKey == old(lastPostWhenKey) && lastHandleTime == old(lastHandleTime)
    {
      var key := UniqueKey(n);
      if lastPostWhenKey == Some(key) {
        if now - lastHandleTime > EXPIRY_MS {
          lastHandleTime := now;
          return true;
        } else {
          return false;
        }
      }
      lastPostWhenKey := Some(key);
      lastHandleTime := now;
      return true;
    }

    /** `should2Handle(sbn)` at time `now`: one `IntervalStep` on the two
        fields it owns. */
    method Should2Handle(n: Posted, now: int) returns (ok: bool)
      modifies this
      ensures (ok, IntervalFields()) == IntervalStep(old(IntervalFields()), UniqueKey(n), now)
      ensures lastPostWhenKey == old(lastPostWhenKey) && lastHandleTime == old(lastHandleTime)
    {
      var key := UniqueKey(n);
      if key == lastHandledUniqueKey {
        return false;
      }
      if now - lastHandleTime2 < MIN_HANDLE_INTERVAL {
        return false;
      }
      lastHandleTime2 := now;
      lastHandledUniqueKey := key;
      return true;
    }
  }

  // ---------------------------------------------------------------------
  // findFirstNonEmptyNotification

  /** A candidate notification with the title and content its info carries;
      `info` is null when the notification object is missing. */
  datatype Candidate = Candidate(posted: Posted, info: Option<(string, string)>)

  predicate Usable(c: Candidate, titleNull: string, contentNull: string)
  {
    c.info.Some? && !IsTitleAndContentEmpty(c.info.value.0, c.info.value.1, titleNull, contentNull)
  }

  datatype TakeError = NegativeLimit(limit: int)

  /** `findFirstNonEmptyNotification(candidates, limit)`: among the first
      `limit` candidates, the first whose info is not the placeholder pair;
      `take` rejects a negative limit. */
  method FindFirstNonEmpty(candidates: seq<Candidate>, limit: int, titleNull: string, contentNull: string)
    returns (r: Result<Option<Candidate>, TakeError>)
    ensures limit < 0 <==> r.Failure?
    ensures r.Success? && r.value.None? ==>
      forall i :: 0 <= i < |candidates| && i < limit ==> !Usable(candidates[i], titleNull, contentNull)
    ensures r.Success? && r.value.Some? ==>
      (exists i :: (0 <= i < |candidates| && i < limit && r.value.value == candidates[i]
        && Usable(candidates[i], titleNull, contentNull)
        && forall j :: 0 <= j < i ==> !Usable(candidates[j], titleNull, contentNull)))
  {
    if limit < 0 {
      return Failure(NegativeLimit(limit));
    }
    var taken := if limit < |candidates| then candidates[..limit] else candidates;
    for i := 0 to |taken|
      invariant forall j :: 0 <= j < i ==> !Usable(taken[j], titleNull, contentNull)
    {
      var c := taken[i];
      if c.info.None? {
        continue;
      }
      if !IsTitleAndContentEmpty(c.info.value.0, c.info.value.1, titleNull, contentNull) {
        return Success(Some(c));
      }
    }
    return Success(None);
  }
}
