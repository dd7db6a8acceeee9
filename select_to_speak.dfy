/** The event filters and the node-ownership table of the select-to-speak
    accessibility service.  A node copy is represented by its identity, which
    also serves as its key in the two tables. */
module SelectToSpeak {
  import opened Wrappers

  const WINDOW_CONTENT_DEBOUNCE_MS := 300
  const NODE_MAX_HOLD_TIME := 3000
  const UNKNOWN_PKG := "unknown_pkg"

  /** The keys whose copies have been held for longer than the limit. */
  function Expired(holdTime: map<nat, int>, now: int): (r: set<nat>)
    ensures r <= holdTime.Keys
    ensures forall k :: k in holdTime ==> (k in r <==> now - holdTime[k] > NODE_MAX_HOLD_TIME)
  {
    set k | k in holdTime && now - holdTime[k] > NODE_MAX_HOLD_TIME
  }

  predicate NoDuplicates(s: seq<nat>)
  {
    forall i, j :: 0 <= i < j < |s| ==> s[i] != s[j]
  }

  class SelectToSpeakState {
    var lastEventTime: int
    var lastWindowContentHandledAt: map<string, int>
    /** Copies a subclass has taken over, by identity. */
    var ownership: map<nat, nat>
    /** When each copy was taken over. */
    var holdTime: map<nat, int>
    /** Every copy handed to `recycleCompat`, in order. */
    var recycled: seq<nat>

    /** Each copy is filed under its own identity, no copy is recycled twice
        and no copy still owned has been recycled. */
    predicate Valid()
      reads this
    {
      (forall k :: k in ownership ==> ownership[k] == k)
      && NoDuplicates(recycled)
      && (forall i :: 0 <= i < |recycled| ==> recycled[i] !in ownership)
    }

    constructor ()
      ensures Valid()
      ensures lastEventTime == 0 && lastWindowContentHandledAt == map[]
      ensures ownership == map[] && holdTime == map[] && recycled == []
    {
      lastEventTime := 0;
      lastWindowContentHandledAt := map[];
      ownership := map[];
      holdTime := map[];
      recycled := [];
    }

    /** `shouldHandle(eventTime)`: a repeated event time is rejected; any
        other is accepted and remembered. */
    method ShouldHandle(eventTime: int) returns (ok: bool)
      modifies this
      ensures ok <==> eventTime != old(lastEventTime)
      ensures lastEventTime == eventTime
      ensures lastWindowContentHandledAt == old(lastWindowContentHandledAt)
      ensures ownership == old(ownership) && holdTime == old(holdTime) && recycled == old(recycled)
    {
      if eventTime == lastEventTime {
        return false;
      }
      lastEventTime := eventTime;
      return true;
    }

    /** `shouldHandleWindowContentChanged(pkg)` at time `now`: at most one
        accepted change per package every 300 ms; a null package is filed under
        "unknown_pkg" and a package never seen counts as last handled at 0. */
    method ShouldHandleWindowContentChanged(pkg: Option<string>, now: int) returns (ok: bool)
      modifies this
      ensures var key := pkg.GetOr(UNKNOWN_PKG);
        var last := if key in old(lastWindowContentHandledAt) then old(lastWindowContentHandledAt)[key] else 0;
        (ok <==> now - last >= WINDOW_CONTENT_DEBOUNCE_MS)
        && lastWindowContentHandledAt == (if ok then old(lastWindowContentHandledAt)[key := now]
                                          else old(lastWindowContentHandledAt))
      ensures lastEventTime == old(lastEventTime)
      ensures ownership == old(ownership) && holdTime == old(holdTime) && recycled == old(recycled)
    {
      var key := pkg.GetOr(UNKNOWN_PKG);
      var last := if key in lastWindowContentHandledAt then lastWindowContentHandledAt[key] else 0;
      if now - last >= WINDOW_CONTENT_DEBOUNCE_MS {
        lastWindowContentHandledAt := lastWindowContentHandledAt[key := now];
        ok := true;
      } else {
        ok := false;
      }
    }

    /** `submitNodeForChild`: `copy` is the fresh copy of the node (None when
        the node is null or cannot be copied) and `taken` what the child
        handler answered (None when it threw).  A copy the child takes is
        recorded with the time; any other copy is recycled. */
    method SubmitNodeForChild(copy: Option<nat>, taken: Option<bool>, now: int)
      modifies this
      requires Valid()
      requires copy.Some? ==> copy.value !in ownership && copy.value !in recycled
      ensures Valid()
      ensures copy.None? ==> ownership == old(ownership) && holdTime == old(holdTime) && recycled == old(recycled)
      ensures copy.Some? && taken == Some(true) ==>
        ownership == old(ownership)[copy.value := copy.value]
        && holdTime == old(holdTime)[copy.value := now] && recycled == old(recycled)
      ensures copy.Some? && taken != Some(true) ==>
        ownership == old(ownership) && holdTime == old(holdTime) && recycled == old(recycled) + [copy.value]
      ensures lastEventTime == old(lastEventTime) && lastWindowContentHandledAt == old(lastWindowContentHandledAt)
    {
      if copy.None? {
        return;
      }
      var c := copy.value;
      var takenByChild := taken == Some(true);
      if !takenByChild {
        recycled := recycled + [c];
      } else {
        ownership := ownership[c := c];
        holdTime := holdTime[c := now];
      }
    }

    /** `releaseNode`: a copy that is owned is removed from both tables and
        recycled; anything else changes nothing. */
    method ReleaseNode(node: Option<nat>)
      modifies this
      requires Valid()
      ensures Valid()
      ensures node.Some? && node.value in old(ownership) ==>
        ownership == old(ownership) - {node.value} && holdTime == old(holdTime) - {node.value}
        && recycled == old(recycled) + [node.value]
      ensures node.None? || node.value !in old(ownership) ==>
        ownership == old(ownership) && holdTime == old(holdTime) && recycled == old(recycled)
      ensures lastEventTime == old(lastEventTime) && lastWindowContentHandledAt == old(lastWindowContentHandledAt)
    {
      if node.None? {
        return;
      }
      var key := node.value;
      if key in ownership {
        var removed := ownership[key];
        ownership := ownership - {key};
        holdTime := holdTime - {key};
        recycled := recycled + [removed];
      }
    }

    /** `cleanupExpiredNodes` at time `now`: every copy held for more than
        3000 ms leaves both tables, and those still owned are recycled (in
        the map's iteration order, which is not specified). */
    method CleanupExpiredNodes(now: int)
      modifies this
      requires Valid()
      ensures Valid()
      ensures holdTime == old(holdTime) - Expired(old(holdTime), now)
      ensures ownership == old(ownership) - Expired(old(holdTime), now)
      ensures |recycled| >= |old(recycled)| && recycled[..|old(recycled)|] == old(recycled)
      ensures forall x :: x in recycled[|old(recycled)|..] <==> x in Expired(old(holdTime), now) && x in old(ownership)
      ensures lastEventTime == old(lastEventTime) && lastWindowContentHandledAt == old(lastWindowContentHandledAt)
    {
      var expired := Expired(holdTime, now);
      var pending := expired;
      var owned := ownership;
      var held := holdTime;
      var out: seq<nat> := [];
      ghost var done: set<nat> := {};
      while pending != {}
        invariant pending <= expired && done == expired - pending
        invariant held == holdTime - done
        invariant owned == ownership - done
        invariant forall x :: x in owned ==> owned[x] == x
        invariant NoDuplicates(out)
        invariant forall x :: x in out <==> x in done && x in ownership
        decreases |pending|
      {
        var k :| k in pending;
        if k in owned {
          assert owned[k] == k && k !in out;
          out := out + [owned[k]];
          owned := owned - {k};
        }
        held := held - {k};
        pending := pending - {k};
        done := done + {k};
      }
      AppendDisjoint(recycled, out, ownership.Keys);
      recycled := recycled + out;
      ownership := owned;
      holdTime := held;
      assert recycled[|old(recycled)|..] == out;
    }

    /** `cleanupOwnershipMap`: every owned copy is recycled and the ownership
        table is emptied; the hold times are left as they are. */
    method CleanupOwnershipMap()
      modifies this
      requires Valid()
      ensures Valid()
      ensures ownership == map[] && holdTime == old(holdTime)
      ensures |recycled| >= |old(recycled)| && recycled[..|old(recycled)|] == old(recycled)
      ensures multiset(recycled[|old(recycled)|..]) == multiset(old(ownership).Keys)
      ensures lastEventTime == old(lastEventTime) && lastWindowContentHandledAt == old(lastWindowContentHandledAt)
    {
      var pending := ownership.Keys;
      var rec := recycled;
      ghost var done: set<nat> := {};
      while pending != {}
        invariant pending <= ownership.Keys && done == ownership.Keys - pending
        invariant |rec| >= |recycled| && rec[..|recycled|] == recycled
        invariant multiset(rec[|recycled|..]) == multiset(done)
        invariant NoDuplicates(rec)
        invariant forall i :: 0 <= i < |rec| ==> rec[i] !in pending
        invariant forall i :: |recycled| <= i < |rec| ==> rec[i] in done
        decreases |pending|
      {
        var k :| k in pending;
        ghost var before := rec;
        rec := rec + [ownership[k]];
        assert rec[|recycled|..] == before[|recycled|..] + [k];
        pending := pending - {k};
        done := done + {k};
      }
      recycled := rec;
      ownership := map[];
    }

    /** `claimNodeDirectly`: registers a copy as owned when its key is free
        (true) and refuses a second claim (false); the hold-time table is not
        touched, so a claimed copy is never expired by `CleanupExpiredNodes`. */
    method ClaimNodeDirectly(node: Option<nat>) returns (ok: bool)
      modifies this
      requires Valid()
      requires node.Some? ==> node.value !in recycled
      ensures Valid()
      ensures ok <==> node.Some? && node.value !in old(ownership)
      ensures ownership == (if ok then old(ownership)[node.value := node.value] else old(ownership))
      ensures holdTime == old(holdTime) && recycled == old(recycled)
      ensures lastEventTime == old(lastEventTime) && lastWindowContentHandledAt == old(lastWindowContentHandledAt)
    {
      if node.None? {
        return false;
      }
      var key := node.value;
      if key !in ownership {
        ownership := ownership[key := key];
        return true;
      }
      return false;
    }
  }

  /** Appending copies drawn from `owned` to a list none of whose entries is
      in `owned` keeps the list free of repeats. */
  lemma AppendDisjoint(a: seq<nat>, b: seq<nat>, owned: set<nat>)
    requires NoDuplicates(a) && NoDuplicates(b)
    requires forall i :: 0 <= i < |a| ==> a[i] !in owned
    requires forall x :: x in b ==> x in owned
    ensures NoDuplicates(a + b)
  {
    forall i, j | 0 <= i < j < |a + b| ensures (a + b)[i] != (a + b)[j] {
      if i < |a| <= j {
        assert (a + b)[j] == b[j - |a|];
      }
    }
  }

  /** A copy claimed directly gets no hold time, so a later
      `cleanupExpiredNodes` leaves it owned whatever the clock says. */
  method ClaimedCopySurvivesCleanup(st: SelectToSpeakState, node: nat, now: int)
    modifies st
    requires st.Valid()
    requires node !in st.ownership && node !in st.holdTime && node !in st.recycled
    ensures st.Valid()
    ensures node in st.ownership && node !in st.recycled
  {
    var ok := st.ClaimNodeDirectly(Some(node));
    st.CleanupExpiredNodes(now);
  }

  /** A copy a subclass took over at time t is still owned after a cleanup at
      `now` exactly when at most 3000 ms have passed, and is recycled exactly
      when more have. */
  method TakenCopyExpiresAfterLimit(st: SelectToSpeakState, node: nat, t: int, now: int)
    modifies st
    requires st.Valid()
    requires node !in st.ownership && node !in st.recycled
    ensures st.Valid()
    ensures node in st.ownership <==> now - t <= NODE_MAX_HOLD_TIME
    ensures node in st.recycled <==> now - t > NODE_MAX_HOLD_TIME
  {
    st.SubmitNodeForChild(Some(node), Some(true), t);
    ghost var before := st.recycled;
    st.CleanupExpiredNodes(now);
    assert st.recycled == before + st.recycled[|before|..];
  }
}
