/** Notification list helpers shared by the two notification utility
    objects: the newest notification, the list sorted from newest to oldest,
    and the title/content read from a notification's extras. */
module NotificationUtil {
  import opened Wrappers
  import opened Text

  /** The fields of a posted notification the core reads. */
  datatype Posted = Posted(key: string, pkg: string, id: int, tag: Option<string>,
                           postTime: int, when: int)

  // ---------------------------------------------------------------------
  // getLatestNotification

  /** The index of the first element with the greatest `postTime`
      (`maxByOrNull` keeps the first maximum). */
  function FirstMaxIndex(ns: seq<Posted>): (i: nat)
    requires |ns| > 0
    ensures i < |ns|
    ensures forall j :: 0 <= j < |ns| ==> ns[j].postTime <= ns[i].postTime
    ensures forall j :: 0 <= j < i ==> ns[j].postTime < ns[i].postTime
  {
    if |ns| == 1 then 0
    else
      var k := FirstMaxIndex(ns[..|ns| - 1]);
      if ns[|ns| - 1].postTime > ns[k].postTime then |ns| - 1 else k
  }

  /** `getLatestNotification`: null for a null or empty array, otherwise the
      first notification with the latest post time. */
  function Latest(ns: Option<seq<Posted>>): (r: Option<Posted>)
    ensures r.None? <==> ns.None? || |ns.value| == 0
    ensures r.Some? ==> r.value in ns.value
    ensures r.Some? ==> forall n :: n in ns.value ==> n.postTime <= r.value.postTime
    ensures r.Some? ==> (exists i :: (0 <= i < |ns.value| && ns.value[i] == r.value
      && forall j :: 0 <= j < i ==> ns.value[j].postTime < r.value.postTime))
  {
    if ns.None? || |ns.value| == 0 then None
    else Some(ns.value[FirstMaxIndex(ns.value)])
  }

  // ---------------------------------------------------------------------
  // getAllSortedByTime

  predicate NewestFirst(s: seq<Posted>)
  {
    forall i, j :: 0 <= i < j < |s| ==> s[i].postTime >= s[j].postTime
  }

  /** Places `x` after every element posted no earlier than it. */
  function Insert(t: seq<Posted>, x: Posted): seq<Posted>
  {
    if |t| == 0 then [x]
    else if t[0].postTime >= x.postTime then [t[0]] + Insert(t[1..], x)
    else [x] + t
  }

  /** `sortedByDescending { it.postTime }`, a stable sort. */
  function SortNewestFirst(s: seq<Posted>): seq<Posted>
  {
    if |s| == 0 then [] else Insert(SortNewestFirst(s[..|s| - 1]), s[|s| - 1])
  }

  /** `getAllSortedByTime`: the array newest first, or empty for null. */
  function AllSortedByTime(ns: Option<seq<Posted>>): seq<Posted>
  {
    match ns
    case None => []
    case Some(s) => SortNewestFirst(s)
  }

  /** The notifications posted at time `k`, in order. */
  function AtTime(s: seq<Posted>, k: int): seq<Posted>
  {
    if |s| == 0 then []
    else (if s[0].postTime == k then [s[0]] else []) + AtTime(s[1..], k)
  }

  lemma {:induction false} AtTimeAppend(a: seq<Posted>, b: seq<Posted>, k: int)
    ensures AtTime(a + b, k) == AtTime(a, k) + AtTime(b, k)
    decreases |a|
  {
    if |a| > 0 {
      assert (a + b)[1..] == a[1..] + b;
      AtTimeAppend(a[1..], b, k);
    } else {
      assert a + b == b;
    }
  }

  lemma {:induction false} InsertCounts(t: seq<Posted>, x: Posted)
    ensures multiset(Insert(t, x)) == multiset(t) + multiset{x}
    decreases |t|
  {
    if |t| > 0 && t[0].postTime >= x.postTime {
      InsertCounts(t[1..], x);
      assert t == [t[0]] + t[1..];
    }
  }

  lemma {:induction false} InsertSorted(t: seq<Posted>, x: Posted)
    requires NewestFirst(t)
    ensures NewestFirst(Insert(t, x))
    decreases |t|
  {
    if |t| > 0 && t[0].postTime >= x.postTime {
      InsertSorted(t[1..], x);
      InsertCounts(t[1..], x);
      var r := Insert(t[1..], x);
      forall i | 0 <= i < |r| ensures r[i].postTime <= t[0].postTime {
        assert r[i] in multiset(r);
        assert r[i] in multiset(t[1..]) || r[i] == x;
      }
    }
  }

  lemma {:induction false} InsertAtTime(t: seq<Posted>, x: Posted, k: int)
    requires NewestFirst(t)
    ensures AtTime(Insert(t, x), k) == AtTime(t, k) + (if x.postTime == k then [x] else [])
    decreases |t|
  {
    if |t| > 0 {
      if t[0].postTime >= x.postTime {
        InsertAtTime(t[1..], x, k);
        assert t == [t[0]] + t[1..];
        AtTimeAppend([t[0]], Insert(t[1..], x), k);
        AtTimeAppend([t[0]], t[1..], k);
      } else {
        AtTimeAppend([x], t, k);
        if x.postTime == k { NoneAtLaterTime(t, k); }
      }
    }
  }

  lemma {:induction false} NoneAtLaterTime(t: seq<Posted>, k: int)
    requires forall i :: 0 <= i < |t| ==> t[i].postTime < k
    ensures AtTime(t, k) == []
    decreases |t|
  {
    if |t| > 0 { NoneAtLaterTime(t[1..], k); }
  }

  /** Sorting orders newest first, keeps exactly the same notifications, and is
      stable: notifications posted at the same time keep their order. */
  lemma {:induction false} SortNewestFirstCorrect(s: seq<Posted>)
    ensures NewestFirst(SortNewestFirst(s))
    ensures multiset(SortNewestFirst(s)) == multiset(s)
    ensures forall k :: AtTime(SortNewestFirst(s), k) == AtTime(s, k)
    decreases |s|
  {
    if |s| > 0 {
      var init := s[..|s| - 1];
      SortNewestFirstCorrect(init);
      InsertSorted(SortNewestFirst(init), s[|s| - 1]);
      InsertCounts(SortNewestFirst(init), s[|s| - 1]);
      assert s == init + [s[|s| - 1]];
      forall k ensures AtTime(SortNewestFirst(s), k) == AtTime(s, k) {
        InsertAtTime(SortNewestFirst(init), s[|s| - 1], k);
        AtTimeAppend(init, [s[|s| - 1]], k);
      }
    }
  }

  /** `getAllSortedByTime` is a newest-first, stable permutation of its input,
      and empty for null. */
  lemma AllSortedByTimeCorrect(ns: Option<seq<Posted>>)
    ensures ns.None? ==> AllSortedByTime(ns) == []
    ensures ns.Some? ==> (NewestFirst(AllSortedByTime(ns))
      && multiset(AllSortedByTime(ns)) == multiset(ns.value)
      && forall k :: AtTime(AllSortedByTime(ns), k) == AtTime(ns.value, k))
  {
    if ns.Some? { SortNewestFirstCorrect(ns.value); }
  }

  /** Among the notifications posted at the latest time, the first one is
      the one `maxByOrNull` picks. */
  lemma FirstAtLatestTime(s: seq<Posted>)
    requires |s| > 0
    ensures |AtTime(s, s[FirstMaxIndex(s)].postTime)| > 0
    ensures AtTime(s, s[FirstMaxIndex(s)].postTime)[0] == s[FirstMaxIndex(s)]
  {
    var f := FirstMaxIndex(s);
    var t := s[f].postTime;
    assert s == s[..f] + s[f..];
    AtTimeAppend(s[..f], s[f..], t);
    NoneAtLaterTime(s[..f], t);
  }

  /** In a newest-first list the head opens the notifications of its time. */
  lemma HeadOpensItsTime(s: seq<Posted>)
    requires |s| > 0
    ensures |AtTime(s, s[0].postTime)| > 0 && AtTime(s, s[0].postTime)[0] == s[0]
  {
  }

  /** The head of the sorted list is the notification `getLatestNotification`
      picks. */
  lemma SortedHeadIsLatest(s: seq<Posted>)
    requires |s| > 0
    ensures |SortNewestFirst(s)| == |s|
    ensures SortNewestFirst(s)[0] == Latest(Some(s)).value
  {
    SortNewestFirstCorrect(s);
    var sorted := SortNewestFirst(s);
    assert |sorted| == |multiset(sorted)| == |s|;
    var m := s[FirstMaxIndex(s)];
    assert sorted[0].postTime == m.postTime by {
      assert sorted[0] in multiset(s);
      assert m in multiset(sorted);
    }
    FirstAtLatestTime(s);
    HeadOpensItsTime(sorted);
  }

  /** `getSecondLatestNotification`: null for a null or empty array, else the
      second element of the newest-first list (null when there is none). */
  function SecondLatest(ns: Option<seq<Posted>>): Option<Posted>
  {
    if ns.None? || |ns.value| == 0 then None
    else
      var sorted := SortNewestFirst(ns.value);
      if |sorted| > 1 then Some(sorted[1]) else None
  }

  /** The second latest exists exactly when there are two notifications; it
      is one of them, posted no later than the latest, and every notification
      other than these two was posted no later than it. */
  lemma SecondLatestCorrect(s: seq<Posted>)
    ensures SecondLatest(Some(s)).Some? <==> |s| >= 2
    ensures |s| >= 2 ==> (
      var second := SecondLatest(Some(s)).value;
      var latest := Latest(Some(s)).value;
      second in s && second.postTime <= latest.postTime
      && forall n :: n in multiset(s) - multiset{latest, second} ==> n.postTime <= second.postTime)
  {
    SortNewestFirstCorrect(s);
    var sorted := SortNewestFirst(s);
    assert |sorted| == |multiset(sorted)| == |s|;
    if |s| >= 2 {
      SortedHeadIsLatest(s);
      assert sorted[1] in multiset(s);
      RestNoLater(sorted);
    }
  }

  /** In a newest-first list of at least two, everything but the first two
      was posted no later than the second. */
  lemma RestNoLater(t: seq<Posted>)
    requires NewestFirst(t) && |t| >= 2
    ensures forall n :: n in multiset(t) - multiset{t[0], t[1]} ==> n.postTime <= t[1].postTime
  {
    var rest := t[2..];
    assert t == [t[0], t[1]] + rest;
    assert multiset(t) - multiset{t[0], t[1]} == multiset(rest);
    assert forall i :: 0 <= i < |rest| ==> rest[i] == t[i + 2];
    forall n | n in multiset(rest) ensures n.postTime <= t[1].postTime {
      assert n in rest;
    }
  }

  // ---------------------------------------------------------------------
  // getNotificationData

  /** A value stored in the extras Bundle. */
  datatype Extra =
    | PlainString(s: string)       // a java.lang.String
    | OtherText(s: string)         // another CharSequence, such as a styled string
    | NotText                      // a value of any other type

  const EXTRA_TITLE := "android.title"
  const EXTRA_TEXT := "android.text"

  /** `getCharSequence(key)?.toString()`. */
  function CharSequenceOf(extras: map<string, Extra>, key: string): Option<string>
  {
    if key !in extras then None
    else match extras[key]
      case PlainString(s) => Some(s)
      case OtherText(s) => Some(s)
      case NotText => None
  }

  /** `getString(key, fallback)`: the value only when it is a String. */
  function StringOr(extras: map<string, Extra>, key: string, fallback: string): string
  {
    if key in extras && extras[key].PlainString? then extras[key].s else fallback
  }

  /** `getStringOrFallback`: the text when it is not blank, else `getString`
      with the fallback. */
  function StringOrFallback(extras: map<string, Extra>, key: string, fallback: string): (r: string)
    ensures (key !in extras || extras[key].NotText?) ==> r == fallback
    ensures CharSequenceOf(extras, key).Some? && !IsBlank(CharSequenceOf(extras, key).value) ==>
      r == CharSequenceOf(extras, key).value
    ensures key in extras && extras[key].OtherText? && IsBlank(extras[key].s) ==> r == fallback
    ensures key in extras && extras[key].PlainString? ==> r == extras[key].s
  {
    match CharSequenceOf(extras, key)
    case Some(t) => if !IsBlank(t) then t else StringOr(extras, key, fallback)
    case None => StringOr(extras, key, fallback)
  }

  /** `getNotificationData`: [title, content], with the two placeholder
      strings when the extras are null. */
  function NotificationData(extras: Option<map<string, Extra>>, titleNull: string, contentNull: string): (r: seq<string>)
    ensures |r| == 2
    ensures extras.None? ==> r == [titleNull, contentNull]
    ensures extras.Some? ==> (r[0] == StringOrFallback(extras.value, EXTRA_TITLE, titleNull)
      && r[1] == StringOrFallback(extras.value, EXTRA_TEXT, contentNull))
  {
    match extras
    case None => [titleNull, contentNull]
    case Some(b) => [StringOrFallback(b, EXTRA_TITLE, titleNull), StringOrFallback(b, EXTRA_TEXT, contentNull)]
  }

  const EXTRA_BIG_TEXT := "android.bigText"

  /** The one-argument `getNotificationData` of `NotificationUtilXpq`: the
      content falls back to the big text, and only then to the placeholder.
      Without a big text it reads exactly what `NotificationData` reads. */
  function NotificationDataWithBigText(extras: Option<map<string, Extra>>, titleNull: string, contentNull: string)
    : (r: seq<string>)
    ensures |r| == 2
    ensures extras.None? ==> r == [titleNull, contentNull]
    ensures extras.Some? ==> r[0] == NotificationData(extras, titleNull, contentNull)[0]
    ensures extras.Some? && EXTRA_BIG_TEXT !in extras.value ==> r == NotificationData(extras, titleNull, contentNull)
    ensures extras.Some? && EXTRA_TEXT !in extras.value ==>
      (CharSequenceOf(extras.value, EXTRA_BIG_TEXT).Some? && !IsBlank(CharSequenceOf(extras.value, EXTRA_BIG_TEXT).value)
       ==> r[1] == CharSequenceOf(extras.value, EXTRA_BIG_TEXT).value)
  {
    match extras
    case None => [titleNull, contentNull]
    case Some(b) =>
      [StringOrFallback(b, EXTRA_TITLE, titleNull),
       StringOrFallback(b, EXTRA_TEXT, StringOrFallback(b, EXTRA_BIG_TEXT, contentNull))]
  }

  /** Read text is never blank unless it is a blank String stored as such, or
      the placeholder itself is blank. */
  lemma ReadTextNotBlank(extras: map<string, Extra>, key: string, fallback: string)
    requires !IsBlank(fallback)
    requires key in extras && extras[key].PlainString? ==> !IsBlank(extras[key].s)
    ensures !IsBlank(StringOrFallback(extras, key, fallback))
  {
  }
}
