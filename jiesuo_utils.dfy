/** `JieSuoUtils`: the saved lock-screen points ("i:x,y" strings in a
    key-value store), the 3x4 keypad grid anchored on digits 1, 5 and 9, the
    check that the lock screen exposes readable text, and the digit-by-digit
    fallback input. */
module JieSuoUtils {
  import opened Wrappers
  import opened Text
  import opened Decimal
  import Jvm
  import opened Nodes

  const KEY_SCREEN_LOCK_POINTS := "key_screen_lock_points"

  datatype Point = Point(x: int, y: int)

  /** A decoded store entry: the position in the saved list and its point. */
  datatype Entry = Entry(index: int, point: Point)

  // ---------------------------------------------------------------------
  // The "i:x,y" encoding

  /** The string `saveLockPoints` stores for the `i`-th point. */
  function EncodePoint(i: int, p: Point): string
  {
    IntToString(i) + ":" + IntToString(p.x) + "," + IntToString(p.y)
  }

  /** The whole set `saveLockPoints` stores for a list. */
  function EncodeAll(ps: seq<Point>): set<string>
  {
    if |ps| == 0 then {} else EncodeAll(ps[..|ps| - 1]) + {EncodePoint(|ps| - 1, ps[|ps| - 1])}
  }

  /** The string of every position is stored. */
  lemma {:induction false} EncodedIn(ps: seq<Point>, i: int)
    requires 0 <= i < |ps|
    ensures EncodePoint(i, ps[i]) in EncodeAll(ps)
  {
    if i < |ps| - 1 {
      EncodedIn(ps[..|ps| - 1], i);
    }
  }

  /** Every stored string is the string of some position. */
  lemma {:induction false} SavedPosition(ps: seq<Point>, t: string) returns (i: int)
    requires t in EncodeAll(ps)
    ensures 0 <= i < |ps| && t == EncodePoint(i, ps[i])
  {
    if t == EncodePoint(|ps| - 1, ps[|ps| - 1]) {
      i := |ps| - 1;
    } else {
      i := SavedPosition(ps[..|ps| - 1], t);
    }
  }

  /** One entry as the `mapNotNull` body reads it: split on ':', the first
      part must be an `Int`, the second must split on ',' into at least two
      numbers; anything that throws gives null.  Extra parts are ignored. */
  function ParseEntry(item: string): Option<Entry>
  {
    var parts := Split(item, ':');
    match ToIntOrNull(parts[0])
    case None => None
    case Some(index) =>
      if |parts| < 2 then None
      else
        var xy := Split(parts[1], ',');
        if |xy| < 2 then None
        else
          match (ToIntOrNull(xy[0]), ToIntOrNull(xy[1]))
          case (Some(x), Some(y)) => Some(Entry(index, Point(x, y)))
          case _ => None
  }

  predicate IsIntPoint(p: Point) { Jvm.IsInt(p.x) && Jvm.IsInt(p.y) }

  /** A stored string splits on ':' into the index and the coordinates. */
  lemma EncodedParts(i: int, p: Point)
    ensures Split(EncodePoint(i, p), ':') == [IntToString(i), IntToString(p.x) + [','] + IntToString(p.y)]
  {
    var I, X, Y := IntToString(i), IntToString(p.x), IntToString(p.y);
    var rest := X + [','] + Y;
    PrintedAvoids(i, ':');
    PrintedAvoids(p.x, ':');
    PrintedAvoids(p.y, ':');
    assert Free(rest, ':') by {
      forall k | 0 <= k < |rest| ensures rest[k] != ':' {
        if k > |X| { assert rest[k] == Y[k - |X| - 1]; }
      }
    }
    assert EncodePoint(i, p) == I + [':'] + rest;
    SplitFreeHead(I, rest, ':');
    SplitFreeHead(rest, "", ':');
  }

  /** The coordinates split on ',' into the two numbers. */
  lemma CoordinateParts(x: int, y: int)
    ensures Split(IntToString(x) + [','] + IntToString(y), ',') == [IntToString(x), IntToString(y)]
  {
    PrintedAvoids(x, ',');
    PrintedAvoids(y, ',');
    SplitFreeHead(IntToString(x), IntToString(y), ',');
    SplitFreeHead(IntToString(y), "", ',');
  }

  /** Every stored string decodes to the index and point it was made from. */
  lemma ParseEncoded(i: int, p: Point)
    requires Jvm.IsInt(i) && IsIntPoint(p)
    ensures ParseEntry(EncodePoint(i, p)) == Some(Entry(i, p))
  {
    EncodedParts(i, p);
    CoordinateParts(p.x, p.y);
    ParsePrinted(i, Jvm.INT_MIN, Jvm.INT_MAX);
    ParsePrinted(p.x, Jvm.INT_MIN, Jvm.INT_MAX);
    ParsePrinted(p.y, Jvm.INT_MIN, Jvm.INT_MAX);
  }

  /** Kotlin's `mapNotNull`: the present results of `f`, in order. */
  function MapNotNull<T, U>(f: T -> Option<U>, items: seq<T>): seq<U>
  {
    if |items| == 0 then []
    else
      var last := f(items[|items| - 1]);
      MapNotNull(f, items[..|items| - 1]) + (if last.Some? then [last.value] else [])
  }

  /** When `f` never answers null, `mapNotNull` is `map`. */
  lemma {:induction false} MapNotNullTotal<T, U>(f: T -> Option<U>, items: seq<T>)
    requires forall k :: 0 <= k < |items| ==> f(items[k]).Some?
    ensures |MapNotNull(f, items)| == |items|
    ensures forall k :: 0 <= k < |items| ==> MapNotNull(f, items)[k] == f(items[k]).value
  {
    if |items| > 0 {
      var init := items[..|items| - 1];
      assert forall k :: 0 <= k < |init| ==> init[k] == items[k];
      MapNotNullTotal(f, init);
    }
  }

  /** The decoded entries of the stored strings, in iteration order `items`. */
  function ParseAll(items: seq<string>): seq<Entry>
  {
    MapNotNull(ParseEntry, items)
  }

  // ---------------------------------------------------------------------
  // `sortedBy { it.first }`

  predicate SortedByIndex(s: seq<Entry>)
  {
    forall i, j :: 0 <= i < j < |s| ==> s[i].index <= s[j].index
  }

  predicate StrictlyByIndex(s: seq<Entry>)
  {
    forall i, j :: 0 <= i < j < |s| ==> s[i].index < s[j].index
  }

  /** Places `e` after every entry whose index is not larger, so equal
      indices keep their input order. */
  function InsertByIndex(s: seq<Entry>, e: Entry): seq<Entry>
  {
    if |s| == 0 then [e]
    else if s[0].index <= e.index then [s[0]] + InsertByIndex(s[1..], e)
    else [e] + s
  }

  function SortByIndex(s: seq<Entry>): seq<Entry>
  {
    if |s| == 0 then [] else InsertByIndex(SortByIndex(s[..|s| - 1]), s[|s| - 1])
  }

  lemma {:induction false} InsertByIndexPermutes(s: seq<Entry>, e: Entry)
    ensures multiset(InsertByIndex(s, e)) == multiset(s) + multiset{e}
  {
    if |s| > 0 && s[0].index <= e.index {
      InsertByIndexPermutes(s[1..], e);
      assert s == [s[0]] + s[1..];
    }
  }

  lemma {:induction false} InsertByIndexSorted(s: seq<Entry>, e: Entry)
    requires SortedByIndex(s)
    ensures SortedByIndex(InsertByIndex(s, e))
  {
    if |s| > 0 && s[0].index <= e.index {
      InsertByIndexSorted(s[1..], e);
      InsertByIndexPermutes(s[1..], e);
      var t := InsertByIndex(s[1..], e);
      forall k | 0 <= k < |t| ensures s[0].index <= t[k].index {
        assert t[k] in multiset(t);
        if t[k] != e {
          assert t[k] in multiset(s[1..]);
          var j :| 0 <= j < |s[1..]| && s[1..][j] == t[k];
          assert s[j + 1] == t[k];
        }
      }
    }
  }

  /** `sortedBy` returns its input ordered by index, as a permutation. */
  lemma {:induction false} SortByIndexCorrect(s: seq<Entry>)
    ensures SortedByIndex(SortByIndex(s))
    ensures multiset(SortByIndex(s)) == multiset(s)
  {
    if |s| > 0 {
      SortByIndexCorrect(s[..|s| - 1]);
      InsertByIndexSorted(SortByIndex(s[..|s| - 1]), s[|s| - 1]);
      InsertByIndexPermutes(SortByIndex(s[..|s| - 1]), s[|s| - 1]);
      assert s == s[..|s| - 1] + [s[|s| - 1]];
    }
  }

  lemma {:induction false} InsertByIndexStrict(s: seq<Entry>, e: Entry)
    requires StrictlyByIndex(s)
    requires forall k :: 0 <= k < |s| ==> s[k].index != e.index
    ensures StrictlyByIndex(InsertByIndex(s, e))
    ensures forall x :: x in InsertByIndex(s, e) <==> x in s || x == e
  {
    if |s| > 0 && s[0].index <= e.index {
      InsertByIndexStrict(s[1..], e);
      var t := InsertByIndex(s[1..], e);
      forall k | 0 <= k < |t| ensures s[0].index < t[k].index {
        assert t[k] in t;
        if t[k] != e {
          var j :| 0 <= j < |s[1..]| && s[1..][j] == t[k];
          assert s[j + 1] == t[k];
        }
      }
      assert s == [s[0]] + s[1..];
    }
  }

  /** Entries whose indices are pairwise distinct sort strictly. */
  lemma {:induction false} SortByIndexStrict(s: seq<Entry>)
    requires forall i, j :: 0 <= i < j < |s| ==> s[i].index != s[j].index
    ensures StrictlyByIndex(SortByIndex(s))
    ensures forall x :: x in SortByIndex(s) <==> x in s
  {
    if |s| > 0 {
      var init := s[..|s| - 1];
      SortByIndexStrict(init);
      var t := SortByIndex(init);
      forall k | 0 <= k < |t| ensures t[k].index != s[|s| - 1].index {
        assert t[k] in t;
        var j :| 0 <= j < |init| && init[j] == t[k];
        assert s[j] == t[k];
      }
      InsertByIndexStrict(t, s[|s| - 1]);
      assert s == init + [s[|s| - 1]];
    }
  }

  lemma SameMembersEmpty(a: seq<Entry>, b: seq<Entry>)
    requires forall x :: x in a <==> x in b
    ensures |a| == 0 <==> |b| == 0
  {
    if |a| > 0 { assert a[0] in b; }
    if |b| > 0 { assert b[0] in a; }
  }

  /** Two strictly index-ordered sequences with the same members are equal. */
  lemma {:induction false} StrictSameMembers(a: seq<Entry>, b: seq<Entry>)
    requires StrictlyByIndex(a) && StrictlyByIndex(b)
    requires forall x :: x in a <==> x in b
    ensures a == b
  {
    SameMembersEmpty(a, b);
    if |a| > 0 {
      assert a[0] in b;
      assert b[0] in a;
      var j :| 0 <= j < |b| && b[j] == a[0];
      assert j == 0;
      forall x ensures x in a[1..] <==> x in b[1..] {
        if x in a[1..] {
          var k :| 1 <= k < |a| && a[k] == x;
          assert x in b && x != b[0];
        }
        if x in b[1..] {
          var k :| 1 <= k < |b| && b[k] == x;
          assert x in a && x != a[0];
        }
      }
      StrictSameMembers(a[1..], b[1..]);
      assert a == [a[0]] + a[1..] && b == [b[0]] + b[1..];
    }
  }

  /** `.map { it.second }`. */
  function Points(s: seq<Entry>): (ps: seq<Point>)
    ensures |ps| == |s| && forall k :: 0 <= k < |s| ==> ps[k] == s[k].point
  {
    if |s| == 0 then [] else [s[0].point] + Points(s[1..])
  }

  /** The preconditions shared by the read-back lemmas: `ps` is a list
      `saveLockPoints` can write and `order` enumerates its stored set. */
  ghost predicate EnumeratesSaved(ps: seq<Point>, order: seq<string>)
  {
    |ps| <= Jvm.INT_MAX
    && (forall k :: 0 <= k < |ps| ==> IsIntPoint(ps[k]))
    && (forall i, j :: 0 <= i < j < |order| ==> order[i] != order[j])
    && (forall t :: t in order <==> t in EncodeAll(ps))
  }

  /** Each stored string decodes, to the entry of the position it encodes. */
  lemma ParsedSaved(ps: seq<Point>, order: seq<string>)
    requires EnumeratesSaved(ps, order)
    ensures |ParseAll(order)| == |order|
    ensures forall k :: 0 <= k < |order| ==>
      0 <= ParseAll(order)[k].index < |ps|
      && ParseAll(order)[k].point == ps[ParseAll(order)[k].index]
      && order[k] == EncodePoint(ParseAll(order)[k].index, ps[ParseAll(order)[k].index])
  {
    forall k | 0 <= k < |order|
      ensures ParseEntry(order[k]).Some?
      ensures 0 <= ParseEntry(order[k]).value.index < |ps|
      ensures ParseEntry(order[k]).value.point == ps[ParseEntry(order[k]).value.index]
      ensures order[k] == EncodePoint(ParseEntry(order[k]).value.index, ps[ParseEntry(order[k]).value.index])
    {
      var i := SavedPosition(ps, order[k]);
      ParseEncoded(i, ps[i]);
    }
    MapNotNullTotal(ParseEntry, order);
  }

  /** Distinct stored strings carry distinct indices. */
  lemma SavedIndicesDistinct(ps: seq<Point>, order: seq<string>)
    requires EnumeratesSaved(ps, order)
    ensures forall a, b :: 0 <= a < b < |ParseAll(order)| ==> ParseAll(order)[a].index != ParseAll(order)[b].index
  {
    ParsedSaved(ps, order);
  }

  /** The decoded entries are exactly the positions of the list. */
  lemma SavedMembers(ps: seq<Point>, order: seq<string>, x: Entry)
    requires EnumeratesSaved(ps, order)
    ensures x in ParseAll(order) <==> 0 <= x.index < |ps| && x.point == ps[x.index]
  {
    ParsedSaved(ps, order);
    var E := ParseAll(order);
    if 0 <= x.index < |ps| && x.point == ps[x.index] {
      EncodedIn(ps, x.index);
      var k :| 0 <= k < |order| && order[k] == EncodePoint(x.index, ps[x.index]);
      PrintInjective(E[k].index, x.index) by {
        EncodedParts(E[k].index, ps[E[k].index]);
        EncodedParts(x.index, ps[x.index]);
      }
      assert E[k] == x;
    }
  }

  /** Whatever order the stored set is iterated in, reading back what
      `saveLockPoints` wrote yields the original list. */
  lemma SaveThenRead(ps: seq<Point>, order: seq<string>)
    requires EnumeratesSaved(ps, order)
    ensures Points(SortByIndex(ParseAll(order))) == ps
  {
    var E := ParseAll(order);
    SavedIndicesDistinct(ps, order);
    SortByIndexStrict(E);
    var R := SortByIndex(E);
    var L := seq(|ps|, i requires 0 <= i < |ps| => Entry(i, ps[i]));
    forall x ensures x in R <==> x in L {
      SavedMembers(ps, order, x);
      if 0 <= x.index < |ps| && x.point == ps[x.index] {
        assert L[x.index] == x;
      }
    }
    StrictSameMembers(R, L);
  }

  // ---------------------------------------------------------------------
  // `getLockPointsByNumbers`

  /** An entry as `getLockPointsByNumbers` reads it: the stored index plus
      one (an `Int` addition), which is the keypad number. */
  function ParseNumbered(item: string): Option<Entry>
  {
    match ParseEntry(item)
    case None => None
    case Some(e) => Some(Entry(Jvm.WrapInt(e.index + 1), e.point))
  }

  /** What `getLockPointsByNumbers` may return for stored set `stored` and
      requested numbers `wanted`: only requested numbers, each with a point
      some entry stores for it, and every requested number some entry stores.
      Which entry wins for a number stored twice depends on iteration order. */
  predicate NumberedLookup(stored: set<string>, wanted: set<int>, m: map<int, Point>)
  {
    (forall k :: k in m ==>
      k in wanted && exists t :: t in stored && ParseNumbered(t) == Some(Entry(k, m[k])))
    && (forall t :: t in stored && ParseNumbered(t).Some? && ParseNumbered(t).value.index in wanted ==>
          ParseNumbered(t).value.index in m)
  }

  lemma LookupSound(stored: set<string>, wanted: set<int>, m: map<int, Point>, k: int) returns (t: string)
    requires NumberedLookup(stored, wanted, m) && k in m
    ensures k in wanted && t in stored && ParseNumbered(t) == Some(Entry(k, m[k]))
  {
    t :| t in stored && ParseNumbered(t) == Some(Entry(k, m[k]));
  }

  lemma LookupComplete(stored: set<string>, wanted: set<int>, m: map<int, Point>, t: string)
    requires NumberedLookup(stored, wanted, m)
    requires t in stored && ParseNumbered(t).Some? && ParseNumbered(t).value.index in wanted
    ensures ParseNumbered(t).value.index in m
  {
  }

  /** The number of a stored entry is its position plus one, for every list
      short enough to be indexed by an `Int`. */
  lemma NumberedEncoded(i: int, p: Point)
    requires 0 <= i < Jvm.INT_MAX && IsIntPoint(p)
    ensures ParseNumbered(EncodePoint(i, p)) == Some(Entry(i + 1, p))
  {
    ParseEncoded(i, p);
  }

  lemma SavedNumberValue(ps: seq<Point>, t: string, k: int, v: Point)
    requires |ps| <= Jvm.INT_MAX
    requires forall i :: 0 <= i < |ps| ==> IsIntPoint(ps[i])
    requires t in EncodeAll(ps) && ParseNumbered(t) == Some(Entry(k, v))
    ensures 1 <= k <= |ps| && v == ps[k - 1]
  {
    var i := SavedPosition(ps, t);
    NumberedEncoded(i, ps[i]);
  }

  lemma SavedNumberFound(ps: seq<Point>, k: int)
    requires |ps| <= Jvm.INT_MAX
    requires forall i :: 0 <= i < |ps| ==> IsIntPoint(ps[i])
    requires 1 <= k <= |ps|
    ensures EncodePoint(k - 1, ps[k - 1]) in EncodeAll(ps)
    ensures ParseNumbered(EncodePoint(k - 1, ps[k - 1])) == Some(Entry(k, ps[k - 1]))
  {
    EncodedIn(ps, k - 1);
    NumberedEncoded(k - 1, ps[k - 1]);
  }

  /** Over a list written by `saveLockPoints`, number `k` is in the map
      exactly when it was requested and the list has a `k`-th point
      (counting from 1), and then it maps to that point. */
  lemma NumbersFromSaved(ps: seq<Point>, wanted: set<int>, m: map<int, Point>, k: int)
    requires |ps| <= Jvm.INT_MAX
    requires forall i :: 0 <= i < |ps| ==> IsIntPoint(ps[i])
    requires NumberedLookup(EncodeAll(ps), wanted, m)
    ensures k in m <==> k in wanted && 1 <= k <= |ps|
    ensures k in m ==> m[k] == ps[k - 1]
  {
    if k in m {
      var t := LookupSound(EncodeAll(ps), wanted, m, k);
      SavedNumberValue(ps, t, k, m[k]);
    } else if k in wanted && 1 <= k <= |ps| {
      SavedNumberFound(ps, k);
      LookupComplete(EncodeAll(ps), wanted, m, EncodePoint(k - 1, ps[k - 1]));
    }
  }

  // ---------------------------------------------------------------------
  // The keypad grid

  /** Row and column of a key on the 3-column keypad. */
  datatype Cell = Cell(row: int, col: int)

  /** `getPoint`'s index arithmetic: digit 0 sits at index 10, any other
      digit `d` at `d - 1`; Kotlin's `/` and `%` truncate. */
  function DigitCell(digit: int): Cell
  {
    var index := if digit == 0 then 10 else digit - 1;
    Cell(Jvm.Quot(index, 3), Jvm.Rem(index, 3))
  }

  /** The digits land on a phone keypad: 1..9 fill three rows of three in
      reading order and 0 sits alone below 8; no two digits share a key. */
  lemma KeypadLayout(d: int, e: int)
    requires 0 <= d <= 9 && 0 <= e <= 9
    ensures d >= 1 ==> (0 <= DigitCell(d).row <= 2 && 0 <= DigitCell(d).col <= 2
                        && 3 * DigitCell(d).row + DigitCell(d).col + 1 == d)
    ensures DigitCell(0) == Cell(3, 1) && DigitCell(8).col == 1
    ensures DigitCell(d) == DigitCell(e) ==> d == e
  {
  }

  /** `LockReadState`.  `NOT_LOCK_SCREEN` is declared but never returned: the
      keyguard check that would return it is commented out. */
  datatype LockReadState = NOT_LOCK_SCREEN | ROOT_NULL | NO_CHILDREN | STRUCTURE_ONLY | FULLY_READABLE

  /** `!text.isNullOrEmpty() || !contentDescription.isNullOrEmpty()`. */
  predicate HasText(n: Node)
  {
    (n.text.Some? && |n.text.value| > 0) || (n.description.Some? && |n.description.value| > 0)
  }

  /** Some node of the tree under `n` has text. */
  predicate AnyText(n: Node)
    decreases n, 1
  {
    HasText(n) || AnyTextFrom(n, 0)
  }

  predicate AnyTextFrom(n: Node, i: nat)
    requires i <= |n.children|
    decreases n, 0, |n.children| - i
  {
    i < |n.children|
    && ((n.children[i].Some? && AnyText(n.children[i].value)) || AnyTextFrom(n, i + 1))
  }

  predicate SomeHasText(s: seq<Node>)
  {
    exists j :: 0 <= j < |s| && HasText(s[j])
  }

  lemma SomeHasTextAppend(a: seq<Node>, b: seq<Node>)
    ensures SomeHasText(a + b) <==> SomeHasText(a) || SomeHasText(b)
  {
    if SomeHasText(b) {
      var j :| 0 <= j < |b| && HasText(b[j]);
      assert (a + b)[|a| + j] == b[j];
    }
    if SomeHasText(a) {
      var j :| 0 <= j < |a| && HasText(a[j]);
      assert (a + b)[j] == a[j];
    }
    if SomeHasText(a + b) {
      var j :| 0 <= j < |a + b| && HasText((a + b)[j]);
      if j >= |a| { assert (a + b)[j] == b[j - |a|]; } else { assert (a + b)[j] == a[j]; }
    }
  }

  /** `AnyText` is "some node in the pre-order has text". */
  lemma {:induction false} AnyTextIsSomeNode(n: Node)
    ensures AnyText(n) <==> SomeHasText(Preorder(n))
    decreases n, 1
  {
    AnyTextFromIsSomeNode(n, 0);
    SomeHasTextAppend([n], Forest(n, 0));
  }

  lemma {:induction false} AnyTextFromIsSomeNode(n: Node, i: nat)
    requires i <= |n.children|
    ensures AnyTextFrom(n, i) <==> SomeHasText(Forest(n, i))
    decreases n, 0, |n.children| - i
  {
    if i < |n.children| {
      AnyTextFromIsSomeNode(n, i + 1);
      var head := if n.children[i].Some? then Preorder(n.children[i].value) else [];
      SomeHasTextAppend(head, Forest(n, i + 1));
      if n.children[i].Some? {
        AnyTextIsSomeNode(n.children[i].value);
      }
    }
  }

  /** Some node on the stack has text somewhere below it. */
  predicate StackHasText(stack: seq<Node>)
  {
    |stack| > 0 && (StackHasText(stack[..|stack| - 1]) || AnyText(stack[|stack| - 1]))
  }

  /** The number of nodes still to visit under the stack. */
  function Pending(stack: seq<Node>): nat
  {
    if |stack| == 0 then 0 else Pending(stack[..|stack| - 1]) + |Preorder(stack[|stack| - 1])|
  }

  /** `checkLockscreenReadable`: a null root and a childless root are
      reported as such; otherwise a depth-first walk with an explicit stack
      reports FULLY_READABLE exactly when some node has text or a
      description. */
  method CheckLockscreenReadable(root: Option<Node>) returns (state: LockReadState)
    ensures root.None? ==> state == ROOT_NULL
    ensures root.Some? && |root.value.children| == 0 ==> state == NO_CHILDREN
    ensures root.Some? && |root.value.children| > 0 ==>
      (state == FULLY_READABLE || state == STRUCTURE_ONLY)
      && (state == FULLY_READABLE <==> AnyText(root.value))
  {
    if root.None? {
      return ROOT_NULL;
    }
    var r := root.value;
    if |r.children| == 0 {
      return NO_CHILDREN;
    }
    var stack := [r];
    assert [r][..0] == [];
    var hasText := false;
    while |stack| > 0
      invariant !hasText ==> (AnyText(r) <==> StackHasText(stack))
      invariant hasText ==> AnyText(r)
      decreases if hasText then 0 else 1, Pending(stack)
    {
      var node := stack[|stack| - 1];
      var base := stack[..|stack| - 1];
      stack := base;
      if HasText(node) {
        hasText := true;
        break;
      }
      var i := 0;
      while i < |node.children|
        invariant 0 <= i <= |node.children|
        invariant (StackHasText(stack) || AnyTextFrom(node, i)) <==> (StackHasText(base) || AnyTextFrom(node, 0))
        invariant Pending(stack) + |Forest(node, i)| == Pending(base) + |Forest(node, 0)|
      {
        var child := node.children[i];
        if child.Some? {
          assert (stack + [child.value])[..|stack|] == stack;
          stack := stack + [child.value];
        }
        i := i + 1;
      }
    }
    state := if hasText then FULLY_READABLE else STRUCTURE_ONLY;
  }

  // ---------------------------------------------------------------------
  // The stateful part of the object

  /** A single character parses as an `Int` exactly when it is a digit. */
  lemma DigitParse(c: char)
    ensures ToIntOrNull([c]).Some? <==> IsDigit(c)
  {
    if c == '-' || c == '+' {
      assert Unsigned([c]) == [];
    } else {
      assert Unsigned([c]) == [c];
      assert AllDigits([c]) <==> IsDigit(c);
      if IsDigit(c) {
        assert DigitsValue([c]) == DigitValue(c) by {
          assert [c][..0] == [];
        }
      }
    }
  }

  /** Number of `true` answers among the first `n` of `click`. */
  function Successes(click: nat -> bool, n: nat): nat
  {
    if n == 0 then 0 else Successes(click, n - 1) + (if click(n - 1) then 1 else 0)
  }

  class LockScreen {
    /** The key-value store: each group key holds a set of strings. */
    var saved: map<string, set<string>>
    /** `init` has run. */
    var inited: bool
    /** `startX`/`startY`: the anchor of digit 1. */
    var start: Point

    constructor (saved0: map<string, set<string>>)
      ensures saved == saved0 && !inited && start == Point(0, 0)
    {
      saved := saved0;
      inited := false;
      start := Point(0, 0);
    }

    /** `MMKVUtil.get(groupKey, mutableSetOf())`. */
    function Stored(groupKey: string): set<string>
      reads this
    {
      if groupKey in saved then saved[groupKey] else {}
    }

    /** `saveLockPoints`: an empty list changes nothing; otherwise the group
        is overwritten with the "i:x,y" string of every point. */
    method SaveLockPoints(groupKey: string, ps: seq<Point>)
      modifies this
      ensures |ps| == 0 ==> saved == old(saved)
      ensures |ps| > 0 ==> saved == old(saved)[groupKey := EncodeAll(ps)]
      ensures inited == old(inited) && start == old(start)
    {
      if |ps| == 0 {
        return;
      }
      var s: set<string> := {};
      for i := 0 to |ps|
        invariant s == EncodeAll(ps[..i])
        invariant saved == old(saved) && inited == old(inited) && start == old(start)
      {
        assert ps[..i + 1][..i] == ps[..i];
        s := s + {EncodePoint(i, ps[i])};
      }
      assert ps[..|ps|] == ps;
      saved := saved[groupKey := s];
    }

    /** `getSavedLockPoints`: every stored entry that decodes, ordered by
        index, as points.  `order` is the order in which the set was
        iterated, which the platform does not fix. */
    method GetSavedLockPoints(groupKey: string) returns (ps: seq<Point>, ghost order: seq<string>)
      ensures forall i, j :: 0 <= i < j < |order| ==> order[i] != order[j]
      ensures forall t :: t in order <==> t in Stored(groupKey)
      ensures ps == Points(SortByIndex(ParseAll(order)))
    {
      var rest := Stored(groupKey);
      var entries: seq<Entry> := [];
      order := [];
      while rest != {}
        invariant forall t :: t in Stored(groupKey) <==> t in rest || t in order
        invariant forall k :: 0 <= k < |order| ==> order[k] !in rest
        invariant forall i, j :: 0 <= i < j < |order| ==> order[i] != order[j]
        invariant entries == ParseAll(order)
        decreases |rest|
      {
        var item :| item in rest;
        var e := ParseEntry(item);
        if e.Some? {
          entries := entries + [e.value];
        }
        assert (order + [item])[..|order|] == order;
        order := order + [item];
        rest := rest - {item};
      }
      ps := Points(SortByIndex(entries));
    }

    /** `getLockPointsByNumbers`: empty for no numbers; otherwise, over the
        stored entries in iteration order, each entry whose number (index
        plus one) is requested is put into the map, a later one replacing an
        earlier one with the same number. */
    method GetLockPointsByNumbers(numbers: seq<int>, groupKey: string) returns (m: map<int, Point>)
      ensures |numbers| == 0 ==> m == map[]
      ensures |numbers| > 0 ==> NumberedLookup(Stored(groupKey), (set x | x in numbers), m)
    {
      m := map[];
      if |numbers| == 0 {
        return;
      }
      var wanted := set x | x in numbers;
      var stored := Stored(groupKey);
      var rest := stored;
      ghost var seen: set<string> := {};
      while rest != {}
        invariant rest <= stored && seen == stored - rest
        invariant forall k :: k in m ==>
          k in wanted && exists t :: t in seen && ParseNumbered(t) == Some(Entry(k, m[k]))
        invariant forall t :: t in seen && ParseNumbered(t).Some? && ParseNumbered(t).value.index in wanted ==>
          ParseNumbered(t).value.index in m
        decreases |rest|
      {
        var item :| item in rest;
        var e := ParseNumbered(item);
        if e.Some? && e.value.index in wanted {
          m := m[e.value.index := e.value.point];
        }
        seen := seen + {item};
        rest := rest - {item};
      }
    }

    /** `init(p1, p5, p9)`: anchors the grid on digit 1 and marks it ready.
        The cell size, computed in floating point from the three points, is
        not part of this model. */
    method Init(p1: Point, p5: Point, p9: Point)
      modifies this
      ensures inited && start == p1 && saved == old(saved)
    {
      start := p1;
      inited := true;
    }

    /** `getPoint(digit)`: `check(inited)` throws before `init`; afterwards
        the digit's keypad cell. */
    method GetPoint(digit: int) returns (r: Result<Cell, string>)
      ensures !inited ==> r == Failure("LockGrid159 not initialized")
      ensures inited ==> r == Success(DigitCell(digit))
    {
      if !inited {
        return Failure("LockGrid159 not initialized");
      }
      return Success(DigitCell(digit));
    }

    /** The grid set-up of `fallbackStrategy`: saved points 1, 2 and 3 (the
        keys for digits 1, 5 and 9), each replaced by a built-in default when
        missing. */
    method InitFromSavedPoints()
      modifies this
      ensures inited && saved == old(saved)
    {
      var pointsMap := GetLockPointsByNumbers([1, 2, 3], KEY_SCREEN_LOCK_POINTS);
      var p1 := if 1 in pointsMap then pointsMap[1] else Point(297, 1299);
      var p5 := if 2 in pointsMap then pointsMap[2] else Point(628, 1597);
      var p9 := if 3 in pointsMap then pointsMap[3] else Point(957, 1902);
      Init(p1, p5, p9);
    }

    /** `fallbackStrategy(myDigit, hasNode)`, with `click(i)` the outcome of
        the `i`-th input (a node click when `hasNode`, a gesture at the
        digit's grid point otherwise).  Without nodes the grid is first
        initialised from saved points 1, 2, 3 (or built-in defaults), and a
        character that is not a digit makes `toInt()` throw.  The result is
        true exactly when no input failed. */
    method FallbackStrategy(myDigit: string, hasNode: bool, click: nat -> bool) returns (r: Result<bool, string>)
      modifies this
      ensures saved == old(saved)
      ensures !hasNode ==> inited
      ensures hasNode ==> inited == old(inited) && start == old(start)
      ensures r.Failure? <==> !hasNode && exists i :: 0 <= i < |myDigit| && !IsDigit(myDigit[i])
      ensures r.Success? ==> (r.value <==> forall i :: 0 <= i < |myDigit| ==> click(i))
    {
      if !hasNode {
        InitFromSavedPoints();
      }
      var trueCount := 0;
      var falseCount := 0;
      for i := 0 to |myDigit|
        invariant !hasNode ==> inited
        invariant hasNode ==> inited == old(inited) && start == old(start)
        invariant saved == old(saved)
        invariant !hasNode ==> forall j :: 0 <= j < i ==> IsDigit(myDigit[j])
        invariant trueCount == Successes(click, i) && trueCount + falseCount == i
        invariant falseCount == 0 <==> forall j :: 0 <= j < i ==> click(j)
      {
        var inputSuccess: bool;
        if hasNode {
          inputSuccess := click(i);
        } else {
          var dig := ToIntOrNull([myDigit[i]]);
          DigitParse(myDigit[i]);
          if dig.None? {
            return Failure("NumberFormatException");
          }
          var cell := GetPoint(dig.value);
          inputSuccess := click(i);
        }
        if !inputSuccess {
          falseCount := falseCount + 1;
        } else {
          trueCount := trueCount + 1;
        }
      }
      return Success(falseCount == 0);
    }
  }
}
