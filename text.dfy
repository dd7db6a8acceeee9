/** Kotlin string operations the core relies on: `split`, `replace`,
    `contains`, `isBlank` and ASCII case mapping. */
module Text {

  predicate StartsWith(s: string, p: string) { |p| <= |s| && s[..|p|] == p }

  /** `s.contains(p)`. */
  predicate Contains(s: string, p: string)
    decreases |s|
  {
    StartsWith(s, p) || (|s| > 0 && Contains(s[1..], p))
  }

  /** `Contains` agrees with the existence of an occurrence at some index. */
  lemma {:induction false} ContainsAt(s: string, p: string, i: nat)
    requires i + |p| <= |s| && s[i..i + |p|] == p
    ensures Contains(s, p)
    decreases i
  {
    if i > 0 {
      assert s[1..][i - 1..i - 1 + |p|] == s[i..i + |p|];
      ContainsAt(s[1..], p, i - 1);
    }
  }

  /** Searching for a one-character pattern is scanning for that character. */
  lemma {:induction false} ContainsChar(s: string, c: char)
    ensures Contains(s, [c]) <==> !Free(s, c)
    decreases |s|
  {
    if |s| > 0 {
      ContainsChar(s[1..], c);
      assert Free(s, c) <==> s[0] != c && Free(s[1..], c) by {
        if s[0] != c && Free(s[1..], c) {
          forall i | 0 <= i < |s| ensures s[i] != c {
            if i > 0 { assert s[i] == s[1..][i - 1]; }
          }
        }
      }
    }
  }

  /** The index of the first `c` in `s`, as `indexOf(c)` (-1 when absent). */
  function IndexOfChar(s: string, c: char): (r: int)
    ensures r == -1 <==> Free(s, c)
    ensures r != -1 ==> 0 <= r < |s| && s[r] == c && Free(s[..r], c)
  {
    if |s| == 0 then -1
    else if s[0] == c then 0
    else
      var k := IndexOfChar(s[1..], c);
      if k == -1 then
        assert forall i :: 1 <= i < |s| ==> s[i] == s[1..][i - 1];
        -1
      else
        assert s[..k + 1] == [s[0]] + s[1..][..k];
        k + 1
  }

  /** Kotlin `split(d)` with a single delimiter: every piece is kept, including
      empty leading and trailing ones. */
  function Split(s: string, d: char): (parts: seq<string>)
    ensures |parts| >= 1
    decreases |s|
  {
    if |s| == 0 then [""]
    else if s[0] == d then [""] + Split(s[1..], d)
    else
      var rest := Split(s[1..], d);
      [[s[0]] + rest[0]] + rest[1..]
  }

  /** `parts.joinToString(d)`. */
  function Join(parts: seq<string>, d: char): string
    requires |parts| >= 1
  {
    if |parts| == 1 then parts[0] else parts[0] + [d] + Join(parts[1..], d)
  }

  predicate Free(s: string, d: char) { forall i :: 0 <= i < |s| ==> s[i] != d }

  /** No piece produced by `Split` holds the delimiter. */
  lemma {:induction false} SplitPiecesFree(s: string, d: char)
    ensures forall k :: 0 <= k < |Split(s, d)| ==> Free(Split(s, d)[k], d)
    decreases |s|
  {
    if |s| > 0 {
      SplitPiecesFree(s[1..], d);
    }
  }

  /** Joining the pieces back with the delimiter restores the string. */
  lemma {:induction false} JoinSplit(s: string, d: char)
    ensures Join(Split(s, d), d) == s
    decreases |s|
  {
    if |s| > 0 {
      JoinSplit(s[1..], d);
      if s[0] != d {
        var rest := Split(s[1..], d);
        if |rest| > 1 {
          assert rest == [rest[0]] + rest[1..];
          assert Join(rest, d) == rest[0] + [d] + Join(rest[1..], d);
        }
      }
    }
  }

  /** A delimiter at the end of the string adds one empty trailing piece. */
  lemma {:induction false} SplitTrailing(s: string, d: char)
    ensures Split(s + [d], d) == Split(s, d) + [""]
    decreases |s|
  {
    if |s| > 0 {
      assert (s + [d])[1..] == s[1..] + [d];
      SplitTrailing(s[1..], d);
    } else {
      assert s + [d] == [d];
    }
  }

  lemma {:induction false} SplitFreeHead(a: string, rest: string, d: char)
    requires Free(a, d)
    ensures Split(a + [d] + rest, d) == [a] + Split(rest, d)
    ensures Split(a, d) == [a]
    decreases |a|
  {
    if |a| > 0 {
      assert (a + [d] + rest)[1..] == a[1..] + [d] + rest;
      SplitFreeHead(a[1..], rest, d);
      assert [a[0]] + a[1..] == a;
    }
  }

  /** Splitting a join of delimiter-free pieces gives the pieces back. */
  lemma {:induction false} SplitJoin(parts: seq<string>, d: char)
    requires |parts| >= 1
    requires forall k :: 0 <= k < |parts| ==> Free(parts[k], d)
    ensures Split(Join(parts, d), d) == parts
    decreases |parts|
  {
    SplitFreeHead(parts[0], "", d);
    if |parts| > 1 {
      SplitJoin(parts[1..], d);
      SplitFreeHead(parts[0], Join(parts[1..], d), d);
      assert parts == [parts[0]] + parts[1..];
    }
  }

  /** Kotlin `s.replace(p, r)`: left-to-right, non-overlapping; an empty `p`
      puts `r` before every character and at the end. */
  function ReplaceAll(s: string, p: string, r: string): string
    decreases |s|
  {
    if |p| == 0 then
      (if |s| == 0 then r else r + [s[0]] + ReplaceAll(s[1..], p, r))
    else if |s| < |p| then s
    else if s[..|p|] == p then r + ReplaceAll(s[|p|..], p, r)
    else [s[0]] + ReplaceAll(s[1..], p, r)
  }

  /** A pattern that does not occur leaves the string unchanged. */
  lemma {:induction false} ReplaceAbsent(s: string, p: string, r: string)
    requires |p| > 0 && !Contains(s, p)
    ensures ReplaceAll(s, p, r) == s
    decreases |s|
  {
    if |s| >= |p| {
      ReplaceAbsent(s[1..], p, r);
    }
  }

  /** `s` with every `c` dropped, other characters kept in order. */
  function Without(s: string, c: char): (t: string)
    ensures Free(t, c)
    ensures |t| <= |s|
  {
    if |s| == 0 then ""
    else if s[0] == c then Without(s[1..], c)
    else [s[0]] + Without(s[1..], c)
  }

  /** Replacing a single character by nothing removes exactly that character. */
  lemma {:induction false} RemoveCharIsWithout(s: string, c: char)
    ensures ReplaceAll(s, [c], "") == Without(s, c)
    decreases |s|
  {
    if |s| > 0 {
      RemoveCharIsWithout(s[1..], c);
    }
  }

  /** Kotlin `Char.isWhitespace()`: Java whitespace or a Unicode space character. */
  predicate IsWhitespace(c: char)
  {
    ('\t' <= c <= '\r') || ('\U{1C}' <= c <= ' ') || c == '\U{A0}' || c == '\U{1680}'
    || ('\U{2000}' <= c <= '\U{200A}') || c == '\U{2028}' || c == '\U{2029}' || c == '\U{202F}'
    || c == '\U{205F}' || c == '\U{3000}'
  }

  /** Kotlin `CharSequence.isBlank()`: empty or whitespace only. */
  predicate IsBlank(s: string) { forall i :: 0 <= i < |s| ==> IsWhitespace(s[i]) }

  function LowerChar(c: char): char { if 'A' <= c <= 'Z' then (c as int + 32) as char else c }

  function UpperChar(c: char): char { if 'a' <= c <= 'z' then (c as int - 32) as char else c }

  /** `lowercase()` restricted to the ASCII letters. */
  function Lower(s: string): (t: string)
    ensures |t| == |s| && forall i :: 0 <= i < |s| ==> t[i] == LowerChar(s[i])
  {
    if |s| == 0 then "" else [LowerChar(s[0])] + Lower(s[1..])
  }

  /** `uppercase()` restricted to the ASCII letters. */
  function Upper(s: string): (t: string)
    ensures |t| == |s| && forall i :: 0 <= i < |s| ==> t[i] == UpperChar(s[i])
  {
    if |s| == 0 then "" else [UpperChar(s[0])] + Upper(s[1..])
  }

  /** `String.equalsIgnoreCase` restricted to the ASCII letters. */
  predicate EqualsIgnoreCase(a: string, b: string)
  {
    |a| == |b| && forall i :: 0 <= i < |a| ==> UpperChar(a[i]) == UpperChar(b[i])
  }

  /** Case-insensitive equality is the equality of the upper-cased strings. */
  lemma EqualsIgnoreCaseUpper(a: string, b: string)
    ensures EqualsIgnoreCase(a, b) <==> Upper(a) == Upper(b)
  {
    if Upper(a) == Upper(b) {
      assert |a| == |b|;
      forall i | 0 <= i < |a| ensures UpperChar(a[i]) == UpperChar(b[i]) {
        assert Upper(a)[i] == Upper(b)[i];
      }
    }
  }
}
