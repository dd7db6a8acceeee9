/** `FormatExt` (`ext`): turning a possibly-null text into a display string,
    optionally keeping only CJK ideographs and visible ASCII. */
module FormatExt {
  import opened Wrappers
  import opened Text

  /** A character the filter keeps: U+4E00..U+9FFF or '!'..'~'. */
  predicate Allowed(c: char)
  {
    ('一' <= c <= '鿿') || ('!' <= c <= '~')
  }

  /** `replace(Regex("[^一-鿿!-~]"), "")`: the allowed
      characters, in order. */
  function FilterAllowed(s: string): (r: string)
    ensures |r| <= |s|
    ensures forall i :: 0 <= i < |r| ==> Allowed(r[i])
    ensures forall c :: c in r <==> c in s && Allowed(c)
  {
    if |s| == 0 then ""
    else (if Allowed(s[0]) then [s[0]] else "") + FilterAllowed(s[1..])
  }

  /** A string of allowed characters passes the filter unchanged. */
  lemma {:induction false} FilterKeepsAllowed(s: string)
    requires forall i :: 0 <= i < |s| ==> Allowed(s[i])
    ensures FilterAllowed(s) == s
  {
    if |s| > 0 {
      FilterKeepsAllowed(s[1..]);
    }
  }

  /** Filtering twice is filtering once. */
  lemma FilterIdempotent(s: string)
    ensures FilterAllowed(FilterAllowed(s)) == FilterAllowed(s)
  {
    FilterKeepsAllowed(FilterAllowed(s));
  }

  /** `CharSequence?.default(default, filter)`: a null or blank text gives
      `default`. */
  function DefaultCharSequence(text: Option<string>, default: string, filter: bool): (r: string)
    ensures filter ==> forall i :: 0 <= i < |r| ==> Allowed(r[i])
  {
    var origin := if text.None? || IsBlank(text.value) then default else text.value;
    if filter then FilterAllowed(origin) else origin
  }

  /** `String?.default(default, filter)`: only null gives `default`; a
      blank string is kept. */
  function DefaultString(text: Option<string>, default: string, filter: bool): (r: string)
    ensures filter ==> forall i :: 0 <= i < |r| ==> Allowed(r[i])
  {
    var origin := text.GetOr(default);
    if filter then FilterAllowed(origin) else origin
  }

  /** The two overloads differ exactly on blank non-null text: the
      `CharSequence` one falls back to the default, the `String` one keeps
      the text. */
  lemma OverloadsOnText(s: string, default: string, filter: bool)
    ensures DefaultString(Some(s), default, filter) == (if filter then FilterAllowed(s) else s)
    ensures DefaultCharSequence(Some(s), default, filter)
      == (if IsBlank(s) then DefaultString(None, default, filter) else DefaultString(Some(s), default, filter))
  {
  }

  /** The filter removes every space and every whitespace character. */
  lemma FilterRemovesSpaces(s: string)
    ensures forall i :: 0 <= i < |FilterAllowed(s)| ==> !IsWhitespace(FilterAllowed(s)[i])
  {
  }
}
