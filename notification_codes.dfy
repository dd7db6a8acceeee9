/** Codes read from notification text: one-time verification codes, parcel
    pick-up codes, and the random code generator used for test notifications. */
module NotificationCodes {
  import opened Wrappers
  import opened Text
  import opened Decimal

  // ---------------------------------------------------------------------
  // generateCode

  const DIGITS: string := "0123456789"

  /** `generateCode(length)`: `length` characters drawn from the ten digits;
      `pick(i)` stands for the random draw of the i-th character. */
  function GenerateCode(length: int, pick: nat -> nat): (r: string)
    ensures |r| == if length <= 0 then 0 else length
    ensures AllDigits(r)
    decreases if length <= 0 then 0 else length
  {
    if length <= 0 then ""
    else GenerateCode(length - 1, pick) + [DIGITS[pick(length - 1) % 10]]
  }

  /** Every digit string of the requested length is a possible code. */
  lemma {:induction false} EveryCodeReachable(code: string)
    requires AllDigits(code)
    ensures exists pick: nat -> nat :: GenerateCode(|code|, pick) == code
  {
    var pick: nat -> nat := (i: nat) => CodeDigit(code, i);
    ReachablePrefix(code, pick, |code|);
    assert code[..|code|] == code;
  }

  /** The value of the i-th digit of `code`, 0 past its end. */
  function CodeDigit(code: string, i: nat): nat
  {
    if i < |code| && IsDigit(code[i]) then DigitValue(code[i]) else 0
  }

  lemma {:induction false} ReachablePrefix(code: string, pick: nat -> nat, n: nat)
    requires AllDigits(code) && n <= |code|
    requires forall i: nat :: pick(i) == CodeDigit(code, i)
    ensures GenerateCode(n, pick) == code[..n]
  {
    if n > 0 {
      ReachablePrefix(code, pick, n - 1);
      DrawnDigit(code[n - 1]);
      assert code[..n] == code[..n - 1] + [code[n - 1]];
    }
  }

  /** Drawing a digit's own value gives that digit back. */
  lemma DrawnDigit(c: char)
    requires IsDigit(c)
    ensures DIGITS[DigitValue(c) % 10] == c
  {
  }

  // ---------------------------------------------------------------------
  // extractVerificationCode

  const VerificationKeywords: seq<string> :=
    ["验证码", "授权码", "随机码", "动态密码", "校验码", "内有效", "完成验证"]

  predicate HasVerificationKeyword(content: string)
  {
    exists i :: 0 <= i < |VerificationKeywords| && Contains(content, VerificationKeywords[i])
  }

  /** The texts the first pattern's look-behind accepts right before a code:
      "码" followed by nothing, a linking word or a colon. */
  const CodeLabels: seq<string> :=
    ["码", "码是", "码为", "码：", "码:", "码是：", "码是:", "码为：", "码为:"]

  predicate EndsWith(s: string, suffix: string)
  {
    |suffix| <= |s| && s[|s| - |suffix|..] == suffix
  }

  /** The alternation of `CodeLabels` spelled out character by character. */
  predicate LabelBefore(s: string, p: nat)
    requires p <= |s|
  {
    (p >= 1 && s[p - 1] == '码')
    || (p >= 2 && s[p - 2] == '码' && s[p - 1] in "是为：:")
    || (p >= 3 && s[p - 3] == '码' && s[p - 2] in "是为" && s[p - 1] in "：:")
  }

  /** `LabelBefore` holds exactly when the text before `p` ends with one of
      the labels. */
  lemma LabelBeforeIsLabelList(s: string, p: nat)
    requires p <= |s|
    ensures LabelBefore(s, p) <==> exists i :: 0 <= i < |CodeLabels| && EndsWith(s[..p], CodeLabels[i])
  {
    if LabelBefore(s, p) {
      LabelsCoverAlternation(s, p);
    }
    if exists i :: 0 <= i < |CodeLabels| && EndsWith(s[..p], CodeLabels[i]) {
      var i :| 0 <= i < |CodeLabels| && EndsWith(s[..p], CodeLabels[i]);
      AlternationCoversLabel(s, p, i);
    }
  }

  lemma LabelsCoverAlternation(s: string, p: nat)
    requires p <= |s| && LabelBefore(s, p)
    ensures exists i :: 0 <= i < |CodeLabels| && EndsWith(s[..p], CodeLabels[i])
  {
    var pre := s[..p];
    if p >= 1 && s[p - 1] == '码' {
      assert pre[p - 1..] == CodeLabels[0];
      assert EndsWith(pre, CodeLabels[0]);
    } else if p >= 2 && s[p - 2] == '码' && s[p - 1] in "是为：:" {
      assert pre[p - 2..] == [s[p - 2], s[p - 1]];
      var i := if s[p - 1] == '是' then 1 else if s[p - 1] == '为' then 2 else if s[p - 1] == '：' then 3 else 4;
      assert EndsWith(pre, CodeLabels[i]);
    } else {
      assert pre[p - 3..] == [s[p - 3], s[p - 2], s[p - 1]];
      var i := if s[p - 2] == '是' then (if s[p - 1] == '：' then 5 else 6) else (if s[p - 1] == '：' then 7 else 8);
      assert EndsWith(pre, CodeLabels[i]);
    }
  }

  lemma AlternationCoversLabel(s: string, p: nat, i: nat)
    requires p <= |s| && i < |CodeLabels| && EndsWith(s[..p], CodeLabels[i])
    ensures LabelBefore(s, p)
  {
    var lab := CodeLabels[i];
    var n := |lab|;
    forall k | 0 <= k < n ensures s[p - n + k] == lab[k] {
      assert s[..p][p - n..][k] == lab[k];
    }
    if i == 0 {
      assert s[p - 1] == '码';
    } else if i <= 4 {
      assert n == 2 && lab[0] == '码' && lab[1] in "是为：:";
      assert s[p - 2] == '码' && s[p - 1] in "是为：:";
    } else {
      assert n == 3 && lab[0] == '码' && lab[1] in "是为" && lab[2] in "：:";
      assert s[p - 3] == '码' && s[p - 2] in "是为" && s[p - 1] in "：:";
    }
  }

  /** The length of the run of ASCII digits starting at `p`. */
  function DigitRun(s: string, p: nat): (n: nat)
    requires p <= |s|
    ensures p + n <= |s|
    ensures forall i :: p <= i < p + n ==> IsDigit(s[i])
    ensures p + n == |s| || !IsDigit(s[p + n])
    decreases |s| - p
  {
    if p < |s| && IsDigit(s[p]) then 1 + DigitRun(s, p + 1) else 0
  }

  /** The two patterns tried in order: a code after a "码" label, and a
      stand-alone run of four to six digits with a non-digit on both sides. */
  datatype CodePattern = Labelled | Isolated

  /** Whether `pattern` matches at position `p` (regex `\d` is ASCII). The
      isolated pattern needs the whole run to be 4 to 6 digits long: for a
      longer run every greedy choice is followed by a digit. */
  predicate MatchAt(pattern: CodePattern, s: string, p: nat)
    requires p <= |s|
  {
    match pattern
    case Labelled => LabelBefore(s, p) && DigitRun(s, p) >= 4
    case Isolated => p >= 1 && !IsDigit(s[p - 1]) && 4 <= DigitRun(s, p) <= 6 && p + DigitRun(s, p) < |s|
  }

  /** The matched text: greedy, at most six digits. */
  function MatchText(pattern: CodePattern, s: string, p: nat): (code: string)
    requires p <= |s| && MatchAt(pattern, s, p)
    ensures 4 <= |code| <= 6 && AllDigits(code)
    ensures p + |code| <= |s| && s[p..p + |code|] == code
  {
    var n := DigitRun(s, p);
    s[p..p + (if n < 6 then n else 6)]
  }

  /** Where `matcher.find()` from `from` matches: the leftmost position. */
  function FirstMatch(pattern: CodePattern, s: string, from: nat): (r: Option<nat>)
    requires from <= |s|
    ensures r.None? <==> forall p :: from <= p <= |s| ==> !MatchAt(pattern, s, p)
    ensures r.Some? ==> (from <= r.value <= |s| && MatchAt(pattern, s, r.value)
      && forall q :: from <= q < r.value ==> !MatchAt(pattern, s, q))
    decreases |s| - from
  {
    if MatchAt(pattern, s, from) then Some(from)
    else if from == |s| then None
    else FirstMatch(pattern, s, from + 1)
  }

  /** `matcher.find()` and `group(0)`: the text of the leftmost match. */
  function Find(pattern: CodePattern, s: string): (r: Option<string>)
  {
    match FirstMatch(pattern, s, 0)
    case Some(p) => Some(MatchText(pattern, s, p))
    case None => None
  }

  /** What `extractVerificationCode` returns for `content`. */
  function VerificationCode(content: string): (bool, Option<string>)
  {
    if !HasVerificationKeyword(content) then (false, None)
    else
      var clean := ReplaceAll(content, " ", "");
      match Find(Labelled, clean)
      case Some(code) => (true, Some(code))
      case None =>
        match Find(Isolated, clean)
        case Some(code) => (true, Some(code))
        case None => (false, None)
  }

  /** `extractVerificationCode`: the keyword test, then the patterns in order
      on the text with spaces removed; the first pattern that matches wins. */
  method ExtractVerificationCode(content: string) returns (found: bool, code: Option<string>)
    ensures (found, code) == VerificationCode(content)
  {
    if !HasVerificationKeyword(content) {
      return false, None;
    }
    var clean := ReplaceAll(content, " ", "");
    var patterns := [Labelled, Isolated];
    for k := 0 to |patterns|
      invariant k >= 1 ==> Find(Labelled, clean).None?
      invariant k >= 2 ==> Find(Isolated, clean).None?
    {
      var m := Find(patterns[k], clean);
      if m.Some? {
        assert k == 1 ==> Find(Labelled, clean).None?;
        return true, m;
      }
    }
    return false, None;
  }

  /** Without a keyword nothing is extracted; a code, when found, is four to
      six ASCII digits taken from the content with its spaces removed. */
  lemma VerificationCodeShape(content: string)
    ensures !HasVerificationKeyword(content) ==> VerificationCode(content) == (false, None)
    ensures VerificationCode(content).0 <==> VerificationCode(content).1.Some?
    ensures VerificationCode(content).1.Some? ==>
      var code := VerificationCode(content).1.value;
      4 <= |code| <= 6 && AllDigits(code) && Contains(Without(content, ' '), code)
  {
    var clean := ReplaceAll(content, " ", "");
    RemoveCharIsWithout(content, ' ');
    if HasVerificationKeyword(content) {
      var p1 := FirstMatch(Labelled, clean, 0);
      if p1.Some? {
        ContainsAt(clean, MatchText(Labelled, clean, p1.value), p1.value);
      } else {
        var p2 := FirstMatch(Isolated, clean, 0);
        if p2.Some? {
          ContainsAt(clean, MatchText(Isolated, clean, p2.value), p2.value);
        }
      }
    }
  }

  /** A labelled code wins over any stand-alone digits, even later ones. */
  lemma LabelledCodeWins(content: string, p: nat)
    requires HasVerificationKeyword(content)
    requires p <= |ReplaceAll(content, " ", "")| && MatchAt(Labelled, ReplaceAll(content, " ", ""), p)
    ensures VerificationCode(content) == (true, Find(Labelled, ReplaceAll(content, " ", "")))
    ensures VerificationCode(content).1.Some?
  {
  }

  const SampleMessage := "验证码为123456。"

  lemma SampleMatchesAtFour()
    ensures FirstMatch(Labelled, SampleMessage, 0) == Some(4)
    ensures DigitRun(SampleMessage, 4) == 6
  {
    assert EndsWith(SampleMessage[..4], CodeLabels[2]);
    AlternationCoversLabel(SampleMessage, 4, 2);
    assert DigitRun(SampleMessage, 10) == 0;
    forall q | 0 <= q < 4 ensures !MatchAt(Labelled, SampleMessage, q) {
      assert DigitRun(SampleMessage, q) == 0;
    }
  }

  lemma SampleHasKeyword()
    ensures HasVerificationKeyword(SampleMessage)
  {
    assert SampleMessage[0..3] == VerificationKeywords[0];
    ContainsAt(SampleMessage, VerificationKeywords[0], 0);
  }

  lemma SampleHasNoSpace()
    ensures ReplaceAll(SampleMessage, " ", "") == SampleMessage
  {
    ContainsChar(SampleMessage, ' ');
    ReplaceAbsent(SampleMessage, " ", "");
  }

  /** A sample: "验证码为123456。" yields 123456. */
  lemma SampleVerificationCode()
    ensures VerificationCode(SampleMessage) == (true, Some("123456"))
  {
    SampleHasKeyword();
    SampleHasNoSpace();
    SampleMatchesAtFour();
    SampleCode();
  }

  lemma SampleCode()
    ensures SampleMessage[4..10] == "123456"
  {
    var d := SampleMessage[4..10];
    assert d[0] == '1' && d[1] == '2' && d[2] == '3' && d[3] == '4' && d[4] == '5' && d[5] == '6';
  }

  // ---------------------------------------------------------------------
  // findPackageCode / extractPackageCode

  /** `n` ASCII digits start at `p`. */
  predicate DigitWindow(s: string, p: nat, n: nat)
  {
    p + n <= |s| && forall i :: p <= i < p + n ==> IsDigit(s[i])
  }

  /** The first match of `[0-9]{n}` at or after `from`. */
  function FirstWindow(s: string, n: nat, from: nat): (r: Option<nat>)
    requires from <= |s|
    ensures r.None? <==> forall p :: from <= p <= |s| ==> !DigitWindow(s, p, n)
    ensures r.Some? ==> (from <= r.value <= |s| && DigitWindow(s, r.value, n)
      && forall q :: from <= q < r.value ==> !DigitWindow(s, q, n))
    decreases |s| - from
  {
    if DigitWindow(s, from, n) then Some(from)
    else if from == |s| then None
    else FirstWindow(s, n, from + 1)
  }

  /** `findPackageCode`: the first eight-digit match, else the first six-digit
      match, else null. */
  function FindPackageCode(content: string): (r: Option<string>)
    ensures r.Some? ==> AllDigits(r.value) && (|r.value| == 8 || |r.value| == 6)
  {
    match FirstWindow(content, 8, 0)
    case Some(p) => Some(content[p..p + 8])
    case None =>
      match FirstWindow(content, 6, 0)
      case Some(p) => Some(content[p..p + 6])
      case None => None
  }

  /** A parcel code is found exactly when six consecutive digits occur; eight
      digits are preferred, and the code is the leftmost eight-digit run, or the
      leftmost six-digit run when there is no eight-digit one. */
  lemma PackageCodeFound(content: string)
    ensures FindPackageCode(content).Some? <==> exists p :: 0 <= p <= |content| && DigitWindow(content, p, 6)
    ensures (exists p :: 0 <= p <= |content| && DigitWindow(content, p, 8)) ==>
      FindPackageCode(content) == Some(content[FirstWindow(content, 8, 0).value..FirstWindow(content, 8, 0).value + 8])
    ensures (!(exists p :: 0 <= p <= |content| && DigitWindow(content, p, 8))
             && (exists p :: 0 <= p <= |content| && DigitWindow(content, p, 6))) ==>
      FindPackageCode(content) == Some(content[FirstWindow(content, 6, 0).value..FirstWindow(content, 6, 0).value + 6])
  {
    var w8 := FirstWindow(content, 8, 0);
    if w8.Some? {
      assert DigitWindow(content, w8.value, 6);
    }
  }

  /** The pick-up code record; the defaults are those of the constructor. */
  datatype PackageCodeResult = PackageCodeResult(found: bool, code: Option<string>, codeType: string,
                                                 content: string, pendingIntent: Option<nat>)

  const DefaultCodeType := "快递取件码"
  const NotFound := PackageCodeResult(false, None, DefaultCodeType, "", None)

  predicate HasPickupKeyword(content: string)
  {
    Contains(content, "取件码") || Contains(content, "取件碼")
  }

  /** The locker brand named in the message. */
  function CodeType(content: string): string
  {
    if Contains(content, "菜鸟智能柜") || Contains(content, "菜鳥智能櫃") then "菜鸟取件码"
    else if Contains(content, "丰巢") || Contains(content, "豐巢") then "丰巢取件码"
    else DefaultCodeType
  }

  /** `extractPackageCode`: requires a pick-up keyword and a code; the
      pending intent is an opaque reference. */
  function ExtractPackageCode(content: string, pendingIntent: Option<nat>): (r: PackageCodeResult)
    ensures r.found <==> HasPickupKeyword(content) && FindPackageCode(content).Some?
    ensures !r.found ==> r == NotFound
    ensures r.found ==> (r.code == FindPackageCode(content) && r.content == content
      && r.pendingIntent == pendingIntent && r.codeType == CodeType(content))
  {
    if !HasPickupKeyword(content) then NotFound
    else
      match FindPackageCode(content)
      case Some(code) => PackageCodeResult(true, Some(code), CodeType(content), content, pendingIntent)
      case None => NotFound
  }

  /** A Cainiao locker wins over a Hive Box mention; the type is one of three. */
  lemma CodeTypeChoice(content: string)
    ensures CodeType(content) in {"菜鸟取件码", "丰巢取件码", DefaultCodeType}
    ensures Contains(content, "菜鸟智能柜") ==> CodeType(content) == "菜鸟取件码"
    ensures !Contains(content, "菜鸟智能柜") && !Contains(content, "菜鳥智能櫃") && Contains(content, "丰巢") ==>
      CodeType(content) == "丰巢取件码"
  {
  }
}
