/** `Long.formatTime()`, in both copies (`ext.task` and `auto.wx.ktx`): an
    elapsed time in milliseconds shown as minutes and seconds. */
module FormatTime {
  import opened Jvm
  import opened Decimal
  import opened Text

  /** `(this / 1000 / 60 % 60).toInt()`, with Kotlin's truncating `/` and `%`. */
  function Minutes(ms: int): int { Rem(Quot(Quot(ms, 1000), 60), 60) }

  /** `(this / 1000 % 60).toInt()`. */
  function Seconds(ms: int): int { Rem(Quot(ms, 1000), 60) }

  /** "{m}分{s}秒", without zero padding (both branches of each `if` in
      `formatTime()` print the plain number). */
  function Render(m: int, s: int): string
  {
    var minutes := if m < 10 then IntToString(m) else IntToString(m);
    var seconds := if s < 10 then IntToString(s) else IntToString(s);
    minutes + "分" + seconds + "秒"
  }

  /** `formatTime()`. */
  function FormatTime(ms: int): string
    requires IsLong(ms)
  {
    Render(Minutes(ms), Seconds(ms))
  }

  /** The rendered text gives both numbers back. */
  lemma RenderInjective(m1: int, s1: int, m2: int, s2: int)
    requires Render(m1, s1) == Render(m2, s2)
    ensures m1 == m2 && s1 == s2
  {
    var xa, ya := IntToString(m1), IntToString(s1);
    var xb, yb := IntToString(m2), IntToString(s2);
    PrintedAvoids(m1, '分');
    PrintedAvoids(m2, '分');
    var t := Render(m1, s1);
    assert t == xa + ['分'] + (ya + "秒");
    assert t == xb + ['分'] + (yb + "秒");
    SplitFreeHead(xa, ya + "秒", '分');
    SplitFreeHead(xb, yb + "秒", '分');
    assert Split(t, '分')[0] == xa;
    assert Split(t, '分')[0] == xb;
    PrintInjective(m1, m2);
    assert t[|xa| + 1..] == ya + "秒";
    assert t[|xb| + 1..] == yb + "秒";
    assert ya == (ya + "秒")[..|ya|];
    assert yb == (yb + "秒")[..|yb|];
    PrintInjective(s1, s2);
  }

  /** For a non-negative time both fields lie in 0..59. */
  lemma FieldsInRange(ms: int)
    requires ms >= 0
    ensures 0 <= Minutes(ms) <= 59 && 0 <= Seconds(ms) <= 59
  {
  }

  /** For a non-negative time the fields are the minute and second of the
      whole second `ms / 1000` within its hour. */
  lemma {:induction false} FieldsOfSecond(ms: int)
    requires ms >= 0
    ensures Minutes(ms) == ((ms / 1000) / 60) % 60 && Seconds(ms) == (ms / 1000) % 60
  {
    var q := Quot(ms, 1000);
    assert q == ms / 1000 && q >= 0;
    assert Quot(q, 60) == q / 60;
  }

  /** Whole hours are dropped: the text repeats every hour. */
  lemma HoursDropped(ms: int)
    requires ms >= 0 && IsLong(ms + 3600000)
    ensures FormatTime(ms + 3600000) == FormatTime(ms)
  {
    var later := ms + 3600000;
    FieldsOfSecond(ms);
    FieldsOfSecond(later);
    ShiftSecond(ms);
    NextHour(ms / 1000);
    assert Minutes(later) == Minutes(ms);
    assert Seconds(later) == Seconds(ms);
  }

  lemma ShiftSecond(ms: nat)
    ensures (ms + 3600000) / 1000 == ms / 1000 + 3600
  {
    var q, r := ms / 1000, ms % 1000;
    assert ms == 1000 * q + r;
    assert ms + 3600000 == 1000 * (q + 3600) + r;
  }

  lemma NextHour(q: nat)
    ensures ((q + 3600) / 60) % 60 == (q / 60) % 60 && (q + 3600) % 60 == q % 60
  {
    assert (q + 3600) / 60 == q / 60 + 60;
  }

  /** The text determines both fields: equal texts mean equal minutes and
      equal seconds, and conversely. */
  lemma FormatTimeDetermines(a: int, b: int)
    requires IsLong(a) && IsLong(b)
    ensures FormatTime(a) == FormatTime(b) <==> Minutes(a) == Minutes(b) && Seconds(a) == Seconds(b)
  {
    if FormatTime(a) == FormatTime(b) {
      RenderInjective(Minutes(a), Seconds(a), Minutes(b), Seconds(b));
    }
  }

  /** For non-negative times the text names the whole second within the
      hour: two times format alike exactly when they agree there. */
  lemma SameTextSameSecondOfHour(a: int, b: int)
    requires 0 <= a && 0 <= b && IsLong(a) && IsLong(b)
    ensures FormatTime(a) == FormatTime(b) <==> (a / 1000) % 3600 == (b / 1000) % 3600
  {
    FormatTimeDetermines(a, b);
    FieldsOfSecond(a);
    FieldsOfSecond(b);
    SecondOfHour(a / 1000);
    SecondOfHour(b / 1000);
  }

  lemma SecondOfHour(q: nat)
    ensures q % 3600 == 60 * ((q / 60) % 60) + q % 60
    ensures 0 <= (q / 60) % 60 < 60 && 0 <= q % 60 < 60
  {
    var h := q / 3600;
    var r := q % 3600;
    assert q == 3600 * h + r;
    assert q / 60 == 60 * h + r / 60;
    assert q % 60 == r % 60;
    assert (q / 60) % 60 == r / 60;
  }
}
