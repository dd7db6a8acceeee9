/** Keep-alive helpers: dotted version comparison, the rules that hide or
    remove the app's tasks from the recents screen, and the choice of the
    zero-pixel keep-alive window. */
module AliveUtils {
  import opened Wrappers
  import opened Text
  import Decimal

  // ---------------------------------------------------------------------
  // compareVersions

  /** `toInt()` threw on this component. */
  datatype VersionError = NotANumber(part: string)

  /** The components of a version: split on '.', then trailing empty
      components dropped (`dropLastWhile { it.isEmpty() }`). */
  function Parts(v: string): seq<string>
  {
    DropTrailingEmpty(Split(v, '.'))
  }

  function DropTrailingEmpty(ps: seq<string>): (r: seq<string>)
    ensures |r| <= |ps| && r == ps[..|r|]
    ensures |r| > 0 ==> r[|r| - 1] != ""
    ensures forall k :: |r| <= k < |ps| ==> ps[k] == ""
  {
    if |ps| > 0 && ps[|ps| - 1] == "" then DropTrailingEmpty(ps[..|ps| - 1]) else ps
  }

  /** Component `i` as an `Int`; a missing component counts as 0. */
  function Component(parts: seq<string>, i: nat): Result<int, VersionError>
  {
    if i < |parts| then
      match Decimal.ToIntOrNull(parts[i])
      case Some(n) => Success(n)
      case None => Failure(NotANumber(parts[i]))
    else Success(0)
  }

  function Max(a: nat, b: nat): nat { if a < b then b else a }

  /** The comparison from component `i` on: the sign of the first difference,
      0 if there is none; the component of the first version is parsed before
      that of the second, and a parse failure escapes. */
  function CompareFrom(p1: seq<string>, p2: seq<string>, i: nat): (r: Result<int, VersionError>)
    ensures r.Success? ==> -1 <= r.value <= 1
    decreases Max(|p1|, |p2|) - i
  {
    if i >= Max(|p1|, |p2|) then Success(0)
    else match Component(p1, i)
      case Failure(e) => Failure(e)
      case Success(a) =>
        match Component(p2, i)
        case Failure(e) => Failure(e)
        case Success(b) =>
          if a != b then Success(if a < b then -1 else 1) else CompareFrom(p1, p2, i + 1)
  }

  /** `compareVersions(v1, v2)` as a function. */
  function VersionOrder(v1: string, v2: string): Result<int, VersionError>
  {
    CompareFrom(Parts(v1), Parts(v2), 0)
  }

  /** `compareVersions`: walks the components up to the longer length. */
  method CompareVersions(v1: string, v2: string) returns (r: Result<int, VersionError>)
    ensures r == VersionOrder(v1, v2)
  {
    r := CompareParts(Parts(v1), Parts(v2));
  }

  /** The loop of `compareVersions` over the two component lists. */
  method CompareParts(parts1: seq<string>, parts2: seq<string>) returns (r: Result<int, VersionError>)
    ensures r == CompareFrom(parts1, parts2, 0)
  {
    var maxLength := Max(|parts1|, |parts2|);
    var i := 0;
    while i < maxLength
      invariant 0 <= i <= maxLength
      invariant CompareFrom(parts1, parts2, 0) == CompareFrom(parts1, parts2, i)
    {
      var num1 := 0;
      if i < |parts1| {
        var n := Decimal.ToIntOrNull(parts1[i]);
        if n.None? {
          return Failure(NotANumber(parts1[i]));
        }
        num1 := n.value;
      }
      assert Component(parts1, i) == Success(num1);
      var num2 := 0;
      if i < |parts2| {
        var n := Decimal.ToIntOrNull(parts2[i]);
        if n.None? {
          return Failure(NotANumber(parts2[i]));
        }
        num2 := n.value;
      }
      assert Component(parts2, i) == Success(num2);
      if num1 != num2 {
        return Success(if num1 < num2 then -1 else 1);
      }
      assert CompareFrom(parts1, parts2, i) == CompareFrom(parts1, parts2, i + 1);
      i := i + 1;
    }
    return Success(0);
  }

  /** Swapping the arguments negates the result, and fails exactly when the
      original fails. */
  lemma {:induction false} CompareFromAntisymmetric(p1: seq<string>, p2: seq<string>, i: nat)
    ensures CompareFrom(p1, p2, i).Failure? <==> CompareFrom(p2, p1, i).Failure?
    ensures CompareFrom(p1, p2, i).Success? ==>
      CompareFrom(p2, p1, i) == Success(-CompareFrom(p1, p2, i).value)
    decreases Max(|p1|, |p2|) - i
  {
    if i < Max(|p1|, |p2|) {
      CompareFromAntisymmetric(p1, p2, i + 1);
    }
  }

  lemma VersionOrderAntisymmetric(v1: string, v2: string)
    ensures VersionOrder(v1, v2).Failure? <==> VersionOrder(v2, v1).Failure?
    ensures VersionOrder(v1, v2).Success? ==> VersionOrder(v2, v1) == Success(-VersionOrder(v1, v2).value)
  {
    var p1, p2 := Parts(v1), Parts(v2);
    CompareFromAntisymmetric(p1, p2, 0);
    assert VersionOrder(v1, v2) == CompareFrom(p1, p2, 0);
    assert VersionOrder(v2, v1) == CompareFrom(p2, p1, 0);
  }

  /** A version compares equal to itself unless one of its components is not a
      number, in which case the comparison throws. */
  lemma {:induction false} CompareFromReflexive(p: seq<string>, i: nat)
    ensures CompareFrom(p, p, i) == Success(0) <==>
      forall k :: i <= k < |p| ==> Decimal.ToIntOrNull(p[k]).Some?
    ensures CompareFrom(p, p, i).Failure? <==>
      exists k :: i <= k < |p| && Decimal.ToIntOrNull(p[k]).None?
    decreases |p| - i
  {
    if i < |p| {
      CompareFromReflexive(p, i + 1);
    }
  }

  lemma VersionOrderReflexive(v: string)
    ensures VersionOrder(v, v) == Success(0) <==>
      forall k :: 0 <= k < |Parts(v)| ==> Decimal.ToIntOrNull(Parts(v)[k]).Some?
    ensures VersionOrder(v, v).Failure? <==>
      exists k :: 0 <= k < |Parts(v)| && Decimal.ToIntOrNull(Parts(v)[k]).None?
  {
    CompareFromReflexive(Parts(v), 0);
  }

  /** A trailing '.' adds only an empty component, which is dropped. */
  lemma TrailingDotIgnored(v: string)
    ensures Parts(v + ".") == Parts(v)
  {
    SplitTrailing(v, '.');
  }

  /** The parts of the three sample versions used below. */
  lemma SampleParts()
    ensures Parts("1") == ["1"] && Parts("1.0") == ["1", "0"] && Parts("1.0.1") == ["1", "0", "1"]
    ensures Decimal.ToIntOrNull("1") == Some(1) && Decimal.ToIntOrNull("0") == Some(0)
  {
    SplitOnePart();
    SplitTwoParts();
    SplitThreeParts();
    Decimal.ParsePrinted(1, -0x8000_0000, 0x7fff_ffff);
    Decimal.ParsePrinted(0, -0x8000_0000, 0x7fff_ffff);
  }

  lemma SplitOnePart()
    ensures Split("1", '.') == ["1"]
  {
    SplitFreeHead("1", "", '.');
  }

  lemma SplitTwoParts()
    ensures Split("1.0", '.') == ["1", "0"]
  {
    SplitFreeHead("1", "0", '.');
    SplitFreeHead("0", "", '.');
  }

  lemma SplitThreeParts()
    ensures Split("1.0.1", '.') == ["1", "0", "1"]
  {
    SplitFreeHead("0", "1", '.');
    SplitFreeHead("1", "", '.');
    assert Split("0.1", '.') == ["0", "1"];
    SplitFreeHead("1", "0.1", '.');
  }

  /** Missing components count as zero: "1.0" equals "1", and "1.0.1" is
      after "1". */
  lemma MissingComponentsAreZero()
    ensures VersionOrder("1.0", "1") == Success(0)
    ensures VersionOrder("1.0.1", "1") == Success(1)
  {
    SampleParts();
    assert CompareFrom(["1", "0"], ["1"], 1) == Success(0);
    assert CompareFrom(["1", "0", "1"], ["1"], 1) == Success(1);
  }

  // ---------------------------------------------------------------------
  // setExcludeFromRecents / setExcludeFromRecentsPlus

  /** One of the app's tasks: the class names of its base and top activities
      (null when the task info is missing), whether it is excluded from the
      recents screen, and whether it has been finished and removed. */
  datatype AppTask = AppTask(base: Option<string>, top: Option<string>, excluded: bool, removed: bool)

  /** What `setExcludeFromRecents` does to one task. */
  datatype Verdict = Hide | Unhide | Leave

  /** `TextUtils.isEmpty`: null or "". */
  predicate IsEmpty(name: Option<string>) { name.None? || name.value == "" }

  predicate LaunchLike(name: string)
  {
    Contains(name, ".LaunchActivity") || Contains(name, ".SplashADActivity")
  }

  /** The per-task rule of `setExcludeFromRecents`. */
  function ExcludeVerdict(exclude: bool, list: seq<string>, base: Option<string>, top: Option<string>): Verdict
  {
    if exclude then Hide
    else if IsEmpty(base) || IsEmpty(top) then Hide
    else if base.value in list || top.value in list then Hide
    else if |list| == 0 then (if LaunchLike(base.value) || LaunchLike(top.value) then Hide else Leave)
    else Unhide
  }

  function Apply(t: AppTask, v: Verdict): AppTask
  {
    match v
    case Hide => t.(excluded := true)
    case Unhide => t.(excluded := false)
    case Leave => t
  }

  /** `setExcludeFromRecents(exclude, list)`: nothing without an application
      context or below API 24; otherwise every task gets its verdict. */
  method SetExcludeFromRecents(tasks: array<AppTask>, exclude: bool, list: seq<string>,
                               hasContext: bool, sdk: int)
    modifies tasks
    ensures !hasContext || sdk < 24 ==> tasks[..] == old(tasks[..])
    ensures hasContext && sdk >= 24 ==> forall i :: 0 <= i < tasks.Length ==>
      tasks[i] == Apply(old(tasks[i]), ExcludeVerdict(exclude, list, old(tasks[i]).base, old(tasks[i]).top))
  {
    if !hasContext || sdk < 24 {
      return;
    }
    var i := 0;
    while i < tasks.Length
      invariant 0 <= i <= tasks.Length
      invariant forall k :: 0 <= k < i ==>
        tasks[k] == Apply(old(tasks[k]), ExcludeVerdict(exclude, list, old(tasks[k]).base, old(tasks[k]).top))
      invariant forall k :: i <= k < tasks.Length ==> tasks[k] == old(tasks[k])
    {
      var t := tasks[i];
      tasks[i] := Apply(t, ExcludeVerdict(exclude, list, t.base, t.top));
      i := i + 1;
    }
  }

  /** The per-task rule of `setExcludeFromRecentsPlus`: true when the task is
      finished and removed. */
  function RemoveVerdict(exclude: bool, list: seq<string>, base: Option<string>, top: Option<string>): bool
  {
    if exclude then true
    else if IsEmpty(base) || IsEmpty(top) then true
    else if base.value in list || top.value in list then true
    else if |list| == 0 then LaunchLike(base.value) || LaunchLike(top.value)
    else false
  }

  /** `setExcludeFromRecentsPlus(exclude, list)`: nothing without an
      application context; otherwise every task whose verdict says so is
      finished and removed. */
  method SetExcludeFromRecentsPlus(tasks: array<AppTask>, exclude: bool, list: seq<string>, hasContext: bool)
    modifies tasks
    ensures !hasContext ==> tasks[..] == old(tasks[..])
    ensures hasContext ==> forall i :: 0 <= i < tasks.Length ==>
      tasks[i] == if RemoveVerdict(exclude, list, old(tasks[i]).base, old(tasks[i]).top)
                  then old(tasks[i]).(removed := true) else old(tasks[i])
  {
    if !hasContext {
      return;
    }
    var i := 0;
    while i < tasks.Length
      invariant 0 <= i <= tasks.Length
      invariant forall k :: 0 <= k < i ==>
        tasks[k] == if RemoveVerdict(exclude, list, old(tasks[k]).base, old(tasks[k]).top)
                    then old(tasks[k]).(removed := true) else old(tasks[k])
      invariant forall k :: i <= k < tasks.Length ==> tasks[k] == old(tasks[k])
    {
      var t := tasks[i];
      if RemoveVerdict(exclude, list, t.base, t.top) {
        tasks[i] := t.(removed := true);
      }
      i := i + 1;
    }
  }

  /** With exclude=false a task is hidden exactly when a name is empty, a name
      is listed, or the list is empty and a name is a launch or splash
      activity; it is shown again exactly when the list is non-empty and
      neither name is listed. */
  lemma ExcludeFalseRules(list: seq<string>, base: Option<string>, top: Option<string>)
    ensures ExcludeVerdict(false, list, base, top) == Hide <==>
      IsEmpty(base) || IsEmpty(top) || base.value in list || top.value in list
      || (|list| == 0 && (LaunchLike(base.value) || LaunchLike(top.value)))
    ensures ExcludeVerdict(false, list, base, top) == Unhide <==>
      !IsEmpty(base) && !IsEmpty(top) && |list| > 0 && base.value !in list && top.value !in list
  {
  }

  /** With exclude=true every task is hidden, whatever the list says. */
  lemma ExcludeTrueHidesAll(list: seq<string>, base: Option<string>, top: Option<string>)
    ensures ExcludeVerdict(true, list, base, top) == Hide
    ensures RemoveVerdict(true, list, base, top)
  {
  }

  /** The "Plus" variant removes exactly the tasks the plain variant hides, and
      leaves alone those the plain variant would show again. */
  lemma PlusRemovesWhatIsHidden(exclude: bool, list: seq<string>, base: Option<string>, top: Option<string>)
    ensures RemoveVerdict(exclude, list, base, top) <==> ExcludeVerdict(exclude, list, base, top) == Hide
  {
  }

  // ---------------------------------------------------------------------
  // show0Pixl

  /** `show0Pixl`: the zero-pixel window is used when the accessibility
      service is running, or else when the overlay permission is granted. */
  function Show0Pixel(hasAccessibilityService: bool, hasOverlayPermission: bool): (show: bool)
    ensures show <==> hasAccessibilityService || hasOverlayPermission
    ensures !hasAccessibilityService ==> show == hasOverlayPermission
  {
    if !hasAccessibilityService then (if !hasOverlayPermission then false else true) else true
  }
}
