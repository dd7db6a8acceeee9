/** `KeyguardUnLock`: reading the keyguard state, choosing the view id of the
    PIN-pad digit buttons, and typing a password one digit at a time. */
module KeyguardUnLock {
  import opened Wrappers
  import opened Text
  import opened Nodes

  /** `DeviceLockState`. */
  datatype DeviceLockState = Unlocked(isDeviceSecure: bool) | LockedNotSecure | LockedSecure

  /** The three flags `KeyguardManager` reports. */
  datatype KeyguardFlags = KeyguardFlags(isDeviceSecure: bool, isDeviceLocked: bool, isKeyguardLocked: bool)

  /** `getDeviceLockState(byKeyguard)`, with `km` None when the system
      service is missing: the locked flag is `isKeyguardLocked` or, when
      `byKeyguard` is false, `isDeviceLocked`. */
  function GetDeviceLockState(km: Option<KeyguardFlags>, byKeyguard: bool): (r: DeviceLockState)
    ensures km.None? ==> r == Unlocked(false)
  {
    match km
    case None => Unlocked(false)
    case Some(f) =>
      var deviceSecure := f.isDeviceSecure;
      var deviceLocked := if !byKeyguard then f.isDeviceLocked else f.isKeyguardLocked;
      if !deviceLocked then Unlocked(deviceSecure)
      else if !deviceSecure then LockedNotSecure
      else LockedSecure
  }

  /** The locked flag `getDeviceLockState` consults. */
  function LockedFlag(f: KeyguardFlags, byKeyguard: bool): bool
  {
    if byKeyguard then f.isKeyguardLocked else f.isDeviceLocked
  }

  /** The reported state is "unlocked" exactly when the consulted flag says
      so, and it always carries the secure flag: the state and the two flags
      determine each other. */
  lemma LockStateFaithful(f: KeyguardFlags, g: KeyguardFlags, byKeyguard: bool)
    ensures GetDeviceLockState(Some(f), byKeyguard).Unlocked? <==> !LockedFlag(f, byKeyguard)
    ensures GetDeviceLockState(Some(f), byKeyguard) == GetDeviceLockState(Some(g), byKeyguard) <==>
      (LockedFlag(f, byKeyguard) == LockedFlag(g, byKeyguard) && f.isDeviceSecure == g.isDeviceSecure)
  {
  }

  /** `keyguardIsOn`: true when the keyguard is not locked. */
  function KeyguardIsOn(f: KeyguardFlags): bool { !f.isKeyguardLocked }

  /** `deviceIsOn`: true when the device is not locked. */
  function DeviceIsOn(f: KeyguardFlags): bool { !f.isDeviceLocked }

  /** The two "is on" checks are the "unlocked" answers of
      `getDeviceLockState` by keyguard and by device respectively. */
  lemma IsOnAgreesWithLockState(f: KeyguardFlags)
    ensures KeyguardIsOn(f) <==> GetDeviceLockState(Some(f), true).Unlocked?
    ensures DeviceIsOn(f) <==> GetDeviceLockState(Some(f), false).Unlocked?
  {
  }

  const SYSTEMUI_ID_PREFIX := "com.android.systemui:id/"

  /** `getLockID()` for the device brand: the SystemUI digit id, with a
      vendor-specific name for OPPO, IQOO and VIVO. */
  function GetLockID(brand: string): (id: string)
    ensures StartsWith(id, SYSTEMUI_ID_PREFIX)
  {
    var b := Upper(brand);
    var suffix :=
      if b == "XIAOMI" || b == "MIUI" then "digit_text"
      else if b == "OPPO" then "oppo_digit_text"
      else if b == "IQOO" then "iqoo_digit_text"
      else if b == "VIVO" then "vivo_digit_text"
      else "digit_text";
    assert (SYSTEMUI_ID_PREFIX + suffix)[..|SYSTEMUI_ID_PREFIX|] == SYSTEMUI_ID_PREFIX;
    SYSTEMUI_ID_PREFIX + suffix
  }

  /** Only OPPO, IQOO and VIVO (in any letter case) get their own id; every
      other brand, known or not, gets the plain `digit_text`. */
  lemma LockIDChoices(brand: string)
    ensures GetLockID(brand) == SYSTEMUI_ID_PREFIX + "digit_text"
      <==> Upper(brand) != "OPPO" && Upper(brand) != "IQOO" && Upper(brand) != "VIVO"
  {
  }

  /** `findLockView`'s test: the class name mentions text, button or chip
      and the view id mentions "id" and digit or number (ignoring case). */
  predicate IsLockView(n: Node)
  {
    var cls := Lower(n.className.GetOr(""));
    var id := Lower(n.viewId.GetOr(""));
    (Contains(cls, "text") || Contains(cls, "button") || Contains(cls, "chip"))
    && Contains(id, "id")
    && (Contains(id, "digit") || Contains(id, "number"))
  }

  /** The view id of the first lock-pad node of a list of nodes. */
  function FirstLockView(s: seq<Node>): (r: Option<string>)
    ensures r.None? <==> forall j :: 0 <= j < |s| ==> !IsLockView(s[j])
    ensures r.Some? ==> exists j :: (0 <= j < |s| && IsLockView(s[j])
      && r.value == s[j].viewId.GetOr("") && forall i :: 0 <= i < j ==> !IsLockView(s[i]))
  {
    if |s| == 0 then None
    else if IsLockView(s[0]) then Some(s[0].viewId.GetOr(""))
    else
      var r := FirstLockView(s[1..]);
      assert forall j :: 1 <= j < |s| ==> s[j] == s[1..][j - 1];
      r
  }

  lemma {:induction false} FirstLockViewAppend(a: seq<Node>, b: seq<Node>)
    ensures FirstLockView(a + b) == if FirstLockView(a).Some? then FirstLockView(a) else FirstLockView(b)
  {
    if |a| > 0 {
      assert (a + b)[1..] == a[1..] + b;
      FirstLockViewAppend(a[1..], b);
    } else {
      assert a + b == b;
    }
  }

  /** `findLockView`: the node itself if it qualifies, otherwise the first
      answer among its non-null children in order. */
  function FindLockView(n: Node): Option<string>
    decreases n, 1
  {
    if IsLockView(n) then Some(n.viewId.GetOr("")) else FindLockViewFrom(n, 0)
  }

  function FindLockViewFrom(n: Node, i: nat): Option<string>
    requires i <= |n.children|
    decreases n, 0, |n.children| - i
  {
    if i == |n.children| then None
    else
      var here := if n.children[i].Some? then FindLockView(n.children[i].value) else None;
      if here.Some? then here else FindLockViewFrom(n, i + 1)
  }

  /** The recursive search answers the first qualifying node in pre-order. */
  lemma {:induction false} FindLockViewIsFirst(n: Node)
    ensures FindLockView(n) == FirstLockView(Preorder(n))
    decreases n, 1
  {
    FindLockViewFromIsFirst(n, 0);
    FirstLockViewAppend([n], Forest(n, 0));
  }

  lemma {:induction false} FindLockViewFromIsFirst(n: Node, i: nat)
    requires i <= |n.children|
    ensures FindLockViewFrom(n, i) == FirstLockView(Forest(n, i))
    decreases n, 0, |n.children| - i
  {
    if i < |n.children| {
      FindLockViewFromIsFirst(n, i + 1);
      var head := if n.children[i].Some? then Preorder(n.children[i].value) else [];
      FirstLockViewAppend(head, Forest(n, i + 1));
      if n.children[i].Some? {
        FindLockViewIsFirst(n.children[i].value);
      }
    }
  }

  /** `getLockViewID(root)`: the id found in the window, else the brand's
      default id. */
  function GetLockViewID(root: Option<Node>, brand: string): (id: string)
    ensures root.Some? && FirstLockView(Preorder(root.value)).Some? ==> id == FirstLockView(Preorder(root.value)).value
    ensures (root.None? || FirstLockView(Preorder(root.value)).None?) ==> id == GetLockID(brand)
  {
    if root.None? then GetLockID(brand)
    else
      FindLockViewIsFirst(root.value);
      FindLockView(root.value).GetOr(GetLockID(brand))
  }

  const VERSION_CODES_N := 24

  /** `unlockScreenNew(service, password)`, with `click(i)` the outcome of
      clicking the `i`-th password character on the PIN pad.  Without a
      service, below Android 7.0, or with an empty password nothing is
      typed and the answer is false; otherwise every character is typed
      and the answer is true exactly when no click failed. */
  method UnlockScreenNew(hasService: bool, sdkInt: int, password: string, click: nat -> bool)
    returns (isSuc: bool, typed: nat)
    ensures !hasService || sdkInt < VERSION_CODES_N || |password| == 0 ==> !isSuc && typed == 0
    ensures hasService && sdkInt >= VERSION_CODES_N && |password| > 0 ==>
      typed == |password| && (isSuc <==> forall i :: 0 <= i < |password| ==> click(i))
  {
    isSuc := false;
    typed := 0;
    if !hasService || sdkInt < VERSION_CODES_N || |password| == 0 {
      return;
    }
    var trueCount := 0;
    var falseCount := 0;
    for i := 0 to |password|
      invariant trueCount + falseCount == i
      invariant falseCount == 0 <==> forall j :: 0 <= j < i ==> click(j)
    {
      var inputSuccess := click(i);
      if !inputSuccess {
        falseCount := falseCount + 1;
      } else {
        trueCount := trueCount + 1;
      }
    }
    typed := trueCount + falseCount;
    isSuc := falseCount == 0;
  }
}
