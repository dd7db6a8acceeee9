/** The vendor settings-screen router: a fixed table from manufacturer to
    an ordered list of candidate screens, tried in order until one opens,
    with the app-details screen and then the top-level settings screen as
    fallbacks; and the brand switch that picks a permission-editor chain. */
module SettingsRouter {
  import opened Wrappers
  import opened Text

  /** What `startActivity` is asked to open. */
  datatype Intent =
    | Component(pkg: string, cls: string)      // an explicit "package/class" component
    | NoComponent                              // `unflattenFromString` returned null
    | LaunchIntent(pkg: string)                // the package's launcher intent
    | AppDetails                               // APPLICATION_DETAILS_SETTINGS for this app
    | SystemSettings                           // Settings.ACTION_SETTINGS
    | PermEditor(pkg: string, cls: string)     // action miui.intent.action.APP_PERM_EDITOR
    | Action(name: string)                     // an implicit intent by action name

  /** The activities that were opened, in order, and whether an exception
      escaped to the caller. */
  datatype Launch = Launch(started: seq<Intent>, crashed: bool)

  datatype Route = Route(vendor: string, candidates: seq<string>)

  /** The candidate lists of the table, one per manufacturer. */
  const XiaomiList: seq<string> := [
    "com.miui.securitycenter/com.miui.permcenter.autostart.AutoStartManagementActivity",
    "com.miui.securitycenter"]
  const SamsungList: seq<string> := [
    "com.samsung.android.sm_cn/com.samsung.android.sm.ui.ram.AutoRunActivity",
    "com.samsung.android.sm_cn/com.samsung.android.sm.ui.appmanagement.AppManagementActivity",
    "com.samsung.android.sm_cn/com.samsung.android.sm.ui.cstyleboard.SmartManagerDashBoardActivity",
    "com.samsung.android.sm_cn/.ui.ram.RamActivity",
    "com.samsung.android.sm_cn/.app.dashboard.SmartManagerDashBoardActivity",
    "com.samsung.android.sm/com.samsung.android.sm.ui.ram.AutoRunActivity",
    "com.samsung.android.sm/com.samsung.android.sm.ui.appmanagement.AppManagementActivity",
    "com.samsung.android.sm/com.samsung.android.sm.ui.cstyleboard.SmartManagerDashBoardActivity",
    "com.samsung.android.sm/.ui.ram.RamActivity",
    "com.samsung.android.sm/.app.dashboard.SmartManagerDashBoardActivity",
    "com.samsung.android.lool/com.samsung.android.sm.ui.battery.BatteryActivity",
    "com.samsung.android.sm_cn",
    "com.samsung.android.sm"]
  const HuaweiList: seq<string> := [
    "com.huawei.systemmanager/.startupmgr.ui.StartupNormalAppListActivity",
    "com.huawei.systemmanager/.appcontrol.activity.StartupAppControlActivity",
    "com.huawei.systemmanager/.optimize.process.ProtectActivity",
    "com.huawei.systemmanager/.optimize.bootstart.BootStartActivity",
    "com.huawei.systemmanager"]
  const VivoList: seq<string> := [
    "com.iqoo.secure/.ui.phoneoptimize.BgStartUpManager",
    "com.iqoo.secure/.safeguard.PurviewTabActivity",
    "com.vivo.permissionmanager/.activity.BgStartUpManagerActivity",
    "com.iqoo.secure",
    "com.vivo.permissionmanager"]
  const MeizuList: seq<string> := [
    "com.meizu.safe/.permission.SmartBGActivity",
    "com.meizu.safe/.permission.PermissionMainActivity",
    "com.meizu.safe"]
  const OppoList: seq<string> := [
    "com.coloros.safecenter/.startupapp.StartupAppListActivity",
    "com.coloros.safecenter/.permission.startup.StartupAppListActivity",
    "com.oppo.safe/.permission.startup.StartupAppListActivity",
    "com.coloros.oppoguardelf/com.coloros.powermanager.fuelgaue.PowerUsageModelActivity",
    "com.coloros.safecenter/com.coloros.privacypermissionsentry.PermissionTopActivity",
    "com.coloros.safecenter",
    "com.oppo.safe",
    "com.coloros.oppoguardelf"]
  const OnePlusList: seq<string> := [
    "com.oneplus.security/.chainlaunch.view.ChainLaunchAppListActivity",
    "com.oneplus.security"]
  const LetvList: seq<string> := [
    "com.letv.android.letvsafe/.AutobootManageActivity",
    "com.letv.android.letvsafe/.BackgroundAppManageActivity",
    "com.letv.android.letvsafe"]
  const ZteList: seq<string> := [
    "com.zte.heartyservice/.autorun.AppAutoRunManager",
    "com.zte.heartyservice"]
  const GioneeList: seq<string> := [
    "com.gionee.softmanager/.MainActivity",
    "com.gionee.softmanager"]
  const SmartisanList: seq<string> := [
    "com.smartisanos.security/.invokeHistory.InvokeHistoryActivity",
    "com.smartisanos.security"]
  const Qiku360List: seq<string> := [
    "com.yulong.android.coolsafe/.ui.activity.autorun.AutoRunListActivity",
    "com.yulong.android.coolsafe"]
  const YulongList: seq<string> := [
    "com.yulong.android.coolsafe/.ui.activity.autorun.AutoRunListActivity",
    "com.yulong.android.coolsafe"]
  const CoolpadList: seq<string> := [
    "com.yulong.android.security/com.yulong.android.seccenter.tabbarmain",
    "com.yulong.android.security"]
  const LenovoList: seq<string> := [
    "com.lenovo.security/.purebackground.PureBackgroundActivity",
    "com.lenovo.security"]
  const HtcList: seq<string> := [
    "com.htc.pitroad/.landingpage.activity.LandingPageActivity",
    "com.htc.pitroad"]
  const AsusList: seq<string> := [
    "com.asus.mobilemanager/.MainActivity",
    "com.asus.mobilemanager"]

  /** The manufacturer table, in declaration order. */
  const Routes: seq<Route> := [
    Route("Xiaomi", XiaomiList),
    Route("samsung", SamsungList),
    Route("HUAWEI", HuaweiList),
    Route("vivo", VivoList),
    Route("Meizu", MeizuList),
    Route("OPPO", OppoList),
    Route("oneplus", OnePlusList),
    Route("letv", LetvList),
    Route("zte", ZteList),
    Route("F", GioneeList),
    Route("smartisanos", SmartisanList),
    Route("360", Qiku360List),
    Route("ulong", YulongList),
    Route("coolpad", CoolpadList),
    Route("lenovo", LenovoList),
    Route("htc", HtcList),
    Route("asus", AsusList)]

  /** `ComponentName.unflattenFromString`: split at the first '/', which must
      have text after it; a class starting with '.' is relative to the package. */
  function Unflatten(s: string): (r: Option<(string, string)>)
    ensures r.Some? ==> !Free(s, '/') && Free(r.value.0, '/') && |r.value.1| > 0
    ensures Free(s, '/') ==> r.None?
  {
    var sep := IndexOfChar(s, '/');
    if sep < 0 || sep + 1 >= |s| then None
    else
      var pkg := s[..sep];
      var cls := s[sep + 1..];
      Some((pkg, if cls[0] == '.' then pkg + cls else cls))
  }

  /** How one candidate is turned into an intent: a candidate containing '/'
      names a component, any other is a package whose launcher is opened. */
  function Dispatch(act: string): (i: Intent)
    ensures Contains(act, "/") ==> i.Component? || i.NoComponent?
    ensures !Contains(act, "/") ==> i == LaunchIntent(act)
  {
    if Contains(act, "/") then
      match Unflatten(act)
      case Some((pkg, cls)) => Component(pkg, cls)
      case None => NoComponent
    else LaunchIntent(act)
  }

  function Dispatched(cands: seq<string>): (r: seq<Intent>)
    ensures |r| == |cands| && forall k :: 0 <= k < |cands| ==> r[k] == Dispatch(cands[k])
  {
    seq(|cands|, k requires 0 <= k < |cands| => Dispatch(cands[k]))
  }

  /** The index of the first intent that opens without throwing. */
  function FirstStarting(intents: seq<Intent>, starts: Intent -> bool): (r: Option<nat>)
    ensures r.Some? ==> r.value < |intents| && starts(intents[r.value])
    ensures r.Some? ==> forall j :: 0 <= j < r.value ==> !starts(intents[j])
    ensures r.None? ==> forall j :: 0 <= j < |intents| ==> !starts(intents[j])
  {
    if |intents| == 0 then None
    else if starts(intents[0]) then Some(0)
    else
      match FirstStarting(intents[1..], starts)
      case Some(k) => Some(k + 1)
      case None => None
  }

  /** Nested try/catch: each intent is tried only if the previous one threw;
      an exception from the last one escapes. */
  function Chain(intents: seq<Intent>, starts: Intent -> bool): (r: Launch)
    ensures r.crashed <==> forall j :: 0 <= j < |intents| ==> !starts(intents[j])
    ensures !r.crashed ==> exists k :: (0 <= k < |intents| && r.started == [intents[k]]
      && starts(intents[k]) && forall j :: 0 <= j < k ==> !starts(intents[j]))
    ensures r.crashed ==> r.started == []
  {
    match FirstStarting(intents, starts)
    case Some(k) => Launch([intents[k]], false)
    case None => Launch([], true)
  }

  /** What the table loop opens for the routes it has visited: for each route
      whose vendor equals the manufacturer ignoring case, its first candidate
      that opens. */
  function TableHits(routes: seq<Route>, manufacturer: string, starts: Intent -> bool): seq<Intent>
  {
    if |routes| == 0 then []
    else
      var last := routes[|routes| - 1];
      var before := TableHits(routes[..|routes| - 1], manufacturer, starts);
      if !EqualsIgnoreCase(manufacturer, last.vendor) then before
      else match FirstStarting(Dispatched(last.candidates), starts)
        case Some(k) => before + [Dispatch(last.candidates[k])]
        case None => before
  }

  /** `startToAutoStartSetting` as a function of the manufacturer and of which
      intents open. */
  function AutoStart(manufacturer: string, starts: Intent -> bool): Launch
  {
    var hits := TableHits(Routes, manufacturer, starts);
    if |hits| > 0 then Launch(hits, false) else Chain([AppDetails, SystemSettings], starts)
  }

  /** The table loop of `startToAutoStartSetting`: over every entry, and
      within an entry whose vendor equals the manufacturer ignoring case, over
      its candidates, stopping that entry at the first candidate that opens. */
  method OpenFromTable(table: seq<Route>, manufacturer: string, starts: Intent -> bool)
    returns (started: seq<Intent>, has: bool)
    ensures started == TableHits(table, manufacturer, starts)
    ensures has <==> |started| > 0
  {
    started := [];
    has := false;
    var e := 0;
    while e < |table|
      invariant 0 <= e <= |table|
      invariant started == TableHits(table[..e], manufacturer, starts)
      invariant has <==> |started| > 0
    {
      var route := table[e];
      assert table[..e + 1][..e] == table[..e];
      if EqualsIgnoreCase(manufacturer, route.vendor) {
        var cands := route.candidates;
        var k := 0;
        var hit := false;
        while k < |cands|
          invariant 0 <= k <= |cands|
          invariant forall j :: 0 <= j < k ==> !starts(Dispatch(cands[j]))
        {
          if starts(Dispatch(cands[k])) {
            hit := true;
            break;
          }
          k := k + 1;
        }
        var first := FirstStarting(Dispatched(cands), starts);
        if hit {
          assert first == Some(k);
          started := started + [Dispatch(cands[k])];
          has := true;
        } else {
          assert first == None;
        }
      }
      e := e + 1;
    }
    assert table[..e] == table;
  }

  /** `startToAutoStartSetting`: the table loop, then, if nothing opened, the
      app-details screen, and only if that throws the top-level settings
      screen, whose exception escapes. */
  method StartToAutoStartSetting(manufacturer: string, starts: Intent -> bool) returns (r: Launch)
    ensures r == AutoStart(manufacturer, starts)
  {
    var started, has := OpenFromTable(Routes, manufacturer, starts);
    if has {
      r := Launch(started, false);
    } else if starts(AppDetails) {
      r := Launch([AppDetails], false);
    } else if starts(SystemSettings) {
      r := Launch([SystemSettings], false);
    } else {
      r := Launch([], true);
    }
  }

  predicate VendorsDistinct(table: seq<Route>)
  {
    forall i, j :: 0 <= i < j < |table| ==> !EqualsIgnoreCase(table[i].vendor, table[j].vendor)
  }

  /** Each vendor's length and upper-cased first letter, in table order. */
  const VendorSigs: seq<(int, char)> := [(6, 'X'), (7, 'S'), (6, 'H'), (4, 'V'), (5, 'M'), (4, 'O'), (7, 'O'), (4, 'L'),
    (3, 'Z'), (1, 'F'), (11, 'S'), (3, '3'), (5, 'U'), (7, 'C'), (6, 'L'), (3, 'H'), (4, 'A')]

  lemma VendorSigsMatch()
    ensures |VendorSigs| == |Routes|
    ensures forall i :: 0 <= i < |Routes| ==>
      |Routes[i].vendor| > 0 && VendorSigs[i] == (|Routes[i].vendor|, UpperChar(Routes[i].vendor[0]))
  {
  }

  lemma VendorSigsDistinct()
    ensures forall i, j :: 0 <= i < j < |VendorSigs| ==> VendorSigs[i] != VendorSigs[j]
  {
  }

  /** No two vendors of the table are equal ignoring case, so the HashMap's
      iteration order cannot matter. */
  lemma RouteVendorsDistinct()
    ensures VendorsDistinct(Routes)
  {
    VendorSigsMatch();
    VendorSigsDistinct();
    forall i, j | 0 <= i < j < |Routes| ensures !EqualsIgnoreCase(Routes[i].vendor, Routes[j].vendor) {
      assert VendorSigs[i] != VendorSigs[j];
    }
  }

  /** The hits of a table in which only entry `e` matches. */
  lemma {:induction false} TableHitsOnly(table: seq<Route>, manufacturer: string, starts: Intent -> bool, e: int)
    requires -1 <= e < |table|
    requires e >= 0 ==> EqualsIgnoreCase(manufacturer, table[e].vendor)
    requires forall i :: 0 <= i < |table| && i != e ==> !EqualsIgnoreCase(manufacturer, table[i].vendor)
    ensures e == -1 ==> TableHits(table, manufacturer, starts) == []
    ensures e >= 0 ==> (TableHits(table, manufacturer, starts) ==
      match FirstStarting(Dispatched(table[e].candidates), starts)
      case Some(k) => [Dispatch(table[e].candidates[k])]
      case None => [])
    decreases |table|
  {
    if |table| > 0 {
      var n := |table| - 1;
      if e == n {
        TableHitsOnly(table[..n], manufacturer, starts, -1);
      } else {
        TableHitsOnly(table[..n], manufacturer, starts, e);
      }
    }
  }

  /** In a table of distinct vendors a manufacturer matches at most one entry. */
  lemma OnlyMatch(table: seq<Route>, manufacturer: string, e: int)
    requires VendorsDistinct(table)
    requires 0 <= e < |table| && EqualsIgnoreCase(manufacturer, table[e].vendor)
    ensures forall i :: 0 <= i < |table| && i != e ==> !EqualsIgnoreCase(manufacturer, table[i].vendor)
  {
    forall i | 0 <= i < |table| && i != e ensures !EqualsIgnoreCase(manufacturer, table[i].vendor) {
      if EqualsIgnoreCase(manufacturer, table[i].vendor) {
        if i < e {
          assert EqualsIgnoreCase(table[i].vendor, table[e].vendor);
        } else {
          assert EqualsIgnoreCase(table[e].vendor, table[i].vendor);
        }
      }
    }
  }

  lemma TableOpensFirstCandidate(table: seq<Route>, manufacturer: string, starts: Intent -> bool, e: nat, k: nat)
    requires VendorsDistinct(table)
    requires e < |table| && EqualsIgnoreCase(manufacturer, table[e].vendor)
    requires k < |table[e].candidates| && starts(Dispatch(table[e].candidates[k]))
    requires forall j :: 0 <= j < k ==> !starts(Dispatch(table[e].candidates[j]))
    ensures TableHits(table, manufacturer, starts) == [Dispatch(table[e].candidates[k])]
  {
    OnlyMatch(table, manufacturer, e);
    TableHitsOnly(table, manufacturer, starts, e);
    var first := FirstStarting(Dispatched(table[e].candidates), starts);
    assert first == Some(k);
  }

  /** For a manufacturer matching entry `e`, the router opens the first
      candidate of `e` that opens and nothing else; a candidate that throws
      only moves on to the next one. */
  lemma AutoStartOpensFirstCandidate(manufacturer: string, starts: Intent -> bool, e: nat, k: nat)
    requires e < |Routes| && EqualsIgnoreCase(manufacturer, Routes[e].vendor)
    requires k < |Routes[e].candidates| && starts(Dispatch(Routes[e].candidates[k]))
    requires forall j :: 0 <= j < k ==> !starts(Dispatch(Routes[e].candidates[j]))
    ensures AutoStart(manufacturer, starts) == Launch([Dispatch(Routes[e].candidates[k])], false)
  {
    RouteVendorsDistinct();
    TableOpensFirstCandidate(Routes, manufacturer, starts, e, k);
  }

  /** When no candidate of a matching entry opens, or no entry matches, the
      router tries app details, then top-level settings, and crashes only if
      both throw. */
  lemma AutoStartFallsBack(manufacturer: string, starts: Intent -> bool)
    requires forall e, k :: (0 <= e < |Routes| && EqualsIgnoreCase(manufacturer, Routes[e].vendor)
      && 0 <= k < |Routes[e].candidates|) ==> !starts(Dispatch(Routes[e].candidates[k]))
    ensures AutoStart(manufacturer, starts) == Chain([AppDetails, SystemSettings], starts)
    ensures AutoStart(manufacturer, starts).started ==
      if starts(AppDetails) then [AppDetails] else if starts(SystemSettings) then [SystemSettings] else []
  {
    RouteVendorsDistinct();
    if e :| 0 <= e < |Routes| && EqualsIgnoreCase(manufacturer, Routes[e].vendor) {
      OnlyMatch(Routes, manufacturer, e);
      TableHitsOnly(Routes, manufacturer, starts, e);
      assert FirstStarting(Dispatched(Routes[e].candidates), starts) == None;
    } else {
      TableHitsOnly(Routes, manufacturer, starts, -1);
    }
  }

  /** The hits depend on the manufacturer only up to case. */
  lemma {:induction false} TableHitsIgnoreCase(table: seq<Route>, m1: string, m2: string, starts: Intent -> bool)
    requires EqualsIgnoreCase(m1, m2)
    ensures TableHits(table, m1, starts) == TableHits(table, m2, starts)
    decreases |table|
  {
    if |table| > 0 {
      TableHitsIgnoreCase(table[..|table| - 1], m1, m2, starts);
      var v := table[|table| - 1].vendor;
      assert EqualsIgnoreCase(m1, v) <==> EqualsIgnoreCase(m2, v);
    }
  }

  /** Manufacturer matching is case-insensitive: "XIAOMI" routes like "Xiaomi". */
  lemma AutoStartIgnoresCase(m1: string, m2: string, starts: Intent -> bool)
    requires EqualsIgnoreCase(m1, m2)
    ensures AutoStart(m1, starts) == AutoStart(m2, starts)
  {
    TableHitsIgnoreCase(Routes, m1, m2, starts);
  }

  predicate EndsWithPackage(cands: seq<string>)
  {
    |cands| > 0 && Free(cands[|cands| - 1], '/')
  }

  /** Every vendor list ends with a bare package, which is opened through its
      launcher intent. */
  lemma EveryRouteEndsWithPackage()
    ensures forall e :: 0 <= e < |Routes| ==> EndsWithPackage(Routes[e].candidates)
    ensures forall e :: 0 <= e < |Routes| ==> (
      var last := Routes[e].candidates[|Routes[e].candidates| - 1];
      Dispatch(last) == LaunchIntent(last))
  {
    FirstListsEndWithPackage();
    LastListsEndWithPackage();
    forall e | 0 <= e < |Routes|
      ensures EndsWithPackage(Routes[e].candidates)
      ensures var last := Routes[e].candidates[|Routes[e].candidates| - 1];
        Dispatch(last) == LaunchIntent(last)
    {
      var cands := Routes[e].candidates;
      assert cands in [XiaomiList, SamsungList, HuaweiList, VivoList, MeizuList, OppoList, OnePlusList, LetvList,
        ZteList, GioneeList, SmartisanList, Qiku360List, YulongList, CoolpadList, LenovoList, HtcList, AsusList];
      ContainsChar(cands[|cands| - 1], '/');
    }
  }

  lemma FirstListsEndWithPackage()
    ensures EndsWithPackage(XiaomiList) && EndsWithPackage(SamsungList) && EndsWithPackage(HuaweiList)
    ensures EndsWithPackage(VivoList) && EndsWithPackage(MeizuList) && EndsWithPackage(OppoList)
    ensures EndsWithPackage(OnePlusList) && EndsWithPackage(LetvList)
  {
  }

  lemma LastListsEndWithPackage()
    ensures EndsWithPackage(ZteList) && EndsWithPackage(GioneeList) && EndsWithPackage(SmartisanList)
    ensures EndsWithPackage(Qiku360List) && EndsWithPackage(YulongList) && EndsWithPackage(CoolpadList)
    ensures EndsWithPackage(LenovoList) && EndsWithPackage(HtcList) && EndsWithPackage(AsusList)
  {
  }

  /** The MIUI permission editor, then the older editor, then app details. */
  const MiuiChain: seq<Intent> := [
    PermEditor("com.miui.securitycenter", "com.miui.permcenter.permissions.PermissionsEditorActivity"),
    PermEditor("com.miui.securitycenter", "com.miui.permcenter.permissions.AppPermissionsEditorActivity"),
    AppDetails]

  const MeizuChain: seq<Intent> := [Action("com.meizu.safe.security.SHOW_APPSEC"), AppDetails]

  const HuaweiChain: seq<Intent> := [
    Component("com.huawei.systemmanager", "com.huawei.permissionmanager.ui.MainActivity"), AppDetails]

  /** The brand switch of `gotoPermission`, which compares the lower-cased
      brand with each literal as written. */
  function PermissionChain(brand: string): seq<Intent>
  {
    var b := Lower(brand);
    if b == "blackshark" || b == "Xiaomi" then MiuiChain
    else if b == "meizu" then MeizuChain
    else if b == "HUAWEI" || b == " HONOR" then HuaweiChain
    else [AppDetails]
  }

  /** `gotoPermission`: the chosen chain, each step tried only if the
      previous one threw, the exception of the last escaping. */
  function GotoPermission(brand: string, starts: Intent -> bool): Launch
  {
    Chain(PermissionChain(brand), starts)
  }

  /** A lower-cased string has no upper-case ASCII letter. */
  lemma LowerHasNoUpper(s: string, i: int)
    requires 0 <= i < |s| && 'A' <= s[i] <= 'Z'
    ensures forall b :: Lower(b) != s
  {
  }

  /** Since the brand is lower-cased before comparison, "Xiaomi", "HUAWEI" and
      " HONOR" never match: only "blackshark" reaches the MIUI editor, only
      "meizu" the Meizu screen, and the Huawei chain is unreachable. */
  lemma PermissionRoutes(brand: string)
    ensures PermissionChain(brand) ==
      if Lower(brand) == "blackshark" then MiuiChain
      else if Lower(brand) == "meizu" then MeizuChain
      else [AppDetails]
    ensures PermissionChain(brand) != HuaweiChain
  {
    LowerHasNoUpper("Xiaomi", 0);
    LowerHasNoUpper("HUAWEI", 0);
    LowerHasNoUpper(" HONOR", 1);
  }

  /** The MIUI chain: PermissionsEditorActivity, then AppPermissionsEditorActivity,
      then app details, whose failure escapes. */
  lemma MiuiPermissionOrder(brand: string, starts: Intent -> bool)
    requires Lower(brand) == "blackshark"
    ensures GotoPermission(brand, starts) ==
      if starts(MiuiChain[0]) then Launch([MiuiChain[0]], false)
      else if starts(MiuiChain[1]) then Launch([MiuiChain[1]], false)
      else if starts(AppDetails) then Launch([AppDetails], false)
      else Launch([], true)
  {
    PermissionRoutes(brand);
    var r := GotoPermission(brand, starts);
    if !r.crashed {
      var k :| 0 <= k < |MiuiChain| && r.started == [MiuiChain[k]] && starts(MiuiChain[k])
        && forall j :: 0 <= j < k ==> !starts(MiuiChain[j]);
    }
  }

  /** As written, the brands "Xiaomi" and "HUAWEI" (as reported by those
      devices) fall through to the app details screen. */
  lemma XiaomiAndHuaweiMissed()
    ensures PermissionChain("Xiaomi") == [AppDetails]
    ensures PermissionChain("HUAWEI") == [AppDetails]
    ensures PermissionChain("HONOR") == [AppDetails]
  {
    PermissionRoutes("Xiaomi");
    PermissionRoutes("HUAWEI");
    PermissionRoutes("HONOR");
    assert Lower("Xiaomi")[0] == 'x';
    assert Lower("HUAWEI")[0] == 'h';
    assert Lower("HONOR")[0] == 'h';
  }

  /** The switch `gotoPermission` evidently intends: each literal compared in
      lower case, and the Honor brand without its stray leading space. */
  function IntendedPermissionChain(brand: string): seq<Intent>
  {
    var b := Lower(brand);
    if b == "blackshark" || b == "xiaomi" then MiuiChain
    else if b == "meizu" then MeizuChain
    else if b == "huawei" || b == "honor" then HuaweiChain
    else [AppDetails]
  }

  /** The intended switch sends Xiaomi and Black Shark devices to the MIUI
      editor and Huawei and Honor devices to the Huawei screen, whatever the
      case of the brand, and agrees with the code as written on every other
      brand. */
  lemma IntendedPermissionRoutes(brand: string)
    ensures Lower(brand) == "xiaomi" || Lower(brand) == "blackshark" ==> IntendedPermissionChain(brand) == MiuiChain
    ensures Lower(brand) == "huawei" || Lower(brand) == "honor" ==> IntendedPermissionChain(brand) == HuaweiChain
    ensures Lower(brand) != "xiaomi" && Lower(brand) != "huawei" && Lower(brand) != "honor" ==>
      IntendedPermissionChain(brand) == PermissionChain(brand)
  {
    PermissionRoutes(brand);
  }

  /** The brands the code as written misses reach their screens under the
      intended switch. */
  lemma IntendedReachesXiaomi()
    ensures IntendedPermissionChain("Xiaomi") == MiuiChain
  {
    assert Lower("Xiaomi") == "xiaomi";
  }

  lemma IntendedReachesHuawei()
    ensures IntendedPermissionChain("HUAWEI") == HuaweiChain
  {
    assert Lower("HUAWEI") == "huawei";
  }

  lemma IntendedReachesHonor()
    ensures IntendedPermissionChain("HONOR") == HuaweiChain
  {
    assert Lower("HONOR") == "honor";
  }
}
