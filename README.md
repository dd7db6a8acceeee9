# XpqUtils core, modelled in Dafny

This project models the logic core of XpqUtils, an Android toolkit for
accessibility-service automation (WeChat helpers, lock-screen unlocking,
notification listening, keep-alive). Each core source file becomes one Dafny
module, and the model proves what each operation promises.

- **Pure helpers** become functions and lemmas:
  - version comparison, notification sorting and text reading;
  - verification and pick-up code extraction;
  - the notification unique key;
  - the lock-point "i:x,y" encoding, the PIN grid and lock-view search;
  - string encryption, display formatting and the keyguard flags.
- **Objects whose fields change** become classes with `modifies` clauses:
  - the broadcast registry and channel ownership;
  - the friend-check store, the Recents hiding state and the pending-intent cell;
  - the one-shot continuation;
  - the notification de-duplication filters and the select-to-speak node bookkeeping;
  - the trusted clock;
  - the scroll-until-end task and its debounced entry point;
  - the lock-point store with its grid.
- **Loops in the source** stay loops with invariants, proved against specification functions:
  - the version comparison and the component launcher;
  - the Recents task scan;
  - the lock-screen stack walk and the input loops;
  - the cleanups of the node maps.

Five shared modules give the Kotlin and JVM library behaviour the core relies on:
- `Wrappers`: `Option` and `Result`.
- `Jvm`: truncating `/` and `%`, `Int`/`Long` ranges, 16-bit `Char` arithmetic.
- `Decimal`: `toString`, `toInt`/`toIntOrNull` and their round trip.
- `Text`: `split`, `replace`, `contains`, `isBlank` and ASCII case mapping.
- `Nodes`: the accessibility node tree and its preorder.

Platform answers are parameters: whether an activity starts, whether a click
or a registration succeeds, the clocks, the network state, the HMAC and the
random draws.

The auto-start table follows the code rather than the prose description of it:
- the Samsung list has 13 candidates;
- Gionee is keyed "F";
- Yulong is keyed "ulong".

Manufacturer matching is exact ignoring case, as `equalsIgnoreCase` does.

Some functions exist as identical copies in two files, and each copy is modelled by the same members:
- `compareVersions` in AliveUtils and in auto-wx's MyUtilsKotlin;
- `formatTime` in `ext.task` and in auto-wx's `ktx`;
- `getLatestNotification` and `getAllSortedByTime` in NotificationUtil and NotificationUtilXpq.

## Model

| member | source | states |
|---|---|---|
| AliveUtils.DropTrailingEmpty | accessibility/src/main/java/com/google/android/accessibility/ext/utils/AliveUtils.kt:634-635 | the kept components are a prefix of the split, end in a non-empty component, and only empty components were dropped |
| AliveUtils.CompareFrom | accessibility/src/main/java/com/google/android/accessibility/ext/utils/AliveUtils.kt:637-646 | a successful comparison is -1, 0 or 1; a component that is not an Int makes the comparison fail |
| AliveUtils.CompareVersions | accessibility/src/main/java/com/google/android/accessibility/ext/utils/AliveUtils.kt:633-647 | the loop over components returns the comparison `VersionOrder` defines: the sign of the first differing component, missing components read as 0 |
| AliveUtils.CompareParts | accessibility/src/main/java/com/google/android/accessibility/ext/utils/AliveUtils.kt:637-646 | the index loop returns the recursive comparison from component 0 |
| AliveUtils.CompareFromAntisymmetric | accessibility/src/main/java/com/google/android/accessibility/ext/utils/AliveUtils.kt:637-646 | swapping the arguments negates the result and fails on the same inputs |
| AliveUtils.VersionOrderAntisymmetric | accessibility/src/main/java/com/google/android/accessibility/ext/utils/AliveUtils.kt:633-647 | compareVersions(a, b) == -compareVersions(b, a), and both throw or neither does |
| AliveUtils.CompareFromReflexive | accessibility/src/main/java/com/google/android/accessibility/ext/utils/AliveUtils.kt:637-646 | a list compares equal to itself exactly when every component parses, and fails otherwise |
| AliveUtils.VersionOrderReflexive | accessibility/src/main/java/com/google/android/accessibility/ext/utils/AliveUtils.kt:633-647 | a version equals itself exactly when all its components are numbers |
| AliveUtils.TrailingDotIgnored | accessibility/src/main/java/com/google/android/accessibility/ext/utils/AliveUtils.kt:634-635 | a trailing "." adds an empty component that dropLastWhile removes |
| AliveUtils.SampleParts | accessibility/src/main/java/com/google/android/accessibility/ext/utils/AliveUtils.kt:634-635 | "1", "1.0" and "1.0.1" split into 1, 2 and 3 components |
| AliveUtils.MissingComponentsAreZero | auto-wx/src/main/java/com/lygttpod/android/auto/wx/service/MyUtilsKotlin.kt:106-107 | "1.0" equals "1", and "1.0.1" is newer than "1" (the same component rule in the MyUtilsKotlin copy) |
| AliveUtils.SetExcludeFromRecents | accessibility/src/main/java/com/google/android/accessibility/ext/utils/AliveUtils.kt:1441-1477 | below API 24 or without a context no task changes; otherwise every task gets the verdict its base and top class names call for, and nothing else about it changes |
| AliveUtils.ExcludeFalseRules | accessibility/src/main/java/com/google/android/accessibility/ext/utils/AliveUtils.kt:1457-1467 | with exclude=false a task is hidden exactly when a name is empty, listed, or (with no list) launcher-like, and shown exactly when both names are present and unlisted |
| AliveUtils.ExcludeTrueHidesAll | accessibility/src/main/java/com/google/android/accessibility/ext/utils/AliveUtils.kt:1471-1473 | with exclude=true every task is hidden (and removed by the Plus variant) |
| AliveUtils.SetExcludeFromRecentsPlus | accessibility/src/main/java/com/google/android/accessibility/ext/utils/AliveUtils.kt:1481-1518 | without a context nothing changes; otherwise exactly the tasks the removal rule selects are removed |
| AliveUtils.PlusRemovesWhatIsHidden | accessibility/src/main/java/com/google/android/accessibility/ext/utils/AliveUtils.kt:1481-1518 | the Plus variant removes exactly the tasks the plain variant would hide |
| AliveUtils.Show0Pixel | accessibility/src/main/java/com/google/android/accessibility/ext/utils/AliveUtils.kt:1522-1538 | the pixel is shown exactly when the accessibility service is running or the overlay permission is granted |
| Broadcast.Priority | accessibility/src/main/java/com/google/android/accessibility/ext/utils/broadcastutil/BroadcastOwnerType.kt:8-19 | every owner type has a priority between 0 and 4 |
| Broadcast.PriorityOrder | accessibility/src/main/java/com/google/android/accessibility/ext/utils/broadcastutil/BroadcastOwnerType.kt:8-19 | priorities are distinct and increase NONE < ACTIVITY < SERVICE < NOTIFICATION_SERVICE < ACCESSIBILITY_SERVICE |
| Broadcast.ReceiverRegistry.constructor | accessibility/src/main/java/com/google/android/accessibility/ext/utils/broadcastutil/BroadCastReciverHelper.kt:20-21 | no receiver starts registered |
| Broadcast.ReceiverRegistry.SafeRegister | accessibility/src/main/java/com/google/android/accessibility/ext/utils/broadcastutil/BroadCastReciverHelper.kt:41-68 | a null context or receiver or a missing filter is refused; an already registered receiver is accepted without re-registering; otherwise the receiver is recorded exactly when the system accepts it |
| Broadcast.ReceiverRegistry.SafeUnregister | accessibility/src/main/java/com/google/android/accessibility/ext/utils/broadcastutil/BroadCastReciverHelper.kt:72-82 | with a context and receiver the receiver is no longer recorded; otherwise nothing changes |
| Broadcast.BroadcastHub.constructor | accessibility/src/main/java/com/google/android/accessibility/ext/utils/broadcastutil/UnifiedBroadcastManager.kt:25-26 | the hub starts with no channel |
| Broadcast.BroadcastHub.CurrentOwnerType | accessibility/src/main/java/com/google/android/accessibility/ext/utils/broadcastutil/UnifiedBroadcastManager.kt:143-145 | an unknown channel has owner type NONE |
| Broadcast.BroadcastHub.Register | accessibility/src/main/java/com/google/android/accessibility/ext/utils/broadcastutil/UnifiedBroadcastManager.kt:44-108 | the same owner re-registering is a no-op success; a lower-priority owner is refused; otherwise the previous receiver is unregistered and the new one takes the channel exactly when its registration succeeds; other channels are untouched |
| Broadcast.BroadcastHub.Unregister | accessibility/src/main/java/com/google/android/accessibility/ext/utils/broadcastutil/UnifiedBroadcastManager.kt:114-137 | only the owning owner can release a channel, which unregisters its receiver and leaves the channel unowned |
| FriendStatusHelper.IndexOfNick | auto-wx/src/main/java/com/lygttpod/android/auto/wx/helper/FriendStatusHelper.kt:36-44 | the first position with that nickname, or -1 exactly when no entry has it |
| FriendStatusHelper.Keep | auto-wx/src/main/java/com/lygttpod/android/auto/wx/helper/FriendStatusHelper.kt:63-102 | a filter keeps exactly the entries whose status passes |
| FriendStatusHelper.KeepAppend | auto-wx/src/main/java/com/lygttpod/android/auto/wx/helper/FriendStatusHelper.kt:63-102 | filtering distributes over concatenation |
| FriendStatusHelper.ViewsPartition | auto-wx/src/main/java/com/lygttpod/android/auto/wx/helper/FriendStatusHelper.kt:63-73 | every entry is in exactly one of the abnormal, unchecked and normal views |
| FriendStatusHelper.AbnormalIsUnion | auto-wx/src/main/java/com/lygttpod/android/auto/wx/helper/FriendStatusHelper.kt:63-102 | an entry is abnormal exactly when it is in the black, deleted or account-exception view |
| FriendStatusHelper.KeepAll | auto-wx/src/main/java/com/lygttpod/android/auto/wx/helper/FriendStatusHelper.kt:63-102 | a filter every entry passes returns the list unchanged |
| FriendStatusHelper.FriendStore.constructor | auto-wx/src/main/java/com/lygttpod/android/auto/wx/helper/FriendStatusHelper.kt:16-27 | the store starts empty with its counters at 0 |
| FriendStatusHelper.FriendStore.Reset | auto-wx/src/main/java/com/lygttpod/android/auto/wx/helper/FriendStatusHelper.kt:29-34 | reset empties the list and zeroes the resume markers |
| FriendStatusHelper.FriendStore.ClearFriendsStatusList | auto-wx/src/main/java/com/lygttpod/android/auto/wx/helper/FriendStatusHelper.kt:57 | only the result list is emptied |
| FriendStatusHelper.FriendStore.AddCheckResult | auto-wx/src/main/java/com/lygttpod/android/auto/wx/helper/FriendStatusHelper.kt:36-44 | a result replaces the first entry with the same nickname or is appended; all other entries stay; unique nicknames stay unique |
| FriendStatusHelper.FriendStore.AddCheckResults | auto-wx/src/main/java/com/lygttpod/android/auto/wx/helper/FriendStatusHelper.kt:46-50 | a null list changes nothing, otherwise it is appended |
| FriendStatusHelper.FriendStore.AddFriends | auto-wx/src/main/java/com/lygttpod/android/auto/wx/helper/FriendStatusHelper.kt:52-55 | the list becomes one UNKNOW entry per name, in order, so all are unchecked and none abnormal |
| FormatExt.FilterAllowed | accessibility/src/main/java/com/google/android/accessibility/ext/FormatExt.kt:15 | the filter keeps exactly the CJK ideographs and visible ASCII characters of the text, in order |
| FormatExt.FilterKeepsAllowed | accessibility/src/main/java/com/google/android/accessibility/ext/FormatExt.kt:15 | text made only of allowed characters is unchanged |
| FormatExt.FilterIdempotent | accessibility/src/main/java/com/google/android/accessibility/ext/FormatExt.kt:15 | filtering twice equals filtering once |
| FormatExt.FilterRemovesSpaces | accessibility/src/main/java/com/google/android/accessibility/ext/FormatExt.kt:15 | filtered text has no whitespace |
| FormatExt.DefaultCharSequence | accessibility/src/main/java/com/google/android/accessibility/ext/FormatExt.kt:8-17 | a blank or null text gives the default; with filter on, the result holds only allowed characters |
| FormatExt.DefaultString | accessibility/src/main/java/com/google/android/accessibility/ext/FormatExt.kt:20-25 | a null string gives the default (a blank one is kept); with filter on, the result holds only allowed characters |
| FormatExt.OverloadsOnText | accessibility/src/main/java/com/google/android/accessibility/ext/FormatExt.kt:8-25 | on a non-null text the String overload filters it as is, and the CharSequence overload differs only by mapping blank text to the default |
| FormatTime.RenderInjective | accessibility/src/main/java/com/google/android/accessibility/ext/task/FormatExtXpq.kt:6-8 | "{m}分{s}秒" determines m and s |
| FormatTime.FieldsInRange | auto-wx/src/main/java/com/lygttpod/android/auto/wx/ktx/FormatExt.kt:10-11 | for a non-negative duration both fields are between 0 and 59 |
| FormatTime.FieldsOfSecond | accessibility/src/main/java/com/google/android/accessibility/ext/task/FormatExtXpq.kt:4-5 | on non-negative durations the truncating divisions are the whole minutes and seconds |
| FormatTime.HoursDropped | accessibility/src/main/java/com/google/android/accessibility/ext/task/FormatExtXpq.kt:3-9 | adding an hour does not change the text |
| FormatTime.FormatTimeDetermines | accessibility/src/main/java/com/google/android/accessibility/ext/task/FormatExtXpq.kt:3-9 | two durations give the same text exactly when their minute and second fields agree |
| FormatTime.SameTextSameSecondOfHour | accessibility/src/main/java/com/google/android/accessibility/ext/task/FormatExtXpq.kt:3-9 | non-negative durations give the same text exactly when they fall on the same second of the hour |
| JieSuoUtils.EncodedIn | accessibility/src/main/java/com/google/android/accessibility/ext/utils/JieSuoUtils.kt:329-332 | the i-th point is stored as "i:x,y" |
| JieSuoUtils.SavedPosition | accessibility/src/main/java/com/google/android/accessibility/ext/utils/JieSuoUtils.kt:329-332 | every stored string is "i:x,y" for some saved position i |
| JieSuoUtils.EncodedParts | accessibility/src/main/java/com/google/android/accessibility/ext/utils/JieSuoUtils.kt:345 | a stored string splits on ":" into the index and the coordinates |
| JieSuoUtils.CoordinateParts | accessibility/src/main/java/com/google/android/accessibility/ext/utils/JieSuoUtils.kt:347 | the coordinates split on "," into x and y |
| JieSuoUtils.ParseEncoded | accessibility/src/main/java/com/google/android/accessibility/ext/utils/JieSuoUtils.kt:343-353 | parsing a stored string gives back its index and point |
| JieSuoUtils.MapNotNullTotal | accessibility/src/main/java/com/google/android/accessibility/ext/utils/JieSuoUtils.kt:343-353 | when no entry fails to parse, mapNotNull keeps one result per entry, in order |
| JieSuoUtils.InsertByIndexPermutes | accessibility/src/main/java/com/google/android/accessibility/ext/utils/JieSuoUtils.kt:354 | insertion adds exactly the new entry |
| JieSuoUtils.InsertByIndexSorted | accessibility/src/main/java/com/google/android/accessibility/ext/utils/JieSuoUtils.kt:354 | insertion keeps the entries sorted by index |
| JieSuoUtils.SortByIndexCorrect | accessibility/src/main/java/com/google/android/accessibility/ext/utils/JieSuoUtils.kt:354 | sortedBy returns the entries sorted by index, as a permutation |
| JieSuoUtils.InsertByIndexStrict | accessibility/src/main/java/com/google/android/accessibility/ext/utils/JieSuoUtils.kt:354 | with distinct indices insertion keeps the order strict and adds exactly the new entry |
| JieSuoUtils.SortByIndexStrict | accessibility/src/main/java/com/google/android/accessibility/ext/utils/JieSuoUtils.kt:354 | with distinct indices the sorted list is strictly increasing and has the same members |
| JieSuoUtils.StrictSameMembers | accessibility/src/main/java/com/google/android/accessibility/ext/utils/JieSuoUtils.kt:354 | two strictly sorted lists with the same members are equal, so the result does not depend on set order |
| JieSuoUtils.SameMembersEmpty | accessibility/src/main/java/com/google/android/accessibility/ext/utils/JieSuoUtils.kt:354 | lists with the same members are empty together |
| JieSuoUtils.Points | accessibility/src/main/java/com/google/android/accessibility/ext/utils/JieSuoUtils.kt:355 | the points are taken in order |
| JieSuoUtils.ParsedSaved | accessibility/src/main/java/com/google/android/accessibility/ext/utils/JieSuoUtils.kt:339-356 | every stored string, read in any order, parses to a saved position and its point |
| JieSuoUtils.SavedIndicesDistinct | accessibility/src/main/java/com/google/android/accessibility/ext/utils/JieSuoUtils.kt:339-356 | the parsed entries have distinct indices |
| JieSuoUtils.SavedMembers | accessibility/src/main/java/com/google/android/accessibility/ext/utils/JieSuoUtils.kt:339-356 | the parsed entries are exactly the saved (position, point) pairs |
| JieSuoUtils.SaveThenRead | accessibility/src/main/java/com/google/android/accessibility/ext/utils/JieSuoUtils.kt:323-356 | reading back a saved list gives the same points in the same order, whatever order the set yields |
| JieSuoUtils.LookupSound | accessibility/src/main/java/com/google/android/accessibility/ext/utils/JieSuoUtils.kt:365-388 | every returned number was asked for and comes from a stored string |
| JieSuoUtils.LookupComplete | accessibility/src/main/java/com/google/android/accessibility/ext/utils/JieSuoUtils.kt:365-388 | every stored string whose number was asked for is in the result |
| JieSuoUtils.NumberedEncoded | accessibility/src/main/java/com/google/android/accessibility/ext/utils/JieSuoUtils.kt:375 | position i is returned as number i + 1 |
| JieSuoUtils.SavedNumberValue | accessibility/src/main/java/com/google/android/accessibility/ext/utils/JieSuoUtils.kt:365-388 | a number read from a saved list is between 1 and its length and maps to that point |
| JieSuoUtils.SavedNumberFound | accessibility/src/main/java/com/google/android/accessibility/ext/utils/JieSuoUtils.kt:365-388 | every number between 1 and the list length has its stored string |
| JieSuoUtils.NumbersFromSaved | accessibility/src/main/java/com/google/android/accessibility/ext/utils/JieSuoUtils.kt:365-388 | after saving, number k is found exactly when it was asked for and 1 <= k <= length, and maps to point k - 1 |
| JieSuoUtils.KeypadLayout | accessibility/src/main/java/com/google/android/accessibility/ext/utils/JieSuoUtils.kt:819-821 | digits 1 to 9 fill a 3x3 grid row by row, 0 sits below 8, and distinct digits get distinct cells |
| JieSuoUtils.SomeHasTextAppend | accessibility/src/main/java/com/google/android/accessibility/ext/utils/JieSuoUtils.kt:405-450 | some node of a concatenation has text exactly when some node of a part does |
| JieSuoUtils.AnyTextIsSomeNode | accessibility/src/main/java/com/google/android/accessibility/ext/utils/JieSuoUtils.kt:405-450 | a tree has text exactly when some node in its preorder has text or a description |
| JieSuoUtils.AnyTextFromIsSomeNode | accessibility/src/main/java/com/google/android/accessibility/ext/utils/JieSuoUtils.kt:405-450 | the same, for the children from position i on |
| JieSuoUtils.CheckLockscreenReadable | accessibility/src/main/java/com/google/android/accessibility/ext/utils/JieSuoUtils.kt:405-450 | null root gives ROOT_NULL, a childless root NO_CHILDREN, otherwise the stack walk reports FULLY_READABLE exactly when some node has text |
| JieSuoUtils.DigitParse | accessibility/src/main/java/com/google/android/accessibility/ext/utils/JieSuoUtils.kt:610-621 | a one-character string parses as an Int exactly when it is a digit |
| JieSuoUtils.LockScreen.constructor | accessibility/src/main/java/com/google/android/accessibility/ext/utils/JieSuoUtils.kt:787-791 | the grid starts uninitialised |
| JieSuoUtils.LockScreen.SaveLockPoints | accessibility/src/main/java/com/google/android/accessibility/ext/utils/JieSuoUtils.kt:323-336 | an empty list changes nothing; otherwise the group holds exactly the encoded points |
| JieSuoUtils.LockScreen.GetSavedLockPoints | accessibility/src/main/java/com/google/android/accessibility/ext/utils/JieSuoUtils.kt:339-356 | the result is the stored strings, in the set order, parsed and sorted by index |
| JieSuoUtils.LockScreen.GetLockPointsByNumbers | accessibility/src/main/java/com/google/android/accessibility/ext/utils/JieSuoUtils.kt:365-388 | no numbers gives an empty map; otherwise the map is a lookup that is sound and complete for the stored strings |
| JieSuoUtils.LockScreen.Init | accessibility/src/main/java/com/google/android/accessibility/ext/utils/JieSuoUtils.kt:796-810 | the grid is initialised from the first point |
| JieSuoUtils.LockScreen.GetPoint | accessibility/src/main/java/com/google/android/accessibility/ext/utils/JieSuoUtils.kt:815-827 | before init it fails with "LockGrid159 not initialized"; after, it returns the digit cell |
| JieSuoUtils.LockScreen.InitFromSavedPoints | accessibility/src/main/java/com/google/android/accessibility/ext/utils/JieSuoUtils.kt:580-603 | the grid is initialised, from saved points 1, 2, 3 or the built-in defaults |
| JieSuoUtils.LockScreen.FallbackStrategy | accessibility/src/main/java/com/google/android/accessibility/ext/utils/JieSuoUtils.kt:572-654 | without nodes the grid gets initialised and a non-digit character throws; otherwise the result is true exactly when every input succeeded |
| KeyguardUnLock.GetDeviceLockState | accessibility/src/main/java/com/google/android/accessibility/ext/utils/KeyguardUnLock.kt:57-79 | a missing KeyguardManager reports unlocked and not secure |
| KeyguardUnLock.LockStateFaithful | accessibility/src/main/java/com/google/android/accessibility/ext/utils/KeyguardUnLock.kt:57-79 | the state is Unlocked exactly when the chosen flag is clear, and two states agree exactly when the locked and secure flags do |
| KeyguardUnLock.IsOnAgreesWithLockState | accessibility/src/main/java/com/google/android/accessibility/ext/utils/KeyguardUnLock.kt:306-335 | keyguardIsOn and deviceIsOn are the unlocked answers of getDeviceLockState by keyguard and by device |
| KeyguardUnLock.GetLockID | accessibility/src/main/java/com/google/android/accessibility/ext/utils/KeyguardUnLock.kt:190-216 | the id is always a SystemUI id |
| KeyguardUnLock.LockIDChoices | accessibility/src/main/java/com/google/android/accessibility/ext/utils/KeyguardUnLock.kt:190-216 | the generic digit_text id is chosen exactly when the brand is not OPPO, IQOO or VIVO, compared ignoring case |
| KeyguardUnLock.FirstLockView | accessibility/src/main/java/com/google/android/accessibility/ext/utils/KeyguardUnLock.kt:228-262 | the view id of the first lock-view node, or none exactly when no node is one |
| KeyguardUnLock.FirstLockViewAppend | accessibility/src/main/java/com/google/android/accessibility/ext/utils/KeyguardUnLock.kt:228-262 | the first match in a concatenation comes from the first part when there is one |
| KeyguardUnLock.FindLockViewIsFirst | accessibility/src/main/java/com/google/android/accessibility/ext/utils/KeyguardUnLock.kt:228-262 | the recursive search returns the first lock view in preorder |
| KeyguardUnLock.FindLockViewFromIsFirst | accessibility/src/main/java/com/google/android/accessibility/ext/utils/KeyguardUnLock.kt:228-262 | the same, for the children from position i on |
| KeyguardUnLock.GetLockViewID | accessibility/src/main/java/com/google/android/accessibility/ext/utils/KeyguardUnLock.kt:220-226 | the found lock-view id, else the brand id |
| KeyguardUnLock.UnlockScreenNew | accessibility/src/main/java/com/google/android/accessibility/ext/utils/KeyguardUnLock.kt:449-511 | no service, API below 24 or an empty password types nothing and fails; otherwise every character is typed and the result is true exactly when no click failed |
| NotificationCodes.GenerateCode | accessibility/src/main/java/com/google/android/accessibility/ext/utils/NotificationUtilXpq.kt:497-502 | the code has the requested length (0 for a non-positive one) and only digits |
| NotificationCodes.EveryCodeReachable | accessibility/src/main/java/com/google/android/accessibility/ext/utils/NotificationUtilXpq.kt:497-502 | every digit string can be drawn |
| NotificationCodes.ReachablePrefix | accessibility/src/main/java/com/google/android/accessibility/ext/utils/NotificationUtilXpq.kt:497-502 | draws that follow a code produce its prefixes |
| NotificationCodes.LabelBeforeIsLabelList | accessibility/src/main/java/com/google/android/accessibility/ext/utils/NotificationUtilXpq.kt:703-716 | the label check matches exactly the label alternatives of the first pattern |
| NotificationCodes.LabelsCoverAlternation | accessibility/src/main/java/com/google/android/accessibility/ext/utils/NotificationUtilXpq.kt:703-716 | every label match is one of the listed alternatives |
| NotificationCodes.AlternationCoversLabel | accessibility/src/main/java/com/google/android/accessibility/ext/utils/NotificationUtilXpq.kt:703-716 | every listed alternative is recognised |
| NotificationCodes.DigitRun | accessibility/src/main/java/com/google/android/accessibility/ext/utils/NotificationUtilXpq.kt:703-716 | the maximal run of digits from a position |
| NotificationCodes.MatchText | accessibility/src/main/java/com/google/android/accessibility/ext/utils/NotificationUtilXpq.kt:703-716 | a match is 4 to 6 digits taken from the text at that position |
| NotificationCodes.FirstMatch | accessibility/src/main/java/com/google/android/accessibility/ext/utils/NotificationUtilXpq.kt:703-716 | the leftmost position where the pattern matches, or none exactly when it matches nowhere |
| NotificationCodes.ExtractVerificationCode | accessibility/src/main/java/com/google/android/accessibility/ext/utils/NotificationUtilXpq.kt:693-718 | the method returns what VerificationCode defines |
| NotificationCodes.VerificationCodeShape | accessibility/src/main/java/com/google/android/accessibility/ext/utils/NotificationUtilXpq.kt:693-718 | no keyword gives (false, null); found exactly when a code is returned; a code is 4 to 6 digits occurring in the text with spaces removed |
| NotificationCodes.LabelledCodeWins | accessibility/src/main/java/com/google/android/accessibility/ext/utils/NotificationUtilXpq.kt:703-716 | when the labelled pattern matches, its first match is returned |
| NotificationCodes.SampleVerificationCode | accessibility/src/main/java/com/google/android/accessibility/ext/utils/NotificationUtilXpq.kt:693-718 | "验证码为123456。" yields (true, "123456") |
| NotificationCodes.FirstWindow | accessibility/src/main/java/com/google/android/accessibility/ext/utils/NotificationUtilXpq.kt:752-768 | the leftmost window of n digits, or none exactly when there is none |
| NotificationCodes.FindPackageCode | accessibility/src/main/java/com/google/android/accessibility/ext/utils/NotificationUtilXpq.kt:752-768 | a found code is 8 or 6 digits |
| NotificationCodes.PackageCodeFound | accessibility/src/main/java/com/google/android/accessibility/ext/utils/NotificationUtilXpq.kt:752-768 | a code is found exactly when the text has 6 consecutive digits; it is the leftmost 8-digit run when one exists, else the leftmost 6-digit run |
| NotificationCodes.ExtractPackageCode | accessibility/src/main/java/com/google/android/accessibility/ext/utils/NotificationUtilXpq.kt:729-749 | found exactly when a pickup keyword and a code are present; otherwise the default result; on success the code, text, intent and code type are reported |
| NotificationCodes.CodeTypeChoice | accessibility/src/main/java/com/google/android/accessibility/ext/utils/NotificationUtilXpq.kt:729-749 | the code type is Cainiao, Hive Box or the default, chosen by the keywords in that order |
| NotificationListener.UniqueKeyFields | accessibility/src/main/java/com/google/android/accessibility/notification/NotificationListenerServiceAbstract.kt:168-178 | the unique key splits back into its six fields when they hold no "|" |
| NotificationListener.UniqueKeyInjective | accessibility/src/main/java/com/google/android/accessibility/notification/NotificationListenerServiceAbstract.kt:168-178 | two notifications share a unique key exactly when those six fields agree |
| NotificationListener.IntervalStep | accessibility/src/main/java/com/google/android/accessibility/notification/NotificationListenerServiceAbstract.kt:453-481 | a call is accepted exactly when its key differs from the last and 500 ms have passed, and then both are recorded; otherwise nothing changes |
| NotificationListener.IntervalRun | accessibility/src/main/java/com/google/android/accessibility/notification/NotificationListenerServiceAbstract.kt:453-481 | one decision per call |
| NotificationListener.AcceptedAfterRecorded | accessibility/src/main/java/com/google/android/accessibility/notification/NotificationListenerServiceAbstract.kt:453-481 | with non-decreasing times an accepted call is at least 500 ms after the initial record |
| NotificationListener.AcceptedCallsSpaced | accessibility/src/main/java/com/google/android/accessibility/notification/NotificationListenerServiceAbstract.kt:453-481 | any two accepted calls are at least 500 ms apart |
| NotificationListener.NotificationFilter.constructor | accessibility/src/main/java/com/google/android/accessibility/notification/NotificationListenerServiceAbstract.kt:109-117 | no key recorded, times 0 |
| NotificationListener.NotificationFilter.ShouldHandle | accessibility/src/main/java/com/google/android/accessibility/notification/NotificationListenerServiceAbstract.kt:415-448 | a new key is handled and recorded; a repeated key is handled again only after more than 1000 ms |
| NotificationListener.NotificationFilter.Should2Handle | accessibility/src/main/java/com/google/android/accessibility/notification/NotificationListenerServiceAbstract.kt:453-481 | the decision and new fields are IntervalStep's |
| NotificationListener.FindFirstNonEmpty | accessibility/src/main/java/com/google/android/accessibility/notification/NotificationListenerServiceAbstract.kt:699-708 | a negative limit fails; otherwise the first usable candidate among the first limit ones, or none exactly when none is usable |
| NotificationUtil.FirstMaxIndex | accessibility/src/main/java/com/google/android/accessibility/ext/utils/NotificationUtil.kt:114-117 | the first index with the greatest post time |
| NotificationUtil.Latest | accessibility/src/main/java/com/google/android/accessibility/ext/utils/NotificationUtil.kt:114-117 | null or empty gives null; otherwise a notification from the array with the greatest post time, the first such |
| NotificationUtil.InsertCounts | accessibility/src/main/java/com/google/android/accessibility/ext/utils/NotificationUtil.kt:121-123 | insertion adds exactly the new element |
| NotificationUtil.InsertSorted | accessibility/src/main/java/com/google/android/accessibility/ext/utils/NotificationUtil.kt:121-123 | insertion keeps newest-first order |
| NotificationUtil.InsertAtTime | accessibility/src/main/java/com/google/android/accessibility/ext/utils/NotificationUtil.kt:121-123 | insertion keeps the order among equal post times (stable) |
| NotificationUtil.SortNewestFirstCorrect | accessibility/src/main/java/com/google/android/accessibility/ext/utils/NotificationUtil.kt:121-123 | the sort is newest first, a permutation, and stable |
| NotificationUtil.AllSortedByTimeCorrect | accessibility/src/main/java/com/google/android/accessibility/ext/utils/NotificationUtil.kt:121-123 | null gives an empty list; otherwise a stable newest-first permutation |
| NotificationUtil.FirstAtLatestTime | accessibility/src/main/java/com/google/android/accessibility/ext/utils/NotificationUtilXpq.kt:235-238 | the latest is the first notification at the greatest post time |
| NotificationUtil.SortedHeadIsLatest | accessibility/src/main/java/com/google/android/accessibility/ext/utils/NotificationUtilXpq.kt:235-252 | the head of the sorted list is getLatestNotification's result |
| NotificationUtil.SecondLatestCorrect | accessibility/src/main/java/com/google/android/accessibility/ext/utils/NotificationUtilXpq.kt:242-245 | there is a second latest exactly when there are two notifications; it is no later than the latest and no later than any of the rest |
| NotificationUtil.StringOrFallback | accessibility/src/main/java/com/google/android/accessibility/ext/utils/NotificationUtil.kt:264-268 | non-blank text is returned; blank or missing text gives the String value or the fallback |
| NotificationUtil.NotificationData | accessibility/src/main/java/com/google/android/accessibility/ext/utils/NotificationUtil.kt:255-275 | null extras give the two placeholders; otherwise the title and text, each with its fallback |
| NotificationUtil.NotificationDataWithBigText | accessibility/src/main/java/com/google/android/accessibility/ext/utils/NotificationUtilXpq.kt:392-417 | the title is read as before; without a big text the result equals NotificationData; with no text the big text is used |
| NotificationUtil.ReadTextNotBlank | accessibility/src/main/java/com/google/android/accessibility/ext/utils/NotificationUtil.kt:264-268 | with a non-blank fallback the result is non-blank unless a blank String is stored |
| OneShotContinuation.OneShot.constructor | accessibility/src/main/java/com/google/android/accessibility/ext/utils/OneShotContinuation.kt:8-11 | not finished, nothing resumed |
| OneShotContinuation.OneShot.Finish | accessibility/src/main/java/com/google/android/accessibility/ext/utils/OneShotContinuation.kt:13-17 | the first finish resumes with the value; later calls change nothing |
| OneShotContinuation.OneShot.FinishWithException | accessibility/src/main/java/com/google/android/accessibility/ext/utils/OneShotContinuation.kt:19-23 | the first finish resumes with the exception; later calls change nothing |
| OneShotContinuation.OneShot.IsFinished | accessibility/src/main/java/com/google/android/accessibility/ext/utils/OneShotContinuation.kt:25 | finished exactly when one resumption happened |
| LatestPendingIntentStore.Store.constructor | accessibility/src/main/java/com/google/android/accessibility/notification/LatestPendingIntentStore.kt:13 | the store starts empty |
| LatestPendingIntentStore.Store.SaveLatest | accessibility/src/main/java/com/google/android/accessibility/notification/LatestPendingIntentStore.kt:16-19 | a null intent keeps the previous one; otherwise the pair replaces it |
| LatestPendingIntentStore.Store.Peek | accessibility/src/main/java/com/google/android/accessibility/notification/LatestPendingIntentStore.kt:22 | returns the stored pair |
| LatestPendingIntentStore.Store.GetAndClearLatest | accessibility/src/main/java/com/google/android/accessibility/notification/LatestPendingIntentStore.kt:28-30 | returns the stored pair and empties the store |
| LatestPendingIntentStore.Store.Clear | accessibility/src/main/java/com/google/android/accessibility/notification/LatestPendingIntentStore.kt:33-36 | empties the store |
| RecentsUtils.WithExcluded | accessibility/src/main/java/com/google/android/accessibility/ext/utils/RecentsUtils.kt:68-73 | only the excluded flag changes |
| RecentsUtils.MatchCount | accessibility/src/main/java/com/google/android/accessibility/ext/utils/RecentsUtils.kt:68-73 | at most one per task |
| RecentsUtils.MatchCountPositions | accessibility/src/main/java/com/google/android/accessibility/ext/utils/RecentsUtils.kt:68-73 | the count is the number of matching task positions |
| RecentsUtils.Recents.constructor | accessibility/src/main/java/com/google/android/accessibility/ext/utils/RecentsUtils.kt:21 | no class is always hidden |
| RecentsUtils.Recents.RemoveAlwaysHidden | accessibility/src/main/java/com/google/android/accessibility/ext/utils/RecentsUtils.kt:187-190 | only that name leaves the set |
| RecentsUtils.Recents.SetExcludeFromRecents | accessibility/src/main/java/com/google/android/accessibility/ext/utils/RecentsUtils.kt:35-104 | below API 24 nothing; targets join the always-hidden set; with targets the matching tasks are hidden and counted; without, every task is hidden or shown by exclude or the set |
| RecentsUtils.Recents.ExcludeTaskForActivityInstance | accessibility/src/main/java/com/google/android/accessibility/ext/utils/RecentsUtils.kt:114-151 | the first task of that class, if any, takes the exclude flag (forced by the always-hidden set) |
| RecentsUtils.Recents.EnforceAlwaysHiddenForActivity | accessibility/src/main/java/com/google/android/accessibility/ext/utils/RecentsUtils.kt:159-179 | the class joins the always-hidden set and every matching task is hidden |
| ScrollUntilEnd.BuildListFingerprint | accessibility/src/main/java/com/google/android/accessibility/ext/utils/ScrollUntilEndTask.kt:158-172 | null for an empty list or a null last child; otherwise the last child's id, text and bottom |
| ScrollUntilEnd.Changed | accessibility/src/main/java/com/google/android/accessibility/ext/utils/ScrollUntilEndTask.kt:177-199 | a change needs a scroll, and a scroll counts as a change exactly when the fingerprint differs |
| ScrollUntilEnd.StableCountMeans | accessibility/src/main/java/com/google/android/accessibility/ext/utils/ScrollUntilEndTask.kt:83-89 | the stable counter reaches t exactly when the last t steps were stable |
| ScrollUntilEnd.ScrollTask.constructor | accessibility/src/main/java/com/google/android/accessibility/ext/utils/ScrollUntilEndTask.kt:29-30 | idle and unfinished |
| ScrollUntilEnd.ScrollTask.Finish | accessibility/src/main/java/com/google/android/accessibility/ext/utils/ScrollUntilEndTask.kt:108-116 | the first finish reports once; later ones change nothing |
| ScrollUntilEnd.ScrollTask.Cancel | accessibility/src/main/java/com/google/android/accessibility/ext/utils/ScrollUntilEndTask.kt:35-38 | the task ends without a report |
| ScrollUntilEnd.ScrollTask.Start | accessibility/src/main/java/com/google/android/accessibility/ext/utils/ScrollUntilEndTask.kt:51-103 | a non-list finishes with true, a non-positive limit with false, else scrolling begins; a finished task stays finished |
| ScrollUntilEnd.ScrollTask.Step | accessibility/src/main/java/com/google/android/accessibility/ext/utils/ScrollUntilEndTask.kt:69-78 | the scroll limit reached finishes with false, else a scroll is issued |
| ScrollUntilEnd.ScrollTask.OnScrolled | accessibility/src/main/java/com/google/android/accessibility/ext/utils/ScrollUntilEndTask.kt:78-99 | one step is recorded and counted; enough stable steps finish with true, else the next step is queued |
| ScrollUntilEnd.ScoreListCandidate | accessibility/src/main/java/com/google/android/accessibility/ext/utils/ScrollUntilEndEntry.kt:109-144 | the score lies between -20 and 240 |
| ScrollUntilEnd.ListLikeScoresPositive | accessibility/src/main/java/com/google/android/accessibility/ext/utils/ScrollUntilEndEntry.kt:109-144 | a list-like node scores positive |
| ScrollUntilEnd.ListWidgetOutscores | accessibility/src/main/java/com/google/android/accessibility/ext/utils/ScrollUntilEndEntry.kt:109-144 | a list widget with two children beats any non-list node without collection info |
| ScrollUntilEnd.ScanBestAppend | accessibility/src/main/java/com/google/android/accessibility/ext/utils/ScrollUntilEndEntry.kt:84-107 | the scan of a concatenation continues from the scan of its first part |
| ScrollUntilEnd.ScanBestMax | accessibility/src/main/java/com/google/android/accessibility/ext/utils/ScrollUntilEndEntry.kt:84-107 | the best score is at least every candidate's |
| ScrollUntilEnd.ScanBestWinner | accessibility/src/main/java/com/google/android/accessibility/ext/utils/ScrollUntilEndEntry.kt:84-107 | a best above the start is the first candidate with that score |
| ScrollUntilEnd.Dfs | accessibility/src/main/java/com/google/android/accessibility/ext/utils/ScrollUntilEndEntry.kt:90-103 | the recursive walk computes the preorder scan |
| ScrollUntilEnd.FindTargetList | accessibility/src/main/java/com/google/android/accessibility/ext/utils/ScrollUntilEndEntry.kt:84-107 | none exactly when no candidate scores positive; otherwise the first candidate in preorder with the highest score |
| ScrollUntilEnd.ScrollEntry.constructor | accessibility/src/main/java/com/google/android/accessibility/ext/utils/ScrollUntilEndEntry.kt:17-20 | nothing pending, no task |
| ScrollUntilEnd.ScrollEntry.Start | accessibility/src/main/java/com/google/android/accessibility/ext/utils/ScrollUntilEndEntry.kt:27-67 | the request replaces the pending one |
| ScrollUntilEnd.ScrollEntry.OnTaskFinished | accessibility/src/main/java/com/google/android/accessibility/ext/utils/ScrollUntilEndEntry.kt:55-61 | only the current task's result is delivered, and it clears the current task |
| ScrollUntilEnd.ScrollEntry.RunPending | accessibility/src/main/java/com/google/android/accessibility/ext/utils/ScrollUntilEndEntry.kt:41-63 | the old task is cancelled; a new task starts and finishes or keeps scrolling as its start rules say |
| ScrollUntilEnd.ScrollEntry.Cancel | accessibility/src/main/java/com/google/android/accessibility/ext/utils/ScrollUntilEndEntry.kt:74-81 | the pending request is dropped and the task cancelled |
| SelectToSpeak.Expired | accessibility/src/main/java/com/google/android/accessibility/selecttospeak/SelectToSpeakServiceAbstract.kt:502-511 | exactly the keys held for longer than 3000 ms |
| SelectToSpeak.SelectToSpeakState.constructor | accessibility/src/main/java/com/google/android/accessibility/selecttospeak/SelectToSpeakServiceAbstract.kt:50-63 | all maps empty |
| SelectToSpeak.SelectToSpeakState.ShouldHandle | accessibility/src/main/java/com/google/android/accessibility/selecttospeak/SelectToSpeakServiceAbstract.kt:244-253 | an event is handled exactly when its time differs from the last, which is recorded |
| SelectToSpeak.SelectToSpeakState.ShouldHandleWindowContentChanged | accessibility/src/main/java/com/google/android/accessibility/selecttospeak/SelectToSpeakServiceAbstract.kt:441-451 | handled exactly when 300 ms have passed for that package (null as "unknown_pkg"), and then the time is recorded |
| SelectToSpeak.SelectToSpeakState.SubmitNodeForChild | accessibility/src/main/java/com/google/android/accessibility/selecttospeak/SelectToSpeakServiceAbstract.kt:461-483 | a taken copy is owned with its time; any other copy is recycled |
| SelectToSpeak.SelectToSpeakState.ReleaseNode | accessibility/src/main/java/com/google/android/accessibility/selecttospeak/SelectToSpeakServiceAbstract.kt:488-499 | an owned node is released and recycled; otherwise nothing |
| SelectToSpeak.SelectToSpeakState.CleanupExpiredNodes | accessibility/src/main/java/com/google/android/accessibility/selecttospeak/SelectToSpeakServiceAbstract.kt:502-511 | exactly the expired entries leave both maps, and the owned ones are recycled once |
| SelectToSpeak.SelectToSpeakState.CleanupOwnershipMap | accessibility/src/main/java/com/google/android/accessibility/selecttospeak/SelectToSpeakServiceAbstract.kt:514-519 | every owned node is recycled once and ownership is emptied |
| SelectToSpeak.SelectToSpeakState.ClaimNodeDirectly | accessibility/src/main/java/com/google/android/accessibility/selecttospeak/SelectToSpeakServiceAbstract.kt:533-542 | a claim succeeds exactly for a new non-null node, which becomes owned |
| SelectToSpeak.ClaimedCopySurvivesCleanup | accessibility/src/main/java/com/google/android/accessibility/selecttospeak/SelectToSpeakServiceAbstract.kt:502-542 | after `ClaimNodeDirectly`, `CleanupExpiredNodes` at any time leaves the claimed copy owned and unrecycled |
| SelectToSpeak.TakenCopyExpiresAfterLimit | accessibility/src/main/java/com/google/android/accessibility/selecttospeak/SelectToSpeakServiceAbstract.kt:461-511 | after `SubmitNodeForChild` takes a copy at t, `CleanupExpiredNodes` at now keeps it owned iff now - t <= 3000 and recycles it iff more has passed |
| SettingsRouter.Unflatten | app/src/main/java/com/lygttpod/android/auto/Utilshezhi.java:294 | a component is found only when the text has a "/" followed by a class |
| SettingsRouter.Dispatch | app/src/main/java/com/lygttpod/android/auto/Utilshezhi.java:291-300 | a candidate with "/" becomes a component, any other a launch intent |
| SettingsRouter.Dispatched | app/src/main/java/com/lygttpod/android/auto/Utilshezhi.java:288-300 | one intent per candidate, in order |
| SettingsRouter.FirstStarting | app/src/main/java/com/lygttpod/android/auto/Utilshezhi.java:288-307 | the first intent that starts, or none exactly when none does |
| SettingsRouter.Chain | app/src/main/java/com/lygttpod/android/auto/Utilshezhi.java:310-323 | a fallback chain starts its first working intent and crashes exactly when none works |
| SettingsRouter.OpenFromTable | app/src/main/java/com/lygttpod/android/auto/Utilshezhi.java:282-309 | the loop opens what TableHits defines and sets has exactly when something opened |
| SettingsRouter.StartToAutoStartSetting | app/src/main/java/com/lygttpod/android/auto/Utilshezhi.java:279-327 | the method does what AutoStart defines |
| SettingsRouter.RouteVendorsDistinct | app/src/main/java/com/lygttpod/android/auto/Utilshezhi.java:164-274 | no two table keys are equal ignoring case |
| SettingsRouter.TableHitsOnly | app/src/main/java/com/lygttpod/android/auto/Utilshezhi.java:284-309 | only the matching entry contributes |
| SettingsRouter.OnlyMatch | app/src/main/java/com/lygttpod/android/auto/Utilshezhi.java:284-287 | a manufacturer matches at most one table key |
| SettingsRouter.TableOpensFirstCandidate | app/src/main/java/com/lygttpod/android/auto/Utilshezhi.java:284-309 | the matching vendor's first working candidate is the only one opened |
| SettingsRouter.AutoStartOpensFirstCandidate | app/src/main/java/com/lygttpod/android/auto/Utilshezhi.java:279-327 | on a listed vendor the first working candidate is opened and nothing crashes |
| SettingsRouter.AutoStartFallsBack | app/src/main/java/com/lygttpod/android/auto/Utilshezhi.java:310-323 | when no candidate opens, app details is tried, then system settings |
| SettingsRouter.TableHitsIgnoreCase | app/src/main/java/com/lygttpod/android/auto/Utilshezhi.java:287 | manufacturers equal ignoring case open the same intents |
| SettingsRouter.AutoStartIgnoresCase | app/src/main/java/com/lygttpod/android/auto/Utilshezhi.java:287 | the whole routine depends on the manufacturer only up to case |
| SettingsRouter.EveryRouteEndsWithPackage | app/src/main/java/com/lygttpod/android/auto/Utilshezhi.java:164-274 | every list ends with a bare package, which Dispatch opens through its launch intent |
| SettingsRouter.PermissionRoutes | app/src/main/java/com/lygttpod/android/auto/Utilshezhi.java:331-341 | only "blackshark" reaches the MIUI editor and only "meizu" the Meizu screen; the Huawei chain is unreachable |
| SettingsRouter.MiuiPermissionOrder | app/src/main/java/com/lygttpod/android/auto/Utilshezhi.java:348-363 | the MIUI editor, then the older editor, then app details, whose failure escapes |
| SettingsRouter.XiaomiAndHuaweiMissed | app/src/main/java/com/lygttpod/android/auto/Utilshezhi.java:333-341 | the brands "Xiaomi", "HUAWEI" and "HONOR" get the app details screen |
| SettingsRouter.IntendedPermissionRoutes | app/src/main/java/com/lygttpod/android/auto/Utilshezhi.java:333-341 | the corrected switch routes Xiaomi and Huawei/Honor brands in any case, and otherwise agrees with the code |
| SettingsRouter.IntendedReachesXiaomi | app/src/main/java/com/lygttpod/android/auto/Utilshezhi.java:333-334 | "Xiaomi" reaches the MIUI editor under the corrected switch |
| SettingsRouter.IntendedReachesHuawei | app/src/main/java/com/lygttpod/android/auto/Utilshezhi.java:337-338 | "HUAWEI" reaches the Huawei screen under the corrected switch |
| SettingsRouter.IntendedReachesHonor | app/src/main/java/com/lygttpod/android/auto/Utilshezhi.java:337-338 | "HONOR" reaches the Huawei screen under the corrected switch |
| StringHelper.Encrypt | accessibility/src/main/java/com/google/android/accessibility/ext/wcapi/StringHelper.kt:20-26 | each UTF-16 unit is shifted up by the secret, modulo 65536 |
| StringHelper.Decrypt | accessibility/src/main/java/com/google/android/accessibility/ext/wcapi/StringHelper.kt:12-18 | each unit is shifted down by the secret, modulo 65536 |
| StringHelper.ShiftBack | accessibility/src/main/java/com/google/android/accessibility/ext/wcapi/StringHelper.kt:12-26 | shifting one unit back undoes the shift |
| StringHelper.DecryptEncrypt | accessibility/src/main/java/com/google/android/accessibility/ext/wcapi/StringHelper.kt:12-26 | decrypt(encrypt(s)) == s and encrypt(decrypt(s)) == s |
| StringHelper.RestoreWithoutMarkers | accessibility/src/main/java/com/google/android/accessibility/ext/wcapi/StringHelper.kt:5-10 | text with neither marker is unchanged |
| StringHelper.RestoreRemovesYou | accessibility/src/main/java/com/google/android/accessibility/ext/wcapi/StringHelper.kt:28-30 | a one-character placeholder is gone from the result |
| TimeSecurity.TrustedNow | accessibility/src/main/java/com/google/android/accessibility/ext/utils/HYSJTimeSecurityManager.kt:93-103 | before a sync the wall clock; after, network time plus the boot time passed since |
| TimeSecurity.SystemTimeValid | accessibility/src/main/java/com/google/android/accessibility/ext/utils/HYSJTimeSecurityManager.kt:150-160 | valid before a sync; otherwise exactly when the drift is at most 30 minutes |
| TimeSecurity.OfflineExpired | accessibility/src/main/java/com/google/android/accessibility/ext/utils/HYSJTimeSecurityManager.kt:169-183 | expired before a sync; otherwise exactly when more than the hours have passed since |
| TimeSecurity.OfflinePassedMillis | accessibility/src/main/java/com/google/android/accessibility/ext/utils/HYSJTimeSecurityManager.kt:189-199 | Long.MAX_VALUE when unsynced; otherwise the time since the sync, never negative |
| TimeSecurity.OfflinePassedHours | accessibility/src/main/java/com/google/android/accessibility/ext/utils/HYSJTimeSecurityManager.kt:210-223 | Long.MAX_VALUE when unsynced; never negative |
| TimeSecurity.OfflineRemainMinutes | accessibility/src/main/java/com/google/android/accessibility/ext/utils/HYSJTimeSecurityManager.kt:236-253 | 0 when unsynced or with no limit; never negative |
| TimeSecurity.PassedHoursRoundDown | accessibility/src/main/java/com/google/android/accessibility/ext/utils/HYSJTimeSecurityManager.kt:210-223 | the hours are the passed millis rounded down |
| TimeSecurity.RemainingMinutesAgreeWithExpiry | accessibility/src/main/java/com/google/android/accessibility/ext/utils/HYSJTimeSecurityManager.kt:236-253 | minutes remain exactly when at least one minute of the limit is left, then offline mode has not expired, and never more than the limit |
| TimeSecurity.AfterSync | accessibility/src/main/java/com/google/android/accessibility/ext/utils/HYSJTimeSecurityManager.kt:71-103 | right after a sync the trusted time advances with the boot clock whatever the wall clock, and expiry counts from the sync |
| TimeSecurity.RecordRoundTrip | accessibility/src/main/java/com/google/android/accessibility/ext/utils/HYSJTimeSecurityManager.kt:77-78 | loading the stored record gives back the fields |
| TimeSecurity.MalformedRecordIgnored | accessibility/src/main/java/com/google/android/accessibility/ext/utils/HYSJTimeSecurityManager.kt:269-283 | a record without three fields leaves the state unchanged |
| TimeSecurity.StatusOf | accessibility/src/main/java/com/google/android/accessibility/ext/utils/HYSJTimeSecurityManager.kt:335-380 | valid exactly when neither offline, wall-clock nor membership expiry holds |
| TimeSecurity.StatusAgreesWithCheck | accessibility/src/main/java/com/google/android/accessibility/ext/utils/HYSJTimeSecurityManager.kt:112-141 | the status's valid flag is isKYSJValid's answer, and an unsynced clock is never valid |
| TimeSecurity.TrustedClock.constructor | accessibility/src/main/java/com/google/android/accessibility/ext/utils/HYSJTimeSecurityManager.kt:41-46 | unsynced, nothing stored |
| TimeSecurity.TrustedClock.Clear | accessibility/src/main/java/com/google/android/accessibility/ext/utils/HYSJTimeSecurityManager.kt:326-331 | the clock is unsynced and the stored record removed |
| TimeSecurity.TrustedClock.UpdateTrustedTime | accessibility/src/main/java/com/google/android/accessibility/ext/utils/HYSJTimeSecurityManager.kt:71-85 | the sync fields are set and the signed record stored |
| TimeSecurity.TrustedClock.LoadFromSp | accessibility/src/main/java/com/google/android/accessibility/ext/utils/HYSJTimeSecurityManager.kt:269-283 | a verified record is loaded; otherwise everything is cleared |
| TimeSecurity.TrustedClock.Init | accessibility/src/main/java/com/google/android/accessibility/ext/utils/HYSJTimeSecurityManager.kt:53-56 | opens the store and loads a record only if its signature checks |
| TimeSecurity.TrustedClock.IsKYSJValid | accessibility/src/main/java/com/google/android/accessibility/ext/utils/HYSJTimeSecurityManager.kt:112-141 | valid exactly when the record verifies and the membership check passes; a tampered record clears the clock |
| TimeSecurity.TrustedClock.CheckTimeSecurityStatus | accessibility/src/main/java/com/google/android/accessibility/ext/utils/HYSJTimeSecurityManager.kt:335-380 | a tampered record gives the tampered status and clears the clock; otherwise the status StatusOf defines |

## Left out

- Floating point: lock points are kept as integer coordinates. The grid's cell width and height arithmetic in `init` and the float `getDigitPoint` are not modelled. `LockScreen.GetPoint` returns the keypad cell of the digit rather than its pixel position.
- JieSuoUtils.LockScreen.GetPoint: states the cell, not the float coordinates computed from it, for the reason above.
- `toFloat()` on the stored coordinates is modelled as the integer parse, so a stored string with a fractional coordinate is treated as malformed.
- Iteration order of hash sets and maps is not modelled. `GetSavedLockPoints` takes the set's order as a ghost parameter and proves that the result does not depend on it. The route table's order does not matter because its keys are distinct ignoring case.
- Persistent storage (MMKV, SharedPreferences) becomes map fields. Toasts, logging, `sendLog`, sleeps and vibration are dropped.
- `Handler` delays and posting are not modelled as a queue. A scroll task's phase records which callback may run next, and the debounced runnable is a pending request run by `RunPending`.
- The lifecycle observer that unregisters a channel when its owner is destroyed is not modelled; the same effect is a call to `Unregister`.
- Concurrency is not modelled. `ConcurrentHashMap`, `CopyOnWriteArraySet`, `AtomicBoolean`, `AtomicReference` and `@Volatile` fields are single-threaded state.
- Nodes, receivers, contexts and owners are identified by numbers. `identityHashCode` collisions are not modelled.
- `Long` overflow in the time arithmetic is not modelled; the clocks are unbounded integers.
- Regular expressions are modelled by what they match. The verification-code patterns become digit-run scans with the label alternatives listed. The pick-up patterns become searches for 8- or 6-digit windows.
- Upper and lower case mapping covers ASCII letters only.
- Decimal.ParseInt: accepts only the ASCII digits '0'..'9', while Kotlin's `toInt`/`toIntOrNull`/`toLongOrNull` also accept every other Unicode decimal digit (such as U+0661), so on such text `AliveUtils.CompareVersions`, `TimeSecurity.TrustedClock.LoadFromSp`, `JieSuoUtils.ParseEncoded`, `JieSuoUtils.NumberedEncoded`, `JieSuoUtils.DigitParse` and `JieSuoUtils.LockScreen.FallbackStrategy` report a malformed number where the app reads a value; the Unicode digit tables are not modelled.
- FriendStatusHelper.FriendStore: `WxUserInfo` entries are values, while the app's entries are mutable objects and `userResultList` hands out the live list, so a caller changing an entry's status in place, and the aliasing that makes it visible in the store, is not modelled.
- The `FriendStatus` enum file is not part of this model; the five values the helper uses are declared where they are used.
- The scroll fingerprint compares `lastText` as a string, so styled `CharSequence` equality is not modelled.
- The per-task `try`/`catch` in `RecentsUtils` is not modelled. The delayed retries of `enforceAlwaysHiddenForActivity` run against the same task list, so only the first effective attempt is visible.
- A `ScrollTask` is started once; restarting a task object is not modelled.
- `BuildConfig` constants (`SECRET_LETTER`, `LOVE`, `YOU`) and the string resources for the placeholders are parameters.
- `PendingIntent` and `Throwable` are type parameters.
- The old `unlockScreen` and KeyguardUnLock's other helpers are not modelled: screen wake, gestures, node clicks, `wakeUpAndUnlock` and `lockScreen` are platform calls.
- `getAllSortedMessagingStyleByTime` is not modelled separately. It is the same stable newest-first sort keyed on the message timestamp, as `AllSortedByTimeCorrect` proves for posted notifications.
- The two-argument `getNotificationData` of NotificationUtilXpq, which reads MessagingStyle conversations, is not modelled. The `getNotificationData11` variants, which read bundled child notifications, are not modelled either.
- `isTitleAndContentEmpty` is modelled as a predicate used by `FindFirstNonEmpty` and carries no contract of its own.
- `checkLockscreenReadable` never returns `NOT_LOCK_SCREEN` in the code, and the model keeps that value unused.
- The network time fetch and `isNetworkConnected` are platform calls; their answers are parameters.

## Findings

| source | as written | input that shows it | evidently intended | confidence | as-written member | corrected member |
|---|---|---|---|---|---|---|
| app/src/main/java/com/lygttpod/android/auto/Utilshezhi.java:333-341 | `brand.toLowerCase()` is compared with "Xiaomi", "HUAWEI" and " HONOR", which contain upper-case letters (and a leading space), so those branches never match | Build.BRAND = "Xiaomi" (or "HUAWEI", "HONOR") opens the app details screen instead of the vendor permission editor | compare with "xiaomi", "huawei" and "honor" | high (not executed) | SettingsRouter.XiaomiAndHuaweiMissed | SettingsRouter.IntendedPermissionRoutes |
