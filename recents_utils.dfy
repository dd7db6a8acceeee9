/** `RecentsUtils`: hiding this app's tasks from the Recents screen, with a
    set of activities that stay hidden whatever the caller asks.

    The app's task list (`ActivityManager.appTasks`) is held in the object
    as `tasks`, each task with its base and top activity class names and its
    excluded-from-Recents flag. */
module RecentsUtils {
  import opened Wrappers

  const VERSION_CODES_N := 24

  /** An `AppTask`: the class names of its base and top activities (null
      when the task info or component is missing) and whether it is
      excluded from Recents. */
  datatype AppTask = AppTask(base: Option<string>, top: Option<string>, excluded: bool)

  /** `base in names || top in names`, a null name matching nothing. */
  predicate Matches(t: AppTask, names: set<string>)
  {
    (t.base.Some? && t.base.value in names) || (t.top.Some? && t.top.value in names)
  }

  /** The task with its excluded flag set. */
  function WithExcluded(t: AppTask, excluded: bool): (u: AppTask)
    ensures u.base == t.base && u.top == t.top && u.excluded == excluded
  {
    t.(excluded := excluded)
  }

  /** How many of `tasks` match `names`. */
  function MatchCount(tasks: seq<AppTask>, names: set<string>): (n: nat)
    ensures n <= |tasks|
  {
    if |tasks| == 0 then 0
    else MatchCount(tasks[..|tasks| - 1], names) + (if Matches(tasks[|tasks| - 1], names) then 1 else 0)
  }

  /** `MatchCount` is the size of the set of matching positions. */
  lemma {:induction false} MatchCountPositions(tasks: seq<AppTask>, names: set<string>)
    ensures MatchCount(tasks, names) == |set i | 0 <= i < |tasks| && Matches(tasks[i], names)|
  {
    if |tasks| > 0 {
      var p := tasks[..|tasks| - 1];
      MatchCountPositions(p, names);
      var before := set i | 0 <= i < |p| && Matches(p[i], names);
      var after := set i | 0 <= i < |tasks| && Matches(tasks[i], names);
      assert forall i :: 0 <= i < |p| ==> tasks[i] == p[i];
      if Matches(tasks[|tasks| - 1], names) {
        assert after == before + {|p|};
        assert |p| !in before;
      } else {
        assert after == before;
      }
    }
  }

  class Recents {
    /** `alwaysHiddenActivities`. */
    var alwaysHidden: set<string>
    var tasks: seq<AppTask>

    constructor(tasks0: seq<AppTask>)
      ensures alwaysHidden == {} && tasks == tasks0
    {
      alwaysHidden := {};
      tasks := tasks0;
    }

    /** `isAlwaysHidden(className)`. */
    predicate IsAlwaysHidden(className: string)
      reads this
    {
      className in alwaysHidden
    }

    /** `removeAlwaysHidden(className)`: only that name leaves the set. */
    method RemoveAlwaysHidden(className: string)
      modifies this
      ensures !IsAlwaysHidden(className)
      ensures alwaysHidden == old(alwaysHidden) - {className} && tasks == old(tasks)
    {
      alwaysHidden := alwaysHidden - {className};
    }

    /** `setExcludeFromRecents(exclude, targetActivities)` on a device at
        API level `sdkInt`; `available` is false when the context, the
        ActivityManager or its task list is missing.

        With targets, they join `alwaysHidden` for good and only the tasks
        showing one of them are hidden and counted; `exclude` is ignored.
        Without targets, every task is counted: one showing an always-hidden
        activity is hidden, any other gets `exclude`. */
    method SetExcludeFromRecents(exclude: bool, targets: seq<string>, sdkInt: int, available: bool)
      returns (count: int)
      modifies this
      ensures sdkInt < VERSION_CODES_N ==> count == 0 && alwaysHidden == old(alwaysHidden) && tasks == old(tasks)
      ensures sdkInt >= VERSION_CODES_N ==> alwaysHidden == old(alwaysHidden) + set x | x in targets
      ensures sdkInt >= VERSION_CODES_N && !available ==> count == 0 && tasks == old(tasks)
      ensures sdkInt >= VERSION_CODES_N && available && |targets| > 0 ==>
        var names := set x | x in targets;
        |tasks| == |old(tasks)|
        && count == MatchCount(old(tasks), names)
        && forall i :: 0 <= i < |tasks| ==>
             tasks[i] == (if Matches(old(tasks)[i], names) then WithExcluded(old(tasks)[i], true) else old(tasks)[i])
      ensures sdkInt >= VERSION_CODES_N && available && |targets| == 0 ==>
        |tasks| == |old(tasks)|
        && count == |tasks|
        && forall i :: 0 <= i < |tasks| ==>
             tasks[i] == WithExcluded(old(tasks)[i], Matches(old(tasks)[i], alwaysHidden) || exclude)
    {
      if sdkInt < VERSION_CODES_N {
        return 0;
      }
      var names := set x | x in targets;
      alwaysHidden := alwaysHidden + names;
      if !available {
        return 0;
      }
      count := 0;
      var i := 0;
      while i < |tasks|
        invariant 0 <= i <= |tasks| == |old(tasks)|
        invariant alwaysHidden == old(alwaysHidden) + names
        invariant tasks[i..] == old(tasks)[i..]
        invariant |targets| > 0 ==> count == MatchCount(old(tasks)[..i], names)
        invariant |targets| > 0 ==> forall k :: 0 <= k < i ==>
          tasks[k] == (if Matches(old(tasks)[k], names) then WithExcluded(old(tasks)[k], true) else old(tasks)[k])
        invariant |targets| == 0 ==> count == i
        invariant |targets| == 0 ==> forall k :: 0 <= k < i ==>
          tasks[k] == WithExcluded(old(tasks)[k], Matches(old(tasks)[k], alwaysHidden) || exclude)
      {
        var t := tasks[i];
        assert t == old(tasks)[i];
        assert old(tasks)[..i + 1][..i] == old(tasks)[..i];
        if |targets| > 0 {
          if Matches(t, names) {
            tasks := tasks[i := WithExcluded(t, true)];
            count := count + 1;
          }
        } else {
          var shouldForceHide := Matches(t, alwaysHidden);
          if shouldForceHide {
            tasks := tasks[i := WithExcluded(t, true)];
          } else {
            tasks := tasks[i := WithExcluded(t, exclude)];
          }
          count := count + 1;
        }
        i := i + 1;
      }
      assert old(tasks)[..i] == old(tasks);
    }

    /** `excludeTaskForActivityInstance(activity, exclude)` for the
        activity's class name: the first task showing it gets `exclude`
        (or true when the name is always hidden) and the answer is true;
        with no such task nothing changes and the answer is false. */
    method ExcludeTaskForActivityInstance(className: string, exclude: bool, sdkInt: int, available: bool)
      returns (found: bool)
      modifies this
      ensures alwaysHidden == old(alwaysHidden) && |tasks| == |old(tasks)|
      ensures sdkInt < VERSION_CODES_N || !available ==> !found && tasks == old(tasks)
      ensures sdkInt >= VERSION_CODES_N && available ==>
        (found <==> exists i :: 0 <= i < |tasks| && Matches(old(tasks)[i], {className}))
      ensures !found ==> tasks == old(tasks)
      ensures found ==> exists i :: (0 <= i < |tasks|
        && Matches(old(tasks)[i], {className})
        && (forall k :: 0 <= k < i ==> !Matches(old(tasks)[k], {className}))
        && tasks == old(tasks)[i := WithExcluded(old(tasks)[i], IsAlwaysHidden(className) || exclude)])
    {
      if sdkInt < VERSION_CODES_N || !available {
        return false;
      }
      var forceHide := className in alwaysHidden;
      var i := 0;
      while i < |tasks|
        invariant 0 <= i <= |tasks|
        invariant tasks == old(tasks) && alwaysHidden == old(alwaysHidden)
        invariant forall k :: 0 <= k < i ==> !Matches(tasks[k], {className})
      {
        var t := tasks[i];
        if (t.base.Some? && t.base.value == className) || (t.top.Some? && t.top.value == className) {
          assert Matches(t, {className});
          if forceHide {
            tasks := tasks[i := WithExcluded(t, true)];
          } else {
            tasks := tasks[i := WithExcluded(t, exclude)];
          }
          return true;
        }
        i := i + 1;
      }
      return false;
    }

    /** `enforceAlwaysHiddenForActivity(className, attempts)`: the name joins
        `alwaysHidden` and each of the `attempts` retries hides the tasks
        showing it; once at least one retry ran they are all hidden and no
        other task changed. */
    method EnforceAlwaysHiddenForActivity(className: string, attempts: int, sdkInt: int, available: bool)
      modifies this
      ensures sdkInt < VERSION_CODES_N ==> alwaysHidden == old(alwaysHidden) && tasks == old(tasks)
      ensures sdkInt >= VERSION_CODES_N ==> alwaysHidden == old(alwaysHidden) + {className}
      ensures |tasks| == |old(tasks)|
      ensures sdkInt >= VERSION_CODES_N && available && attempts >= 1 ==> forall i :: 0 <= i < |tasks| ==>
        tasks[i] == (if Matches(old(tasks)[i], {className}) then WithExcluded(old(tasks)[i], true) else old(tasks)[i])
      ensures !(sdkInt >= VERSION_CODES_N && available && attempts >= 1) ==> tasks == old(tasks)
    {
      if sdkInt < VERSION_CODES_N {
        return;
      }
      alwaysHidden := alwaysHidden + {className};
      var n := 0;
      while n < attempts
        invariant 0 <= n && (n == 0 || n <= attempts)
        invariant alwaysHidden == old(alwaysHidden) + {className}
        invariant |tasks| == |old(tasks)|
        invariant n == 0 || !available ==> tasks == old(tasks)
        invariant n > 0 && available ==> forall i :: 0 <= i < |tasks| ==>
          tasks[i] == (if Matches(old(tasks)[i], {className}) then WithExcluded(old(tasks)[i], true) else old(tasks)[i])
        decreases attempts - n
      {
        var _ := SetExcludeFromRecents(true, [className], sdkInt, available);
        assert (set x | x in [className]) == {className};
        n := n + 1;
      }
    }
  }
}
