/** `FriendStatusHelper`: the list of WeChat friends with the result of
    checking each one, and the views of it the UI shows. */
module FriendStatusHelper {
  import opened Wrappers

  /** `FriendStatus`, with the values this helper distinguishes. */
  datatype FriendStatus = NORMAL | UNKNOW | BLACK | DELETE | ACCOUNT_EXCEPTION

  /** `WxUserInfo(nickName, sendContent, status)`. */
  datatype WxUserInfo = WxUserInfo(nickName: string, sendContent: Option<string>, status: FriendStatus)

  /** `indexOfFirst { it.nickName == nick }`: the first position holding
      that nickname, or -1. */
  function IndexOfNick(list: seq<WxUserInfo>, nick: string): (r: int)
    ensures -1 <= r < |list|
    ensures r == -1 <==> forall k :: 0 <= k < |list| ==> list[k].nickName != nick
    ensures r >= 0 ==> list[r].nickName == nick && forall k :: 0 <= k < r ==> list[k].nickName != nick
  {
    if |list| == 0 then -1
    else if list[0].nickName == nick then 0
    else
      var r := IndexOfNick(list[1..], nick);
      assert forall k :: 1 <= k < |list| ==> list[k] == list[1..][k - 1];
      if r == -1 then -1 else r + 1
  }

  /** No two entries share a nickname. */
  predicate UniqueNicks(list: seq<WxUserInfo>)
  {
    forall i, j :: 0 <= i < j < |list| ==> list[i].nickName != list[j].nickName
  }

  /** The entries whose status satisfies `keep`, in list order. */
  function Keep(list: seq<WxUserInfo>, keep: FriendStatus -> bool): (r: seq<WxUserInfo>)
    ensures |r| <= |list|
    ensures forall x :: x in r <==> x in list && keep(x.status)
  {
    if |list| == 0 then []
    else Keep(list[..|list| - 1], keep) + (if keep(list[|list| - 1].status) then [list[|list| - 1]] else [])
  }

  /** Filtering distributes over concatenation: it keeps the list's order. */
  lemma {:induction false} KeepAppend(a: seq<WxUserInfo>, b: seq<WxUserInfo>, keep: FriendStatus -> bool)
    ensures Keep(a + b, keep) == Keep(a, keep) + Keep(b, keep)
  {
    if |b| == 0 {
      assert a + b == a;
    } else {
      assert (a + b)[..|a + b| - 1] == a + b[..|b| - 1];
      KeepAppend(a, b[..|b| - 1], keep);
    }
  }

  predicate IsAbnormal(s: FriendStatus) { !(s == NORMAL || s == UNKNOW) }
  predicate IsUnchecked(s: FriendStatus) { s == UNKNOW }
  predicate IsNormal(s: FriendStatus) { s == NORMAL }

  /** `filterNotNormalData()`: neither NORMAL nor UNKNOW. */
  function FilterNotNormalData(list: seq<WxUserInfo>): seq<WxUserInfo> { Keep(list, IsAbnormal) }

  /** `filterUnCheckData()`: still UNKNOW. */
  function FilterUnCheckData(list: seq<WxUserInfo>): seq<WxUserInfo> { Keep(list, IsUnchecked) }

  /** `filterBlackData()`, `filterDeleteData()`, `filterAccountExceptionData()`. */
  function FilterStatus(list: seq<WxUserInfo>, status: FriendStatus): seq<WxUserInfo>
  {
    Keep(list, s => s == status)
  }

  /** Abnormal, unchecked and normal entries split the list: every entry is
      in exactly one of the three views. */
  lemma {:induction false} ViewsPartition(list: seq<WxUserInfo>)
    ensures |FilterNotNormalData(list)| + |FilterUnCheckData(list)| + |Keep(list, IsNormal)| == |list|
  {
    if |list| > 0 {
      ViewsPartition(list[..|list| - 1]);
    }
  }

  /** The abnormal view is the union of the black, deleted and
      account-exception views. */
  lemma AbnormalIsUnion(list: seq<WxUserInfo>, x: WxUserInfo)
    ensures x in FilterNotNormalData(list) <==>
      x in FilterStatus(list, BLACK) || x in FilterStatus(list, DELETE) || x in FilterStatus(list, ACCOUNT_EXCEPTION)
  {
  }

  /** A filter that keeps everything returns the list itself. */
  lemma {:induction false} KeepAll(list: seq<WxUserInfo>, keep: FriendStatus -> bool)
    requires forall k :: 0 <= k < |list| ==> keep(list[k].status)
    ensures Keep(list, keep) == list
  {
    if |list| > 0 {
      KeepAll(list[..|list| - 1], keep);
      assert list[..|list| - 1] + [list[|list| - 1]] == list;
    }
  }

  class FriendStore {
    var userResultList: seq<WxUserInfo>
    var lastCheckUser: Option<WxUserInfo>
    var lastTagUserCount: int
    var checkGroupCount: int

    constructor()
      ensures userResultList == [] && lastCheckUser.None? && lastTagUserCount == 0 && checkGroupCount == 0
    {
      userResultList := [];
      lastCheckUser := None;
      lastTagUserCount := 0;
      checkGroupCount := 0;
    }

    /** `reset()`. */
    method Reset()
      modifies this
      ensures userResultList == [] && lastCheckUser.None? && lastTagUserCount == 0 && checkGroupCount == 0
    {
      lastCheckUser := None;
      lastTagUserCount := 0;
      checkGroupCount := 0;
      ClearFriendsStatusList();
    }

    /** `clearFriendsStatusList()`. */
    method ClearFriendsStatusList()
      modifies this
      ensures userResultList == []
      ensures lastCheckUser == old(lastCheckUser) && lastTagUserCount == old(lastTagUserCount)
      ensures checkGroupCount == old(checkGroupCount)
    {
      userResultList := [];
    }

    /** `addCheckResult(data)`: overwrites, in place, the first entry with
        the same nickname, or appends. A list without repeated nicknames
        keeps that property and then holds `data` as the only entry with
        its nickname. */
    method AddCheckResult(data: WxUserInfo)
      modifies this
      ensures var i := IndexOfNick(old(userResultList), data.nickName);
        if i == -1 then userResultList == old(userResultList) + [data]
        else userResultList == old(userResultList)[i := data]
      ensures data in userResultList
      ensures UniqueNicks(old(userResultList)) ==> UniqueNicks(userResultList)
      ensures forall k :: 0 <= k < |userResultList| && userResultList[k].nickName != data.nickName ==>
        k < |old(userResultList)| && userResultList[k] == old(userResultList)[k]
      ensures lastCheckUser == old(lastCheckUser) && lastTagUserCount == old(lastTagUserCount)
      ensures checkGroupCount == old(checkGroupCount)
    {
      var find := IndexOfNick(userResultList, data.nickName);
      if find == -1 {
        userResultList := userResultList + [data];
        assert userResultList[|userResultList| - 1] == data;
      } else {
        userResultList := userResultList[find := data];
        assert userResultList[find] == data;
      }
    }

    /** `addCheckResults(list)`: appends the whole list as it is, even
        entries whose nickname is already present; null does nothing. */
    method AddCheckResults(list: Option<seq<WxUserInfo>>)
      modifies this
      ensures list.None? ==> userResultList == old(userResultList)
      ensures list.Some? ==> userResultList == old(userResultList) + list.value
      ensures lastCheckUser == old(lastCheckUser) && lastTagUserCount == old(lastTagUserCount)
      ensures checkGroupCount == old(checkGroupCount)
    {
      if list.None? {
        return;
      }
      userResultList := userResultList + list.value;
    }

    /** `addFriends(names)`: the list becomes one unchecked entry per name,
        in order, so every entry is awaiting its check. */
    method AddFriends(names: seq<string>)
      modifies this
      ensures |userResultList| == |names|
      ensures forall i :: 0 <= i < |names| ==> userResultList[i] == WxUserInfo(names[i], None, UNKNOW)
      ensures FilterUnCheckData(userResultList) == userResultList
      ensures FilterNotNormalData(userResultList) == []
      ensures lastCheckUser == old(lastCheckUser) && lastTagUserCount == old(lastTagUserCount)
      ensures checkGroupCount == old(checkGroupCount)
    {
      userResultList := [];
      userResultList := seq(|names|, i requires 0 <= i < |names| => WxUserInfo(names[i], None, UNKNOW));
      KeepAll(userResultList, IsUnchecked);
      ViewsPartition(userResultList);
      assert Keep(userResultList, IsNormal) == [] by {
        forall x | x in Keep(userResultList, IsNormal) ensures false {
        }
      }
    }
  }
}
