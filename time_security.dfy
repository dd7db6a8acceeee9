/** The trusted-time manager: a network timestamp anchored to the monotonic
    clock, the offline and drift checks derived from it, and the signed
    "t|b|l" record it keeps in preferences.  Both clocks are parameters
    (`systemNow` is the wall clock, `elapsedNow` the time since boot), the
    network state is a parameter, and the keyed HMAC is a function parameter. */
module TimeSecurity {
  import opened Wrappers
  import opened Text
  import opened Decimal
  import Jvm

  const MAX_TIME_DRIFT := 30 * 60 * 1000
  const DEFAULT_OFFLINE_HOURS := 1
  const HOUR_MS := 60 * 60 * 1000
  const MINUTE_MS := 60 * 1000

  /** The three synchronisation fields: the network time, the boot-clock
      reading it was taken at, and the boot-clock reading of the last sync.
      A network time of 0 means "never synced". */
  datatype Sync = Sync(trusted: int, base: int, lastSync: int)

  const Unsynced := Sync(0, 0, 0)

  /** `getTrustedNow`: the wall clock when never synced, otherwise the network
      time plus the boot-clock time passed since. */
  function TrustedNow(st: Sync, systemNow: int, elapsedNow: int): (r: int)
    ensures st.trusted == 0 ==> r == systemNow
    ensures st.trusted != 0 ==> r - st.trusted == elapsedNow - st.base
  {
    if st.trusted == 0 then systemNow else st.trusted + (elapsedNow - st.base)
  }

  /** `isSystemTimeValid`: true when never synced, otherwise the wall clock
      is within 30 minutes of the trusted time. */
  function SystemTimeValid(st: Sync, systemNow: int, elapsedNow: int): (r: bool)
    ensures st.trusted == 0 ==> r
    ensures st.trusted != 0 ==> (r <==> -MAX_TIME_DRIFT <= st.trusted + elapsedNow - st.base - systemNow <= MAX_TIME_DRIFT)
  {
    st.trusted == 0 || Jvm.Abs(TrustedNow(st, systemNow, elapsedNow) - systemNow) <= MAX_TIME_DRIFT
  }

  /** `isOfflineExpired`: true when never synced, otherwise more than `hours`
      hours of boot-clock time passed since the last sync. */
  function OfflineExpired(st: Sync, hours: int, elapsedNow: int): (r: bool)
    ensures st.trusted == 0 ==> r
    ensures st.trusted != 0 ==> (r <==> elapsedNow - st.lastSync > hours * HOUR_MS)
  {
    st.trusted == 0 || elapsedNow - st.lastSync > hours * HOUR_MS
  }

  predicate Synced(st: Sync) { st.trusted != 0 && st.lastSync != 0 }

  /** `getOfflinePassedMillis`: Long.MAX_VALUE when unsynced, otherwise the
      time since the last sync, never negative. */
  function OfflinePassedMillis(st: Sync, elapsedNow: int): (r: int)
    ensures r >= 0
    ensures !Synced(st) ==> r == Jvm.LONG_MAX
    ensures Synced(st) && elapsedNow >= st.lastSync ==> r == elapsedNow - st.lastSync
  {
    if !Synced(st) then Jvm.LONG_MAX
    else
      var offline := elapsedNow - st.lastSync;
      if offline < 0 then 0 else offline
  }

  /** `getOfflinePassedHours`: the same in whole hours, rounded down. */
  function OfflinePassedHours(st: Sync, elapsedNow: int): (r: int)
    ensures r >= 0
    ensures !Synced(st) ==> r == Jvm.LONG_MAX
  {
    if !Synced(st) then Jvm.LONG_MAX
    else
      var offline := elapsedNow - st.lastSync;
      if offline <= 0 then 0 else Jvm.Quot(offline, HOUR_MS)
  }

  /** `getOfflineRemainMinutes`: 0 when unsynced, for a non-positive limit or
      once the limit is used up; otherwise the whole minutes left. */
  function OfflineRemainMinutes(st: Sync, limitHours: int, elapsedNow: int): (r: int)
    ensures r >= 0
    ensures !Synced(st) || limitHours <= 0 ==> r == 0
  {
    if !Synced(st) then 0
    else if limitHours <= 0 then 0
    else
      var remain := limitHours * HOUR_MS - (elapsedNow - st.lastSync);
      if remain <= 0 then 0 else Jvm.Quot(remain, MINUTE_MS)
  }

  /** The passed hours are the passed milliseconds rounded down to hours. */
  lemma PassedHoursRoundDown(st: Sync, elapsedNow: int)
    requires Synced(st)
    ensures OfflinePassedHours(st, elapsedNow) * HOUR_MS <= OfflinePassedMillis(st, elapsedNow)
      < (OfflinePassedHours(st, elapsedNow) + 1) * HOUR_MS
  {
  }

  /** Minutes are left exactly when at least one whole minute of the limit
      remains, and then the offline limit has not been exceeded; the count
      never exceeds the limit in minutes. */
  lemma RemainingMinutesAgreeWithExpiry(st: Sync, limitHours: int, elapsedNow: int)
    requires Synced(st) && limitHours > 0
    ensures OfflineRemainMinutes(st, limitHours, elapsedNow) > 0 <==>
      limitHours * HOUR_MS - (elapsedNow - st.lastSync) >= MINUTE_MS
    ensures OfflineRemainMinutes(st, limitHours, elapsedNow) > 0 ==> !OfflineExpired(st, limitHours, elapsedNow)
    ensures elapsedNow >= st.lastSync ==> OfflineRemainMinutes(st, limitHours, elapsedNow) <= limitHours * 60
  {
    var remain := limitHours * HOUR_MS - (elapsedNow - st.lastSync);
    if remain > 0 {
      assert Jvm.Quot(remain, MINUTE_MS) == remain / MINUTE_MS;
      if elapsedNow >= st.lastSync {
        var cap := limitHours * 60;
        assert remain <= cap * MINUTE_MS;
      }
    }
  }

  /** After a sync at boot-clock time `e` the trusted time advances exactly
      with the boot clock and ignores the wall clock; the offline window
      closes after `hours` hours. */
  lemma AfterSync(t: int, e: int, d: int, hours: int, s1: int, s2: int)
    requires t != 0
    ensures TrustedNow(Sync(t, e, e), s1, e + d) == t + d
    ensures TrustedNow(Sync(t, e, e), s1, e + d) == TrustedNow(Sync(t, e, e), s2, e + d)
    ensures OfflineExpired(Sync(t, e, e), hours, e + d) <==> d > hours * HOUR_MS
  {
  }

  // ---------------------------------------------------------------------
  // The signed record

  /** The text `updateTrustedTime` stores: "t|b|l". */
  function Record(st: Sync): string
  {
    Join([IntToString(st.trusted), IntToString(st.base), IntToString(st.lastSync)], '|')
  }

  /** What `loadFromSp` makes of a verified record: any other number of parts
      keeps the current fields; a part that is not a Long reads as 0. */
  function Loaded(current: Sync, data: string): Sync
  {
    var parts := Split(data, '|');
    if |parts| != 3 then current
    else Sync(ToLongOrNull(parts[0]).GetOr(0), ToLongOrNull(parts[1]).GetOr(0), ToLongOrNull(parts[2]).GetOr(0))
  }

  predicate LongFields(st: Sync)
  {
    Jvm.IsLong(st.trusted) && Jvm.IsLong(st.base) && Jvm.IsLong(st.lastSync)
  }

  /** Reading back a stored record gives the three fields that were written. */
  lemma RecordRoundTrip(current: Sync, st: Sync)
    requires LongFields(st)
    ensures Loaded(current, Record(st)) == st
  {
    var parts := [IntToString(st.trusted), IntToString(st.base), IntToString(st.lastSync)];
    PrintedAvoids(st.trusted, '|');
    PrintedAvoids(st.base, '|');
    PrintedAvoids(st.lastSync, '|');
    SplitJoin(parts, '|');
    ParsePrinted(st.trusted, Jvm.LONG_MIN, Jvm.LONG_MAX);
    ParsePrinted(st.base, Jvm.LONG_MIN, Jvm.LONG_MAX);
    ParsePrinted(st.lastSync, Jvm.LONG_MIN, Jvm.LONG_MAX);
  }

  /** A record without exactly two separators leaves the fields alone. */
  lemma MalformedRecordIgnored(current: Sync, data: string)
    requires |Split(data, '|')| != 3
    ensures Loaded(current, data) == current
  {
  }

  // ---------------------------------------------------------------------
  // The overall verdicts

  /** `isKYSJValid` once the stored record has been verified. */
  function MembershipValid(st: Sync, expire: int, hours: int, systemNow: int, elapsedNow: int): bool
  {
    !OfflineExpired(st, hours, elapsedNow) && SystemTimeValid(st, systemNow, elapsedNow)
    && expire > TrustedNow(st, systemNow, elapsedNow)
  }

  /** `TimeSecurityStatus`. */
  datatype Status = Status(isValid: bool, isVipExpired: bool, isOfflineExpired: bool, isSystemTimeInvalid: bool,
                           isNetworkAvailable: bool, offlinePassedHours: int, offlineRemainMinutes: int)

  /** The status reported when the stored record fails verification. */
  function TamperedStatus(network: bool): Status
  {
    Status(false, true, true, true, network, 0, 0)
  }

  /** `checkTimeSecurityStatus` once the stored record has been verified. */
  function StatusOf(st: Sync, expire: int, hours: int, network: bool, systemNow: int, elapsedNow: int): (r: Status)
    ensures r.isValid <==> !r.isOfflineExpired && !r.isSystemTimeInvalid && !r.isVipExpired
    ensures r.isNetworkAvailable == network
  {
    var offlineExpired := OfflineExpired(st, hours, elapsedNow);
    var systemInvalid := !SystemTimeValid(st, systemNow, elapsedNow);
    var vipExpired := expire <= TrustedNow(st, systemNow, elapsedNow);
    Status(!offlineExpired && !systemInvalid && !vipExpired, vipExpired, offlineExpired, systemInvalid,
           network, OfflinePassedHours(st, elapsedNow), OfflineRemainMinutes(st, hours, elapsedNow))
  }

  /** The status and the yes/no check agree, whatever the network state; a
      device that never synced is never valid. */
  lemma StatusAgreesWithCheck(st: Sync, expire: int, hours: int, network: bool, systemNow: int, elapsedNow: int)
    ensures StatusOf(st, expire, hours, network, systemNow, elapsedNow).isValid
      == MembershipValid(st, expire, hours, systemNow, elapsedNow)
    ensures st.trusted == 0 ==> !MembershipValid(st, expire, hours, systemNow, elapsedNow)
  {
  }

  /** `HYSJTimeSecurityManager`: the three fields and its preferences file.
      `prefsOpen` is false until `init` opened the file; `data` and `sign`
      are the two stored strings. */
  class TrustedClock {
    var trustedNetworkTime: int
    var baseElapsedRealtime: int
    var lastSyncElapsedRealtime: int
    var prefsOpen: bool
    var data: Option<string>
    var sign: Option<string>

    constructor ()
      ensures State() == Unsynced && !prefsOpen && data == None && sign == None
    {
      trustedNetworkTime := 0;
      baseElapsedRealtime := 0;
      lastSyncElapsedRealtime := 0;
      prefsOpen := false;
      data := None;
      sign := None;
    }

    function State(): Sync
      reads this
    {
      Sync(trustedNetworkTime, baseElapsedRealtime, lastSyncElapsedRealtime)
    }

    /** `verifySp`: both strings are present and the signature matches. */
    predicate VerifySp(hmac: string -> string)
      reads this
    {
      prefsOpen && data.Some? && sign.Some? && hmac(data.value) == sign.value
    }

    /** `clear`: all three fields back to 0 and the file emptied. */
    method Clear()
      modifies this
      ensures State() == Unsynced && prefsOpen == old(prefsOpen)
      ensures prefsOpen ==> data == None && sign == None
      ensures !prefsOpen ==> data == old(data) && sign == old(sign)
    {
      trustedNetworkTime := 0;
      baseElapsedRealtime := 0;
      lastSyncElapsedRealtime := 0;
      if prefsOpen {
        data := None;
        sign := None;
      }
    }

    /** `updateTrustedTime`: anchors the network time to the boot clock and,
        when the file is open, stores the signed record. */
    method UpdateTrustedTime(networkTimestamp: int, elapsedNow: int, hmac: string -> string)
      modifies this
      ensures State() == Sync(networkTimestamp, elapsedNow, elapsedNow) && prefsOpen == old(prefsOpen)
      ensures prefsOpen ==> data == Some(Record(State())) && sign == Some(hmac(Record(State())))
      ensures !prefsOpen ==> data == old(data) && sign == old(sign)
    {
      trustedNetworkTime := networkTimestamp;
      baseElapsedRealtime := elapsedNow;
      lastSyncElapsedRealtime := baseElapsedRealtime;
      var raw := Record(State());
      if prefsOpen {
        data := Some(raw);
        sign := Some(hmac(raw));
      }
    }

    /** `loadFromSp`: a record failing verification clears everything;
        otherwise the fields are read back from it. */
    method LoadFromSp(hmac: string -> string)
      modifies this
      ensures prefsOpen == old(prefsOpen)
      ensures !old(VerifySp(hmac)) ==> (State() == Unsynced && (prefsOpen ==> data == None && sign == None)
        && (!prefsOpen ==> data == old(data) && sign == old(sign)))
      ensures old(VerifySp(hmac)) ==> (State() == Loaded(old(State()), old(data).value)
        && data == old(data) && sign == old(sign))
    {
      if !VerifySp(hmac) {
        Clear();
        return;
      }
      var raw := data.value;
      var parts := Split(raw, '|');
      if |parts| != 3 {
        return;
      }
      trustedNetworkTime := ToLongOrNull(parts[0]).GetOr(0);
      baseElapsedRealtime := ToLongOrNull(parts[1]).GetOr(0);
      lastSyncElapsedRealtime := ToLongOrNull(parts[2]).GetOr(0);
    }

    /** `init`: opens the preferences file (which keeps what it held) and
        loads from it. */
    method Init(hmac: string -> string)
      modifies this
      ensures prefsOpen
      ensures var signed := old(data).Some? && old(sign).Some? && hmac(old(data).value) == old(sign).value;
        if signed then State() == Loaded(old(State()), old(data).value) && data == old(data) && sign == old(sign)
        else State() == Unsynced && data == None && sign == None
    {
      prefsOpen := true;
      LoadFromSp(hmac);
    }

    /** `isKYSJValid`: a record failing verification clears everything and
        fails; otherwise the offline limit, the drift and the expiry decide
        (the network state does not matter: both branches check the same). */
    method IsKYSJValid(hmac: string -> string, expire: int, hours: int, network: bool, systemNow: int, elapsedNow: int)
      returns (ok: bool)
      modifies this
      ensures ok == (old(VerifySp(hmac)) && MembershipValid(old(State()), expire, hours, systemNow, elapsedNow))
      ensures old(VerifySp(hmac)) ==> State() == old(State()) && data == old(data) && sign == old(sign)
      ensures !old(VerifySp(hmac)) ==> State() == Unsynced
      ensures prefsOpen == old(prefsOpen)
    {
      if !VerifySp(hmac) {
        Clear();
        return false;
      }
      if !network {
        if OfflineExpired(State(), hours, elapsedNow) { return false; }
      } else {
        if OfflineExpired(State(), hours, elapsedNow) { return false; }
      }
      if !SystemTimeValid(State(), systemNow, elapsedNow) {
        return false;
      }
      return expire > TrustedNow(State(), systemNow, elapsedNow);
    }

    /** `checkTimeSecurityStatus`: the all-failed status after clearing when
        the record fails verification, otherwise `StatusOf`. */
    method CheckTimeSecurityStatus(hmac: string -> string, expire: int, hours: int, network: bool,
                                   systemNow: int, elapsedNow: int)
      returns (status: Status)
      modifies this
      ensures !old(VerifySp(hmac)) ==> status == TamperedStatus(network) && State() == Unsynced
      ensures old(VerifySp(hmac)) ==> (status == StatusOf(old(State()), expire, hours, network, systemNow, elapsedNow)
        && State() == old(State()) && data == old(data) && sign == old(sign))
      ensures prefsOpen == old(prefsOpen)
    {
      if !VerifySp(hmac) {
        Clear();
        return TamperedStatus(network);
      }
      status := StatusOf(State(), expire, hours, network, systemNow, elapsedNow);
    }
  }
}
