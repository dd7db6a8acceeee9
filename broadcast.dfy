/** Broadcast receivers: the set of receivers known to be registered, and the
    per-channel ownership with priority preemption.  Receivers, contexts and
    owners are represented by their identities. */
module Broadcast {
  import opened Wrappers

  /** The owner kinds; a larger priority preempts a smaller one. */
  datatype OwnerType = NONE | ACTIVITY | SERVICE | NOTIFICATION_SERVICE | ACCESSIBILITY_SERVICE

  function Priority(t: OwnerType): (p: nat)
    ensures p <= 4
  {
    match t
    case NONE => 0
    case ACTIVITY => 1
    case SERVICE => 2
    case NOTIFICATION_SERVICE => 3
    case ACCESSIBILITY_SERVICE => 4
  }

  /** Priorities tell the kinds apart, accessibility > notification listener
      > service > activity > none. */
  lemma PriorityOrder(a: OwnerType, b: OwnerType)
    ensures Priority(a) == Priority(b) <==> a == b
    ensures Priority(NONE) < Priority(ACTIVITY) < Priority(SERVICE)
      < Priority(NOTIFICATION_SERVICE) < Priority(ACCESSIBILITY_SERVICE)
  {
  }

  /** `BroadCastReciverHelper`: the receivers registered through it. */
  class ReceiverRegistry {
    var registered: set<nat>

    constructor ()
      ensures registered == {}
    {
      registered := {};
    }

    /** `isRegistered`: false for a null receiver. */
    function IsRegistered(receiver: Option<nat>): bool
      reads this
    {
      receiver.Some? && receiver.value in registered
    }

    /** `safeRegisterReceiver`: false when an argument is null; true without a
        new platform call when already registered; otherwise the platform's
        answer (`accepted`, false standing for a throw), and the receiver is
        marked only when the call succeeded. */
    method SafeRegister(context: Option<nat>, receiver: Option<nat>, hasFilter: bool, accepted: bool)
      returns (ok: bool)
      modifies this
      ensures context.None? || receiver.None? || !hasFilter ==> !ok && registered == old(registered)
      ensures context.Some? && receiver.Some? && hasFilter && receiver.value in old(registered) ==>
        ok && registered == old(registered)
      ensures context.Some? && receiver.Some? && hasFilter && receiver.value !in old(registered) ==>
        ok == accepted && registered == (if accepted then old(registered) + {receiver.value} else old(registered))
    {
      if context.None? || receiver.None? || !hasFilter {
        return false;
      }
      if IsRegistered(receiver) {
        return true;
      }
      if accepted {
        registered := registered + {receiver.value};
        return true;
      }
      return false;
    }

    /** `safeUnregisterReceiver`: a null argument or an unknown receiver is a
        no-op; otherwise the receiver is unmarked whatever the platform call
        does. */
    method SafeUnregister(context: Option<nat>, receiver: Option<nat>)
      modifies this
      ensures context.None? || receiver.None? ==> registered == old(registered)
      ensures context.Some? && receiver.Some? ==> registered == old(registered) - {receiver.value}
    {
      if context.None? || receiver.None? {
        return;
      }
      if !IsRegistered(receiver) {
        return;
      }
      registered := registered - {receiver.value};
    }
  }

  /** `ManagedBroadcast`: who owns a channel and with which receiver. */
  datatype Managed = Managed(owner: Option<nat>, ownerType: OwnerType, receiver: Option<nat>, context: Option<nat>)

  const Unowned := Managed(None, NONE, None, None)

  /** An unowned channel records nothing; an owned one records its receiver
      and context. */
  predicate WellFormed(m: Managed)
  {
    (m.owner.None? ==> m == Unowned) && (m.owner.Some? ==> m.receiver.Some? && m.context.Some?)
  }

  /** `UnifiedBroadcastManager`: one owner per channel. */
  class BroadcastHub {
    var channels: map<string, Managed>
    const registry: ReceiverRegistry

    predicate Valid()
      reads this
    {
      forall ch :: ch in channels ==> WellFormed(channels[ch])
    }

    constructor (registry: ReceiverRegistry)
      ensures Valid() && channels == map[] && this.registry == registry
    {
      channels := map[];
      this.registry := registry;
    }

    /** `currentOwnerType`: NONE for a channel never used. */
    function CurrentOwnerType(channel: string): (t: OwnerType)
      reads this
      ensures channel !in channels ==> t == NONE
    {
      if channel in channels then channels[channel].ownerType else NONE
    }

    /** `register`: the current owner is accepted as is; a lower priority is
        refused; otherwise the old receiver is unregistered and the new one
        registered (`accepted` is the platform's answer), and only on success
        does the channel record the new owner. */
    method Register(channel: string, owner: nat, ownerType: OwnerType, context: nat, receiver: nat, accepted: bool)
      returns (ok: bool)
      modifies this, registry
      requires Valid()
      ensures Valid()
      ensures channel in channels
      ensures forall ch :: ch != channel ==> ((ch in channels <==> ch in old(channels))
        && (ch in channels ==> channels[ch] == old(channels)[ch]))
      ensures var m := if channel in old(channels) then old(channels)[channel] else Unowned;
        if m.owner == Some(owner) then
          ok && channels[channel] == m && registry.registered == old(registry.registered)
        else if Priority(ownerType) < Priority(m.ownerType) then
          !ok && channels[channel] == m && registry.registered == old(registry.registered)
        else
          var dropped := if m.receiver.Some? then old(registry.registered) - {m.receiver.value} else old(registry.registered);
          ok == (receiver in dropped || accepted)
          && registry.registered == (if ok then dropped + {receiver} else dropped)
          && channels[channel] == (if ok then Managed(Some(owner), ownerType, Some(receiver), Some(context)) else m)
    {
      if channel !in channels {
        channels := channels[channel := Unowned];
      }
      var m := channels[channel];
      if m.owner == Some(owner) {
        return true;
      }
      if Priority(ownerType) < Priority(m.ownerType) {
        return false;
      }
      if m.receiver.Some? && m.context.Some? {
        registry.SafeUnregister(m.context, m.receiver);
      }
      var success := registry.SafeRegister(Some(context), Some(receiver), true, accepted);
      if !success {
        return false;
      }
      channels := channels[channel := Managed(Some(owner), ownerType, Some(receiver), Some(context))];
      return true;
    }

    /** `unregister`: only the current owner can release a channel; its
        receiver is unregistered and the channel reset to no owner. */
    method Unregister(channel: string, owner: nat)
      modifies this, registry
      requires Valid()
      ensures Valid()
      ensures channel !in old(channels) || old(channels)[channel].owner != Some(owner) ==>
        channels == old(channels) && registry.registered == old(registry.registered)
      ensures channel in old(channels) && old(channels)[channel].owner == Some(owner) ==>
        channels == old(channels)[channel := Unowned]
        && registry.registered == old(registry.registered) - {old(channels)[channel].receiver.value}
    {
      if channel !in channels {
        return;
      }
      var m := channels[channel];
      if m.owner != Some(owner) {
        return;
      }
      if m.context.Some? && m.receiver.Some? {
        registry.SafeUnregister(m.context, m.receiver);
      }
      channels := channels[channel := Unowned];
    }
  }
}
