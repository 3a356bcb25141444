/** Realm records, realm audit log rows, the eligibility filter and the
    lookup of a realm's onboarding audit row. */
module Realms {
  import opened Wrappers

  /** `settings.SYSTEM_BOT_REALM`: the internal realm that never receives announcements. */
  const SystemBotRealm: string := "zulipinternal"

  /** The fields of a realm that the rollout reads. The announcement stream is
      identified by its id; `level` is `None` for a realm never initialized. */
  datatype Realm = Realm(stringId: string, deactivated: bool, announcementStream: Option<nat>, level: Option<nat>)

  /** A row of the realm audit log. Level changes record the old and new level
      and the ids of the messages sent with the change; `OtherEvent` stands for
      every other kind of row (other event types or other properties). */
  datatype AuditEvent =
    | LevelChanged(realm: nat, time: int, oldLevel: Option<nat>, newLevel: nat, messageIds: seq<nat>)
    | OtherEvent(realm: nat, time: int)

  /** The filter of the eligibility query: active, not the system realm, and
      level unset or below the threshold. */
  predicate IsBehind(r: Realm, threshold: int)
  {
    !r.deactivated && r.stringId != SystemBotRealm && (r.level.None? || r.level.value < threshold)
  }

  /** Ids of the realms from `start` on that pass the filter, in id order. */
  function BehindFrom(realms: seq<Realm>, threshold: int, start: nat): (ids: seq<nat>)
    ensures forall k :: 0 <= k < |ids| ==> start <= ids[k] < |realms| && IsBehind(realms[ids[k]], threshold)
    ensures forall j :: start <= j < |realms| && IsBehind(realms[j], threshold) ==> j in ids
    ensures forall k, m :: 0 <= k < m < |ids| ==> ids[k] < ids[m]
    decreases |realms| - start
  {
    if start >= |realms| then []
    else if IsBehind(realms[start], threshold) then [start] + BehindFrom(realms, threshold, start + 1)
    else BehindFrom(realms, threshold, start + 1)
  }

  /** The eligibility query: exactly the realms passing the filter, each once. */
  function RealmsBehind(realms: seq<Realm>, threshold: int): (ids: seq<nat>)
    ensures forall k :: 0 <= k < |ids| ==> ids[k] < |realms| && IsBehind(realms[ids[k]], threshold)
    ensures forall j :: 0 <= j < |realms| && IsBehind(realms[j], threshold) ==> j in ids
    ensures forall k, m :: 0 <= k < m < |ids| ==> ids[k] < ids[m]
  {
    BehindFrom(realms, threshold, 0)
  }

  /** An audit row recording realm `id` leaving the "never initialized" state. */
  predicate IsOnboardingFor(e: AuditEvent, id: nat)
  {
    e.LevelChanged? && e.realm == id && e.oldLevel.None?
  }

  /** The first audit row, in log order, that records realm `id` leaving the
      "never initialized" state, if there is one. */
  function OnboardingEvent(log: seq<AuditEvent>, id: nat): (r: Option<AuditEvent>)
    ensures r.Some? <==> exists i :: 0 <= i < |log| && IsOnboardingFor(log[i], id)
    ensures r.Some? ==> exists i :: 0 <= i < |log| && log[i] == r.value && IsOnboardingFor(log[i], id) &&
                                    forall j :: 0 <= j < i ==> !IsOnboardingFor(log[j], id)
  {
    if log == [] then None
    else if IsOnboardingFor(log[0], id) then Some(log[0])
    else
      var r := OnboardingEvent(log[1..], id);
      assert forall i :: 1 <= i < |log| ==> log[i] == log[1..][i - 1];
      r
  }

  /** Appending a row changes the lookup only when there was no onboarding row
      for the realm and the new row is one. */
  lemma {:induction false} OnboardingEventAppend(log: seq<AuditEvent>, e: AuditEvent, id: nat)
    ensures OnboardingEvent(log + [e], id) ==
            if OnboardingEvent(log, id).Some? then OnboardingEvent(log, id)
            else if IsOnboardingFor(e, id) then Some(e) else None
  {
    if log == [] {
      assert [] + [e] == [e];
      assert [e][1..] == [];
    } else {
      assert (log + [e])[0] == log[0];
      assert (log + [e])[1..] == log[1..] + [e];
      if !IsOnboardingFor(log[0], id) {
        OnboardingEventAppend(log[1..], e, id);
      }
    }
  }
}
