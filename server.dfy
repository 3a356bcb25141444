/** The rollout as it runs against the store: the transport call, the commit,
    the per-realm step and the sweep, updating the realm table, the audit log
    and the message id counter in place. Each method is proved to do exactly
    what the corresponding function of `Rollout` describes. */
module ZulipUpdateAnnouncements {
  import opened Wrappers
  import opened Catalog
  import opened Realms
  import opened Decision
  import opened Rollout

  class Server {
    /** The realm table; a realm's id is its index. */
    var realms: seq<Realm>
    /** The realm audit log, oldest row first. */
    var auditLog: seq<AuditEvent>
    /** The id the transport gives the next message it delivers. */
    var nextMessageId: nat

    ghost function State(): ServerState
      reads this
    {
      ServerState(realms, auditLog, nextMessageId)
    }

    ghost predicate Valid()
      reads this
    {
      WellFormed(State())
    }

    /** A store holding `realms`, with an empty audit log. */
    constructor (realms: seq<Realm>)
      requires LevelsInRange(realms)
      ensures Valid() && State() == ServerState(realms, [], 0)
    {
      this.realms := realms;
      this.auditLog := [];
      this.nextMessageId := 0;
    }

    /** The transport: delivers the requests and returns their ids in request
        order, or raises (`sendFails`) and delivers nothing. */
    method DoSendMessages(requests: seq<MessageRequest>, sendFails: bool) returns (r: Result<seq<nat>, StepError>)
      modifies this`nextMessageId
      ensures r.Failure? <==> sendFails
      ensures r.Failure? ==> r.error == SendFailed && nextMessageId == old(nextMessageId)
      ensures r.Success? ==> r.value == FreshIds(old(nextMessageId), |requests|) &&
                             nextMessageId == old(nextMessageId) + |requests|
    {
      if sendFails {
        return Failure(SendFailed);
      }
      var ids: seq<nat> := [];
      while |ids| < |requests|
        invariant |ids| <= |requests|
        invariant nextMessageId == old(nextMessageId) + |ids|
        invariant forall k :: 0 <= k < |ids| ==> ids[k] == old(nextMessageId) + k
      {
        ids := ids + [nextMessageId];
        nextMessageId := nextMessageId + 1;
      }
      return Success(ids);
    }

    /** The commit: send the requests if there are any, append one audit row
        with the previous and new level and the sent ids, then store the new
        level. If the transport raises, nothing is stored. */
    method SendMessagesAndUpdateLevel(id: nat, newLevel: nat, requests: seq<MessageRequest>, now: int, sendFails: bool)
      returns (r: Result<seq<nat>, StepError>)
      requires id < |realms|
      modifies this
      ensures r.Failure? <==> sendFails && |requests| > 0
      ensures r.Failure? ==> r.error == SendFailed && State() == old(State())
      ensures r.Success? ==> State() == ApplyCommit(old(State()), id, newLevel, requests, now)
      ensures r.Success? ==> r.value == auditLog[|old(auditLog)|].messageIds
    {
      var sentMessageIds: seq<nat> := [];
      if |requests| > 0 {
        var sent := DoSendMessages(requests, sendFails);
        if sent.Failure? {
          return Failure(sent.error);
        }
        sentMessageIds := sent.value;
      }
      auditLog := auditLog + [LevelChanged(id, now, realms[id].level, newLevel, sentMessageIds)];
      realms := realms[id := realms[id].(level := Some(newLevel))];
      return Success(sentMessageIds);
    }

    /** One realm's step: re-read the realm, check that it is still behind,
        build the messages for its case, and commit unless told to wait. */
    method SendZulipUpdateAnnouncementsToRealm(id: nat, skipDelay: bool, imported: bool, now: int,
                                               topicHasMessages: bool, sendFails: bool)
      returns (outcome: StepOutcome)
      requires id < |realms| && Valid()
      modifies this
      ensures Valid()
      ensures (State(), outcome) == Step(old(State()), id, skipDelay, imported, now, topicHasMessages, sendFails)
    {
      StepPreservesWellFormed(State(), id, skipDelay, imported, now, topicHasMessages, sendFails);
      var latest: nat := LatestLevel();
      var realm := realms[id];
      if !(realm.level.None? || realm.level.value < latest) {
        return Failed(LevelNotBehind);
      }
      var messages: seq<MessageRequest> := [];
      var newLevel: Option<nat> := None;
      if realm.level.None? {
        messages := [AdminGroupDM(realm.announcementStream.Some?)];
        if imported {
          newLevel := Some(latest);
        } else {
          newLevel := Some(0);
        }
      } else if realm.announcementStream.None? {
        var onboarding := OnboardingEvent(auditLog, id);
        if onboarding.None? || !(now - onboarding.value.time < NoStreamGraceDays * DaySeconds) {
          newLevel := Some(latest);
        }
      } else {
        var level := realm.level.value;
        if level == 0 {
          var within := SentToAdminsWithinDays(auditLog, id, now, FirstUpdateDelayDays);
          if within.Failure? {
            return Failed(within.error);
          }
          if within.value && !skipDelay {
            return Waited;
          }
        }
        if !topicHasMessages {
          messages := [IntroMessage];
        }
        var updates := PrepUpdateMessages(level, latest);
        messages := messages + updates;
        newLevel := Some(latest);
      }
      if newLevel.None? {
        return Waited;
      }
      var sent := SendMessagesAndUpdateLevel(id, newLevel.value, messages, now, sendFails);
      if sent.Failure? {
        return Failed(sent.error);
      }
      return Committed(newLevel.value, sent.value);
    }

    /** The sweep: select the realms behind the latest level and run the
        step on each of them. */
    method SendZulipUpdateAnnouncements(skipDelay: bool, now: int, topicHasMessages: set<nat>, failingSends: set<nat>)
      requires Valid()
      modifies this
      ensures Valid()
      ensures State() == Sweep(old(State()), RealmsBehind(old(realms), LatestLevel()), skipDelay, now,
                               topicHasMessages, failingSends).0
    {
      var eligible := RealmsBehind(realms, LatestLevel());
      SendToEachRealm(eligible, skipDelay, now, topicHasMessages, failingSends);
    }

    /** The sweep's loop: the step on each listed realm in turn, never flagged
        as imported; a realm whose step raises is passed over (the source logs
        it) and the loop goes on. */
    method SendToEachRealm(ids: seq<nat>, skipDelay: bool, now: int, topicHasMessages: set<nat>,
                           failingSends: set<nat>)
      requires Valid() && forall k :: 0 <= k < |ids| ==> ids[k] < |realms|
      modifies this
      ensures Valid()
      ensures State() == Sweep(old(State()), ids, skipDelay, now, topicHasMessages, failingSends).0
    {
      ghost var final := Sweep(State(), ids, skipDelay, now, topicHasMessages, failingSends).0;
      var k := 0;
      while k < |ids|
        invariant 0 <= k <= |ids|
        invariant Valid()
        invariant |realms| == |old(realms)|
        invariant Sweep(State(), ids[k..], skipDelay, now, topicHasMessages, failingSends).0 == final
      {
        var id := ids[k];
        ghost var before := State();
        ghost var rest := ids[k..];
        assert rest[0] == id && rest[1..] == ids[k + 1..];
        var outcome := SendZulipUpdateAnnouncementsToRealm(id, skipDelay, false, now, id in topicHasMessages,
                                                           id in failingSends);
        SweepUnfold(before, rest, skipDelay, now, topicHasMessages, failingSends, State(), outcome);
        k := k + 1;
      }
      assert ids[k..] == [];
    }
  }
}
