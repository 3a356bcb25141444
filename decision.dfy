/** The per-realm decision engine: which messages to send to one realm and
    which level to record, given its freshly read record and audit log. */
module Decision {
  import opened Wrappers
  import opened Catalog
  import opened Realms

  /** Time is measured in whole seconds. */
  const DaySeconds: int := 86400
  /** How long a realm without an announcement stream keeps its missed updates. */
  const NoStreamGraceDays: int := 7
  /** How long after onboarding the first updates are held back. */
  const FirstUpdateDelayDays: int := 1

  /** A message the rollout asks the transport to send, described by its kind:
      the group direct message to the realm's administrators (whose text depends
      on whether a stream is configured), the one-time introduction in the
      updates topic, or the announcement of one catalog level. */
  datatype MessageRequest =
    | AdminGroupDM(streamConfigured: bool)
    | IntroMessage
    | UpdateMessage(level: int, content: string)

  /** Why one realm's step raised: the re-read level was not behind, the
      onboarding audit row was missing when needed, or the transport failed. */
  datatype StepError = LevelNotBehind | NoOnboardingEvent | SendFailed

  /** What the engine decides: do nothing this cycle, or commit a new level
      together with these messages. */
  datatype Plan = Wait | Commit(newLevel: nat, requests: seq<MessageRequest>)

  /** The stream message announcing catalog level `level`. */
  function UpdateFor(level: int): (m: MessageRequest)
    requires 1 <= level <= LatestLevel()
    ensures m.UpdateMessage? && m.level == level && m.content == Announcements[level - 1].message
  {
    UpdateMessage(level, CheckedMessageForLevel(level).value)
  }

  /** The catch-up batch: one announcement per level above `current` up to
      `latest`, in increasing level order. */
  function CatchUp(current: nat, latest: int): (r: seq<MessageRequest>)
    requires latest <= LatestLevel()
    ensures |r| == if current < latest then latest - current else 0
    ensures forall k :: 0 <= k < |r| ==> r[k] == UpdateFor(current + 1 + k)
    decreases latest - current
  {
    if current < latest then [UpdateFor(current + 1)] + CatchUp(current + 1, latest) else []
  }

  /** The batch builder's loop: one request per level from `current + 1` to
      `latest`. It reads the catalog through the lookup as written; every level
      it asks for lies in `1..latest`, so that lookup never wraps or fails here. */
  method PrepUpdateMessages(current: nat, latest: int) returns (requests: seq<MessageRequest>)
    requires latest <= LatestLevel()
    ensures |requests| == if current < latest then latest - current else 0
    ensures forall k :: 0 <= k < |requests| ==> requests[k].UpdateMessage? && requests[k].level == current + 1 + k
    ensures requests == CatchUp(current, latest)
  {
    requests := [];
    var level := current;
    while level < latest
      invariant current <= level
      invariant level <= latest || level == current
      invariant |requests| == level - current
      invariant forall k :: 0 <= k < |requests| ==> requests[k] == UpdateFor(current + 1 + k)
    {
      var content := MessageForLevel(level + 1);
      assert content.Success?;
      requests := requests + [UpdateMessage(level + 1, content.value)];
      level := level + 1;
    }
  }

  /** Levels of the update messages in a batch increase strictly. */
  lemma CatchUpLevelsIncrease(current: nat, latest: int)
    requires latest <= LatestLevel()
    ensures forall k, m :: 0 <= k < m < |CatchUp(current, latest)| ==>
              CatchUp(current, latest)[k].level < CatchUp(current, latest)[m].level
    ensures forall k :: 0 <= k < |CatchUp(current, latest)| ==>
              current < CatchUp(current, latest)[k].level <= latest
  {
  }

  /** Whether the onboarding row of realm `id` is younger than `days`; raises
      when the realm has no onboarding row. */
  function SentToAdminsWithinDays(log: seq<AuditEvent>, id: nat, now: int, days: int): (r: Result<bool, StepError>)
    ensures r.Failure? <==> OnboardingEvent(log, id).None?
    ensures r.Failure? ==> r.error == NoOnboardingEvent
    ensures r.Success? ==> (r.value <==> now - OnboardingEvent(log, id).value.time < days * DaySeconds)
  {
    match OnboardingEvent(log, id)
    case None => Failure(NoOnboardingEvent)
    case Some(e) => Success(now - e.time < days * DaySeconds)
  }

  /** The batch for a realm that is ready: the introduction when the topic is
      still empty, then the catch-up batch. */
  function ReadyPlan(level: nat, topicHasMessages: bool): (p: Plan)
    ensures p.Commit? && p.newLevel == LatestLevel()
  {
    Commit(LatestLevel(), (if topicHasMessages then [] else [IntroMessage]) + CatchUp(level, LatestLevel()))
  }

  /** The ready batch starts with the introduction exactly when the topic is
      empty, and then announces each level above `level` once, in order. */
  lemma ReadyPlanShape(level: nat, topicHasMessages: bool)
    requires level < LatestLevel()
    ensures var p := ReadyPlan(level, topicHasMessages);
            var intro := if topicHasMessages then 0 else 1;
            |p.requests| == intro + LatestLevel() - level &&
            (p.requests[0] == IntroMessage <==> !topicHasMessages) &&
            (forall k :: intro <= k < |p.requests| ==> p.requests[k] == UpdateFor(level + 1 + k - intro))
  {
    if topicHasMessages {
      ReadyPlanIntoBusyTopic(level);
    } else {
      ReadyPlanIntoEmptyTopic(level);
    }
  }

  lemma ReadyPlanIntoBusyTopic(level: nat)
    requires level < LatestLevel()
    ensures var p := ReadyPlan(level, true);
            |p.requests| == LatestLevel() - level && p.requests[0].UpdateMessage? &&
            forall k :: 0 <= k < |p.requests| ==> p.requests[k] == UpdateFor(level + 1 + k)
  {
    assert ReadyPlan(level, true).requests == CatchUp(level, LatestLevel());
  }

  lemma ReadyPlanIntoEmptyTopic(level: nat)
    requires level < LatestLevel()
    ensures var p := ReadyPlan(level, false);
            |p.requests| == 1 + LatestLevel() - level && p.requests[0] == IntroMessage &&
            forall k :: 1 <= k < |p.requests| ==> p.requests[k] == UpdateFor(level + k)
  {
    var batch := CatchUp(level, LatestLevel());
    var p := ReadyPlan(level, false);
    assert p.requests == [IntroMessage] + batch;
    forall k | 1 <= k < |p.requests|
      ensures p.requests[k] == UpdateFor(level + k)
    {
      assert p.requests[k] == batch[k - 1];
    }
  }

  /** A ready batch satisfies `SoundPlan` for a realm at `level`. */
  lemma ReadyPlanSound(realm: Realm, level: nat, topicHasMessages: bool)
    requires realm.level == Some(level) && level < LatestLevel()
    ensures SoundPlan(realm, ReadyPlan(level, topicHasMessages))
  {
    ReadyPlanShape(level, topicHasMessages);
    CatchUpLevelsIncrease(level, LatestLevel());
  }

  /** Every commit lands on 0 (onboarding) or on the latest level, strictly
      above any level the realm already had, and announces only levels the
      realm has not yet reached, each once and in order. */
  ghost predicate SoundPlan(realm: Realm, p: Plan)
  {
    p.Commit? ==>
      (p.newLevel == 0 || p.newLevel == LatestLevel()) &&
      (realm.level.Some? ==> realm.level.value < p.newLevel) &&
      (forall k :: 0 <= k < |p.requests| && p.requests[k].UpdateMessage? ==>
         (realm.level.Some? && realm.level.value < p.requests[k].level <= p.newLevel)) &&
      (forall k, m :: 0 <= k < m < |p.requests| && p.requests[k].UpdateMessage? && p.requests[m].UpdateMessage? ==>
         p.requests[k].level < p.requests[m].level)
  }

  /** The decision for realm `id`, whose record `realm` has just been re-read. */
  function Decide(realm: Realm, log: seq<AuditEvent>, id: nat, now: int, skipDelay: bool, imported: bool,
                  topicHasMessages: bool): (r: Result<Plan, StepError>)
    ensures r.Success? ==> SoundPlan(realm, r.value)
  {
    var latest := LatestLevel();
    if !(realm.level.None? || realm.level.value < latest) then Failure(LevelNotBehind)
    else if realm.level.None? then
      Success(Commit(if imported then latest else 0, [AdminGroupDM(realm.announcementStream.Some?)]))
    else if realm.announcementStream.None? then
      var onboarding := OnboardingEvent(log, id);
      if onboarding.None? || !(now - onboarding.value.time < NoStreamGraceDays * DaySeconds) then
        Success(Commit(latest, []))
      else Success(Wait)
    else
      var level := realm.level.value;
      ReadyPlanSound(realm, level, topicHasMessages);
      if level == 0 then
        match SentToAdminsWithinDays(log, id, now, FirstUpdateDelayDays)
        case Failure(e) => Failure(e)
        case Success(within) => if within && !skipDelay then Success(Wait) else Success(ReadyPlan(level, topicHasMessages))
      else Success(ReadyPlan(level, topicHasMessages))
  }

  /** The entry check: the step raises exactly when the re-read level is set
      and not below the latest level. */
  lemma DecideEntryCheck(realm: Realm, log: seq<AuditEvent>, id: nat, now: int, skipDelay: bool, imported: bool,
                         topicHasMessages: bool)
    ensures Decide(realm, log, id, now, skipDelay, imported, topicHasMessages) == Failure(LevelNotBehind)
            <==> realm.level.Some? && realm.level.value >= LatestLevel()
  {
  }

  /** A never-initialized realm gets exactly one message, to its administrators,
      and moves to the latest level if imported, to 0 otherwise. */
  lemma DecideUninitialized(realm: Realm, log: seq<AuditEvent>, id: nat, now: int, skipDelay: bool, imported: bool,
                            topicHasMessages: bool)
    requires realm.level.None?
    ensures Decide(realm, log, id, now, skipDelay, imported, topicHasMessages)
            == Success(Commit(if imported then LatestLevel() else 0, [AdminGroupDM(realm.announcementStream.Some?)]))
  {
  }

  /** A realm with a level but no announcement stream waits while its
      onboarding row is younger than seven days; otherwise (or with no such
      row) it jumps to the latest level without any message. */
  lemma DecideNoStream(realm: Realm, log: seq<AuditEvent>, id: nat, now: int, skipDelay: bool, imported: bool,
                       topicHasMessages: bool)
    requires realm.level.Some? && realm.level.value < LatestLevel()
    requires realm.announcementStream.None?
    ensures var onboarding := OnboardingEvent(log, id);
            onboarding.Some? && now - onboarding.value.time < 7 * 86400 ==>
              Decide(realm, log, id, now, skipDelay, imported, topicHasMessages) == Success(Wait)
    ensures var onboarding := OnboardingEvent(log, id);
            onboarding.None? || now - onboarding.value.time >= 7 * 86400 ==>
              Decide(realm, log, id, now, skipDelay, imported, topicHasMessages) == Success(Commit(LatestLevel(), []))
  {
  }

  /** At level 0 with a stream, within a day of onboarding, the step waits
      unless the delay is skipped, in which case it sends the whole batch. */
  lemma DecideDelayWindow(realm: Realm, log: seq<AuditEvent>, id: nat, now: int, skipDelay: bool, imported: bool,
                          topicHasMessages: bool)
    requires realm.level == Some(0) && realm.announcementStream.Some?
    requires OnboardingEvent(log, id).Some? && now - OnboardingEvent(log, id).value.time < 86400
    ensures !skipDelay ==> Decide(realm, log, id, now, skipDelay, imported, topicHasMessages) == Success(Wait)
    ensures skipDelay ==> Decide(realm, log, id, now, skipDelay, imported, topicHasMessages)
                          == Success(ReadyPlan(0, topicHasMessages))
  {
  }

  /** At level 0 with a stream but no onboarding row the step raises, whether
      or not the delay is skipped: the row is looked up before `skipDelay` is read. */
  lemma DecideMissingOnboarding(realm: Realm, log: seq<AuditEvent>, id: nat, now: int, skipDelay: bool, imported: bool,
                                topicHasMessages: bool)
    requires realm.level == Some(0) && realm.announcementStream.Some?
    requires OnboardingEvent(log, id).None?
    ensures Decide(realm, log, id, now, skipDelay, imported, topicHasMessages) == Failure(NoOnboardingEvent)
  {
  }

  /** A ready realm (a stream, and past the delay at level 0) gets the ready
      batch and moves to the latest level. */
  lemma DecideReady(realm: Realm, log: seq<AuditEvent>, id: nat, now: int, skipDelay: bool, imported: bool,
                    topicHasMessages: bool)
    requires realm.level.Some? && realm.level.value < LatestLevel() && realm.announcementStream.Some?
    requires realm.level.value == 0 ==>
               OnboardingEvent(log, id).Some? && (skipDelay || now - OnboardingEvent(log, id).value.time >= 86400)
    ensures Decide(realm, log, id, now, skipDelay, imported, topicHasMessages)
            == Success(ReadyPlan(realm.level.value, topicHasMessages))
  {
  }
}
