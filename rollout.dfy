/** The state the rollout reads and writes (realm table, audit log, next
    message id), one realm's step including its commit, and the sweep over
    all eligible realms, as functions of that state. */
module Rollout {
  import opened Wrappers
  import opened Catalog
  import opened Realms
  import opened Decision

  /** The stored state: realms indexed by id, the audit log in insertion
      order, and the id the transport gives the next message it delivers. */
  datatype ServerState = ServerState(realms: seq<Realm>, log: seq<AuditEvent>, nextMessageId: nat)

  /** How one realm's step ended. */
  datatype StepOutcome = Committed(newLevel: nat, messageIds: seq<nat>) | Waited | Failed(error: StepError)

  /** Every stored level lies in `[0, latest]`. */
  ghost predicate LevelsInRange(realms: seq<Realm>)
  {
    forall j :: 0 <= j < |realms| && realms[j].level.Some? ==> realms[j].level.value <= LatestLevel()
  }

  /** The invariant of the store: levels in range, every recorded message id
      below the next one handed out, and no onboarding row for a realm that is
      still never initialized. */
  ghost predicate WellFormed(s: ServerState)
  {
    LevelsInRange(s.realms) &&
    (forall i :: 0 <= i < |s.log| ==> IdsBelow(s.log[i], s.nextMessageId)) &&
    (forall j :: 0 <= j < |s.realms| && s.realms[j].level.None? ==> OnboardingEvent(s.log, j).None?)
  }

  /** Every message id an audit row records is below `bound`. */
  ghost predicate IdsBelow(e: AuditEvent, bound: nat)
  {
    e.LevelChanged? ==> forall m :: m in e.messageIds ==> m < bound
  }

  /** `a` is no later than `b` in the order "never initialized" < 0 < 1 < ... */
  predicate LevelAtMost(a: Option<nat>, b: Option<nat>)
  {
    a.None? || (b.Some? && a.value <= b.value)
  }

  /** The ids the transport returns for `n` messages, in request order. */
  function FreshIds(next: nat, n: nat): (ids: seq<nat>)
    ensures |ids| == n
    ensures forall k :: 0 <= k < n ==> ids[k] == next + k
  {
    seq(n, k requires 0 <= k => next + k)
  }

  /** The commit: send the requests (when there are any), append one audit row
      with the previous level, the new level and the sent ids, and store the
      new level. */
  function ApplyCommit(s: ServerState, id: nat, newLevel: nat, requests: seq<MessageRequest>, now: int): (t: ServerState)
    requires id < |s.realms|
    ensures |t.realms| == |s.realms| && t.realms[id].level == Some(newLevel)
    ensures forall j :: 0 <= j < |s.realms| && j != id ==> t.realms[j] == s.realms[j]
    ensures t.realms[id] == s.realms[id].(level := Some(newLevel))
    ensures |t.log| == |s.log| + 1 && t.log[..|s.log|] == s.log
    ensures t.log[|s.log|].LevelChanged? &&
            t.log[|s.log|] == LevelChanged(id, now, s.realms[id].level, newLevel, t.log[|s.log|].messageIds)
    ensures |t.log[|s.log|].messageIds| == |requests|
    ensures forall k :: 0 <= k < |requests| ==> t.log[|s.log|].messageIds[k] == s.nextMessageId + k
    ensures t.nextMessageId == s.nextMessageId + |requests|
  {
    var ids := if |requests| == 0 then [] else FreshIds(s.nextMessageId, |requests|);
    var log := s.log + [LevelChanged(id, now, s.realms[id].level, newLevel, ids)];
    assert log[..|s.log|] == s.log;
    ServerState(s.realms[id := s.realms[id].(level := Some(newLevel))], log, s.nextMessageId + |ids|)
  }

  /** One realm's step: decide on the re-read record, then commit, unless the
      decision is to wait or raises, or the transport fails; in those cases
      nothing is stored. */
  function Step(s: ServerState, id: nat, skipDelay: bool, imported: bool, now: int, topicHasMessages: bool,
                sendFails: bool): (res: (ServerState, StepOutcome))
    requires id < |s.realms|
    ensures |res.0.realms| == |s.realms|
    ensures forall j :: 0 <= j < |s.realms| && j != id ==> res.0.realms[j] == s.realms[j]
    ensures !res.1.Committed? ==> res.0 == s
    ensures res.1.Committed? ==>
              res.0.realms[id].level == Some(res.1.newLevel) &&
              (res.1.newLevel == 0 || res.1.newLevel == LatestLevel()) &&
              LevelAtMost(s.realms[id].level, res.0.realms[id].level) &&
              |res.0.log| == |s.log| + 1 && res.0.log[..|s.log|] == s.log &&
              res.0.log[|s.log|] == LevelChanged(id, now, s.realms[id].level, res.1.newLevel, res.1.messageIds)
    ensures var d := Decide(s.realms[id], s.log, id, now, skipDelay, imported, topicHasMessages);
            (res.1.Committed? <==> d.Success? && d.value.Commit? && !(sendFails && |d.value.requests| > 0)) &&
            (res.1.Committed? ==> res.1.newLevel == d.value.newLevel &&
                                  res.0 == ApplyCommit(s, id, d.value.newLevel, d.value.requests, now)) &&
            (res.1 == Waited <==> d == Success(Wait)) &&
            (d.Failure? ==> res.1 == Failed(d.error))
  {
    match Decide(s.realms[id], s.log, id, now, skipDelay, imported, topicHasMessages)
    case Failure(e) => (s, Failed(e))
    case Success(Wait) => (s, Waited)
    case Success(Commit(newLevel, requests)) =>
      if sendFails && |requests| > 0 then (s, Failed(SendFailed))
      else
        var t := ApplyCommit(s, id, newLevel, requests, now);
        (t, Committed(newLevel, t.log[|s.log|].messageIds))
  }

  /** Catch-up: a realm with a stream, below the latest level and past any
      first-day delay, reaches the latest level in one step when the transport
      works, with one message id for the introduction (if its topic is empty)
      and one for each level it missed. */
  lemma StepCatchesUp(s: ServerState, id: nat, skipDelay: bool, imported: bool, now: int, topicHasMessages: bool)
    requires id < |s.realms|
    requires s.realms[id].level.Some? && s.realms[id].level.value < LatestLevel()
    requires s.realms[id].announcementStream.Some?
    requires s.realms[id].level.value == 0 ==>
               OnboardingEvent(s.log, id).Some? && (skipDelay || now - OnboardingEvent(s.log, id).value.time >= 86400)
    ensures var res := Step(s, id, skipDelay, imported, now, topicHasMessages, false);
            res.1.Committed? && res.1.newLevel == LatestLevel() &&
            res.0.realms[id].level == Some(LatestLevel()) &&
            |res.1.messageIds| == (if topicHasMessages then 0 else 1) + LatestLevel() - s.realms[id].level.value
  {
    var level := s.realms[id].level.value;
    DecideReady(s.realms[id], s.log, id, now, skipDelay, imported, topicHasMessages);
    ReadyPlanShape(level, topicHasMessages);
  }

  /** The sweep: run the step on each listed realm in turn, with
      `skipDelay` as given and the realm never flagged as imported. */
  function Sweep(s: ServerState, ids: seq<nat>, skipDelay: bool, now: int, topicHasMessages: set<nat>,
                 failingSends: set<nat>): (res: (ServerState, seq<StepOutcome>))
    requires forall k :: 0 <= k < |ids| ==> ids[k] < |s.realms|
    ensures |res.0.realms| == |s.realms| && |res.1| == |ids|
    decreases |ids|
  {
    if ids == [] then (s, [])
    else
      var first := Step(s, ids[0], skipDelay, false, now, ids[0] in topicHasMessages, ids[0] in failingSends);
      var rest := Sweep(first.0, ids[1..], skipDelay, now, topicHasMessages, failingSends);
      (rest.0, [first.1] + rest.1)
  }

  /** One step of a sweep: once the first listed realm has taken its step,
      the sweep ends where the sweep over the rest ends. */
  lemma SweepUnfold(s: ServerState, ids: seq<nat>, skipDelay: bool, now: int, topicHasMessages: set<nat>,
                    failingSends: set<nat>, t: ServerState, outcome: StepOutcome)
    requires ids != [] && forall k :: 0 <= k < |ids| ==> ids[k] < |s.realms|
    requires (t, outcome) == Step(s, ids[0], skipDelay, false, now, ids[0] in topicHasMessages, ids[0] in failingSends)
    ensures |t.realms| == |s.realms|
    ensures Sweep(t, ids[1..], skipDelay, now, topicHasMessages, failingSends).0
            == Sweep(s, ids, skipDelay, now, topicHasMessages, failingSends).0
  {
  }

  /** A step appends at most the one audit row of its own realm, so the
      onboarding row of every other realm stays what it was. */
  lemma StepLogFrame(s: ServerState, id: nat, skipDelay: bool, imported: bool, now: int, topicHasMessages: bool,
                     sendFails: bool, j: nat)
    requires id < |s.realms| && j != id
    ensures OnboardingEvent(Step(s, id, skipDelay, imported, now, topicHasMessages, sendFails).0.log, j)
            == OnboardingEvent(s.log, j)
  {
    var res := Step(s, id, skipDelay, imported, now, topicHasMessages, sendFails);
    if res.1.Committed? {
      var row := res.0.log[|s.log|];
      assert res.0.log == s.log + [row];
      OnboardingEventAppend(s.log, row, j);
    }
  }

  /** A step keeps the store's invariant; in particular the ids it records are
      fresh: above every id already in the log. */
  lemma StepPreservesWellFormed(s: ServerState, id: nat, skipDelay: bool, imported: bool, now: int,
                                topicHasMessages: bool, sendFails: bool)
    requires id < |s.realms| && WellFormed(s)
    ensures var res := Step(s, id, skipDelay, imported, now, topicHasMessages, sendFails);
            WellFormed(res.0) &&
            (res.1.Committed? ==>
               forall i, m, n :: (0 <= i < |s.log| && s.log[i].LevelChanged? && m in s.log[i].messageIds &&
                                  n in res.1.messageIds) ==> m < n)
  {
    var res := Step(s, id, skipDelay, imported, now, topicHasMessages, sendFails);
    if res.1.Committed? {
      var t := res.0;
      var d := Decide(s.realms[id], s.log, id, now, skipDelay, imported, topicHasMessages);
      assert d.Success? && d.value.Commit?;
      assert t == ApplyCommit(s, id, d.value.newLevel, d.value.requests, now);
      var row := t.log[|s.log|];
      assert t.log == s.log + [row];
      forall i | 0 <= i < |t.log|
        ensures IdsBelow(t.log[i], t.nextMessageId)
      {
        if i < |s.log| {
          assert t.log[i] == s.log[i] && IdsBelow(s.log[i], s.nextMessageId);
        } else {
          forall m | m in row.messageIds
            ensures m < t.nextMessageId
          {
            var k :| 0 <= k < |row.messageIds| && row.messageIds[k] == m;
          }
        }
      }
      forall j | 0 <= j < |t.realms| && t.realms[j].level.None?
        ensures OnboardingEvent(t.log, j).None?
      {
        StepLogFrame(s, id, skipDelay, imported, now, topicHasMessages, sendFails, j);
      }
      forall i, m, n | 0 <= i < |s.log| && s.log[i].LevelChanged? && m in s.log[i].messageIds && n in res.1.messageIds
        ensures m < n
      {
        assert IdsBelow(s.log[i], s.nextMessageId);
        var k :| 0 <= k < |row.messageIds| && row.messageIds[k] == n;
      }
    }
  }

  /** The guard against a racing run: once a step has moved a realm to the
      latest level, any further step on that realm raises and stores nothing,
      so no announcement is sent twice. */
  lemma RacingStepIsRejected(s: ServerState, id: nat, skipDelay: bool, imported: bool, now: int,
                             topicHasMessages: bool, sendFails: bool,
                             skipDelay2: bool, imported2: bool, now2: int, topicHasMessages2: bool, sendFails2: bool)
    requires id < |s.realms|
    requires Step(s, id, skipDelay, imported, now, topicHasMessages, sendFails).1 .Committed?
    requires Step(s, id, skipDelay, imported, now, topicHasMessages, sendFails).1 .newLevel == LatestLevel()
    ensures var t := Step(s, id, skipDelay, imported, now, topicHasMessages, sendFails).0;
            Step(t, id, skipDelay2, imported2, now2, topicHasMessages2, sendFails2) == (t, Failed(LevelNotBehind))
  {
  }

  /** Whether realm `j` would commit if a sweep without `skipDelay` reached it now. */
  predicate Settled(s: ServerState, j: nat, now: int, topicHasMessages: set<nat>, failingSends: set<nat>)
    requires j < |s.realms|
  {
    !Step(s, j, false, false, now, j in topicHasMessages, j in failingSends).1.Committed?
  }

  /** A step reads the store only through the realm's record and its
      onboarding row. */
  lemma StepDependsOnRealmOnly(s: ServerState, t: ServerState, j: nat, now: int, topicHasMessages: set<nat>,
                               failingSends: set<nat>)
    requires j < |s.realms| && j < |t.realms|
    requires s.realms[j] == t.realms[j] && OnboardingEvent(s.log, j) == OnboardingEvent(t.log, j)
    ensures Settled(s, j, now, topicHasMessages, failingSends) == Settled(t, j, now, topicHasMessages, failingSends)
  {
    assert Decide(s.realms[j], s.log, j, now, false, false, j in topicHasMessages)
        == Decide(t.realms[j], t.log, j, now, false, false, j in topicHasMessages);
  }

  /** Right after its own step without `skipDelay`, a realm that had no
      onboarding row while never initialized would not commit again at the
      same time: it is either at the latest level, or freshly onboarded and
      inside its delay window. */
  lemma StepSettles(s: ServerState, j: nat, now: int, topicHasMessages: set<nat>, failingSends: set<nat>)
    requires j < |s.realms|
    requires s.realms[j].level.None? ==> OnboardingEvent(s.log, j).None?
    ensures Settled(Step(s, j, false, false, now, j in topicHasMessages, j in failingSends).0, j, now,
                    topicHasMessages, failingSends)
  {
    var res := Step(s, j, false, false, now, j in topicHasMessages, j in failingSends);
    if res.1.Committed? {
      var t := res.0;
      var row := t.log[|s.log|];
      assert t.log == s.log + [row];
      if s.realms[j].level.None? {
        OnboardingEventAppend(s.log, row, j);
        assert OnboardingEvent(t.log, j) == Some(row);
        assert t.realms[j].level == Some(0);
      }
    }
  }

  /** Distinct ids, as the eligibility query returns them. */
  predicate Distinct(ids: seq<nat>)
  {
    forall k, m :: 0 <= k < m < |ids| ==> ids[k] != ids[m]
  }

  /** A sweep leaves every realm it does not visit, and that realm's onboarding
      row, as it was. */
  lemma {:induction false} SweepFrame(s: ServerState, ids: seq<nat>, skipDelay: bool, now: int,
                                      topicHasMessages: set<nat>, failingSends: set<nat>, j: nat)
    requires forall k :: 0 <= k < |ids| ==> ids[k] < |s.realms|
    requires j < |s.realms| && j !in ids
    ensures var f := Sweep(s, ids, skipDelay, now, topicHasMessages, failingSends).0;
            f.realms[j] == s.realms[j] && OnboardingEvent(f.log, j) == OnboardingEvent(s.log, j)
    decreases |ids|
  {
    if ids != [] {
      var first := Step(s, ids[0], skipDelay, false, now, ids[0] in topicHasMessages, ids[0] in failingSends);
      StepLogFrame(s, ids[0], skipDelay, false, now, ids[0] in topicHasMessages, ids[0] in failingSends, j);
      SweepFrame(first.0, ids[1..], skipDelay, now, topicHasMessages, failingSends, j);
    }
  }

  /** A sweep never lowers a level and keeps every level within the catalog. */
  lemma {:induction false} SweepMonotone(s: ServerState, ids: seq<nat>, skipDelay: bool, now: int,
                                         topicHasMessages: set<nat>, failingSends: set<nat>)
    requires forall k :: 0 <= k < |ids| ==> ids[k] < |s.realms|
    requires LevelsInRange(s.realms)
    ensures var f := Sweep(s, ids, skipDelay, now, topicHasMessages, failingSends).0;
            LevelsInRange(f.realms) &&
            forall j :: 0 <= j < |s.realms| ==> LevelAtMost(s.realms[j].level, f.realms[j].level)
    decreases |ids|
  {
    if ids != [] {
      var first := Step(s, ids[0], skipDelay, false, now, ids[0] in topicHasMessages, ids[0] in failingSends);
      SweepMonotone(first.0, ids[1..], skipDelay, now, topicHasMessages, failingSends);
    }
  }

  /** Realms the eligibility query returned are still behind when the sweep
      reaches them, so the entry check never raises during a sweep. */
  lemma {:induction false} SweepPassesEntryCheck(s: ServerState, ids: seq<nat>, skipDelay: bool, now: int,
                                                 topicHasMessages: set<nat>, failingSends: set<nat>)
    requires forall k :: 0 <= k < |ids| ==> ids[k] < |s.realms| && IsBehind(s.realms[ids[k]], LatestLevel())
    requires Distinct(ids)
    ensures var out := Sweep(s, ids, skipDelay, now, topicHasMessages, failingSends).1;
            forall k :: 0 <= k < |ids| ==> out[k] != Failed(LevelNotBehind)
    decreases |ids|
  {
    if ids != [] {
      var first := Step(s, ids[0], skipDelay, false, now, ids[0] in topicHasMessages, ids[0] in failingSends);
      DecideEntryCheck(s.realms[ids[0]], s.log, ids[0], now, skipDelay, false, ids[0] in topicHasMessages);
      assert forall k :: 0 <= k < |ids[1..]| ==> ids[1..][k] == ids[k + 1] && ids[k + 1] != ids[0];
      SweepPassesEntryCheck(first.0, ids[1..], skipDelay, now, topicHasMessages, failingSends);
      var out := Sweep(s, ids, skipDelay, now, topicHasMessages, failingSends).1;
      assert out == [first.1] + Sweep(first.0, ids[1..], skipDelay, now, topicHasMessages, failingSends).1;
    }
  }

  /** Per-realm isolation: a realm whose step waits or fails ends the sweep
      exactly as it began, and a realm whose step commits ends at the level it
      committed, whatever happens to the other realms. */
  lemma {:induction false} SweepIsolatesRealms(s: ServerState, ids: seq<nat>, skipDelay: bool, now: int,
                                               topicHasMessages: set<nat>, failingSends: set<nat>)
    requires forall k :: 0 <= k < |ids| ==> ids[k] < |s.realms|
    requires Distinct(ids)
    ensures var res := Sweep(s, ids, skipDelay, now, topicHasMessages, failingSends);
            forall k :: 0 <= k < |ids| ==>
              (!res.1[k].Committed? ==> res.0.realms[ids[k]] == s.realms[ids[k]]) &&
              (res.1[k].Committed? ==> res.0.realms[ids[k]].level == Some(res.1[k].newLevel))
    decreases |ids|
  {
    if ids != [] {
      var first := Step(s, ids[0], skipDelay, false, now, ids[0] in topicHasMessages, ids[0] in failingSends);
      var rest := ids[1..];
      assert forall k :: 0 <= k < |rest| ==> rest[k] == ids[k + 1] && ids[k + 1] != ids[0];
      SweepFrame(first.0, rest, skipDelay, now, topicHasMessages, failingSends, ids[0]);
      SweepIsolatesRealms(first.0, rest, skipDelay, now, topicHasMessages, failingSends);
      var tail := Sweep(first.0, rest, skipDelay, now, topicHasMessages, failingSends);
      var res := Sweep(s, ids, skipDelay, now, topicHasMessages, failingSends);
      assert res.0 == tail.0 && res.1 == [first.1] + tail.1;
      assert res.0.realms[ids[0]] == first.0.realms[ids[0]];
      forall k | 1 <= k < |ids|
        ensures res.1[k] == tail.1[k - 1] && ids[k] == rest[k - 1]
      {
      }
    }
  }

  /** A sweep keeps the store's invariant. */
  lemma {:induction false} SweepPreservesWellFormed(s: ServerState, ids: seq<nat>, skipDelay: bool, now: int,
                                                    topicHasMessages: set<nat>, failingSends: set<nat>)
    requires forall k :: 0 <= k < |ids| ==> ids[k] < |s.realms|
    requires WellFormed(s)
    ensures WellFormed(Sweep(s, ids, skipDelay, now, topicHasMessages, failingSends).0)
    decreases |ids|
  {
    if ids != [] {
      var first := Step(s, ids[0], skipDelay, false, now, ids[0] in topicHasMessages, ids[0] in failingSends);
      StepPreservesWellFormed(s, ids[0], skipDelay, false, now, ids[0] in topicHasMessages, ids[0] in failingSends);
      SweepPreservesWellFormed(first.0, ids[1..], skipDelay, now, topicHasMessages, failingSends);
    }
  }

  /** After a sweep without `skipDelay`, no realm it visited would commit again
      at the same time. */
  lemma {:induction false} SweepSettles(s: ServerState, ids: seq<nat>, now: int, topicHasMessages: set<nat>,
                                        failingSends: set<nat>)
    requires forall k :: 0 <= k < |ids| ==> ids[k] < |s.realms|
    requires Distinct(ids)
    requires forall k :: 0 <= k < |ids| && s.realms[ids[k]].level.None? ==> OnboardingEvent(s.log, ids[k]).None?
    ensures var f := Sweep(s, ids, false, now, topicHasMessages, failingSends).0;
            forall k :: 0 <= k < |ids| ==> Settled(f, ids[k], now, topicHasMessages, failingSends)
    decreases |ids|
  {
    if ids != [] {
      var i := ids[0];
      var first := Step(s, i, false, false, now, i in topicHasMessages, i in failingSends);
      var rest := ids[1..];
      var f := Sweep(first.0, rest, false, now, topicHasMessages, failingSends).0;
      assert forall k :: 0 <= k < |rest| ==> rest[k] == ids[k + 1] && ids[k + 1] != i;
      forall k | 0 <= k < |rest|
        ensures first.0.realms[rest[k]] == s.realms[rest[k]]
        ensures OnboardingEvent(first.0.log, rest[k]) == OnboardingEvent(s.log, rest[k])
      {
        StepLogFrame(s, i, false, false, now, i in topicHasMessages, i in failingSends, rest[k]);
      }
      SweepSettles(first.0, rest, now, topicHasMessages, failingSends);
      StepSettles(s, i, now, topicHasMessages, failingSends);
      SweepFrame(first.0, rest, false, now, topicHasMessages, failingSends, i);
      StepDependsOnRealmOnly(first.0, f, i, now, topicHasMessages, failingSends);
    }
  }

  /** A sweep over realms none of which would commit changes nothing. */
  lemma {:induction false} SweepOfSettledIsNoOp(s: ServerState, ids: seq<nat>, now: int, topicHasMessages: set<nat>,
                                                failingSends: set<nat>)
    requires forall k :: 0 <= k < |ids| ==> ids[k] < |s.realms| && Settled(s, ids[k], now, topicHasMessages, failingSends)
    ensures var res := Sweep(s, ids, false, now, topicHasMessages, failingSends);
            res.0 == s && forall k :: 0 <= k < |ids| ==> !res.1[k].Committed?
    decreases |ids|
  {
    if ids != [] {
      assert Settled(s, ids[0], now, topicHasMessages, failingSends);
      assert forall k :: 0 <= k < |ids[1..]| ==> ids[1..][k] == ids[k + 1];
      SweepOfSettledIsNoOp(s, ids[1..], now, topicHasMessages, failingSends);
    }
  }

  /** Idempotence: a second sweep without `skipDelay`, right after a first one
      at the same time and with the same transport and topic conditions,
      sends nothing, writes no audit row and changes no level. */
  lemma SweepTwiceChangesNothing(s: ServerState, now: int, topicHasMessages: set<nat>, failingSends: set<nat>)
    requires WellFormed(s)
    ensures var first := Sweep(s, RealmsBehind(s.realms, LatestLevel()), false, now, topicHasMessages, failingSends).0;
            var second := Sweep(first, RealmsBehind(first.realms, LatestLevel()), false, now, topicHasMessages, failingSends);
            second.0 == first && forall k :: 0 <= k < |second.1| ==> !second.1[k].Committed?
  {
    var ids := RealmsBehind(s.realms, LatestLevel());
    var first := Sweep(s, ids, false, now, topicHasMessages, failingSends).0;
    var ids2 := RealmsBehind(first.realms, LatestLevel());
    SweepSettles(s, ids, now, topicHasMessages, failingSends);
    forall k | 0 <= k < |ids2|
      ensures Settled(first, ids2[k], now, topicHasMessages, failingSends)
    {
      var j := ids2[k];
      if j !in ids {
        SweepFrame(s, ids, false, now, topicHasMessages, failingSends, j);
        assert false;
      }
      var m :| 0 <= m < |ids| && ids[m] == j;
    }
    SweepOfSettledIsNoOp(first, ids2, now, topicHasMessages, failingSends);
  }
}
