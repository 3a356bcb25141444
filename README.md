# Zulip update announcements rollout

This project models, in Dafny, the rollout of "Zulip update" announcements to
organizations (realms). The server ships a catalog of announcements, one per
announcement level. Each realm stores the level it has reached, or nothing when
it was never initialized. A periodic sweep brings every eligible realm up to the
latest level:

- A never-initialized realm gets a group direct message to its administrators
  and moves to level 0, or to the latest level if it was imported from another
  product.
- A realm with a level but no announcement stream waits seven days after its
  onboarding, then jumps to the latest level without messages.
- A realm with a stream waits one day after onboarding when at level 0 (unless
  the delay is skipped). It then receives an introductory message (when the
  topic is still empty) and one message for each level it missed, in order, and
  moves to the latest level.

Every commit sends its messages and appends one audit-log row recording the old
level, the new level and the sent message ids. Only then is the new level stored.

Modules:

- `Catalog` (`catalog.dfy`): the announcement catalog, the latest level and the
  message lookup by level.
- `Realms` (`realms.dfy`): realm records, audit rows, the eligibility filter and
  the lookup of a realm's onboarding row.
- `Decision` (`decision.dfy`): the catch-up batch and the per-realm decision
  `Decide`, as pure functions. `PrepUpdateMessages` is the batch builder's loop.
- `Rollout` (`rollout.dfy`): the stored state, the commit (`ApplyCommit`), one
  realm's step (`Step`) and the sweep (`Sweep`) as functions of the state. It
  also holds the lemmas about them: invariant preservation, monotone levels,
  isolation between realms, rejection of a racing second step, and idempotence
  of the sweep.
- `ZulipUpdateAnnouncements` (`server.dfy`): a `Server` class holding the realm
  table, the audit log and the message id counter. Its methods update them in
  place and are proved to agree with `Rollout`.

Inputs the source reads from the environment are parameters:

- the current time `now`, in integer seconds;
- whether a realm's announcement topic already has messages;
- whether the message transport raises for a realm;
- the `skip_delay` and "imported from another product" flags.

In three places the behaviour one would expect differs from what the code does, and the model follows the code:

- One would expect the message lookup to accept only levels 1..latest and to
  raise on any other level. The code indexes the catalog with Python
  semantics, so levels -5..0 wrap around (see Findings).
- An error raised inside one realm's step (the failed entry check, the
  missing onboarding row, a transport failure) is caught by the sweep, which
  goes on to the next realm. An out-of-range catalog level would mean a
  corrupt catalog and might be expected to abort the sweep, but the code
  would catch it in the same way.
- One would expect the sweep to be idempotent, with a second run right after
  a first one sending nothing. The code guarantees this only without
  `skip_delay` (`Rollout.SweepTwiceChangesNothing`). With `skip_delay`, a never-initialized
  realm that has a stream moves to level 0 in the first sweep and receives
  the introduction and every update in the second, at the same time.

## Model

| member | source | states |
|---|---|---|
| Catalog.LatestLevel | zerver/lib/zulip_update_announcements.py:145-147 | the latest level is the level of the last catalog entry; the catalog's levels run 1, 2, ... consecutively, so that level equals the catalog's length and every entry's level lies between 1 and it |
| Catalog.MessageForLevel | zerver/lib/zulip_update_announcements.py:150-152 | lookup as written (Python list index `level - 1`): succeeds exactly for `1 - len <= level <= len`; for levels 1..latest it returns the message of the entry with that level; outside `-5..6` it gives the `IndexError` case |
| Catalog.MessageForLevelZeroIsLatest | zerver/lib/zulip_update_announcements.py:150-152 | as written, level 0 yields the latest entry's message, and that entry's level is not 0 |
| Catalog.CheckedMessageForLevel | zerver/lib/zulip_update_announcements.py:150-152 | corrected lookup: succeeds exactly for levels 1..latest, and then returns the message of a catalog entry whose level is the requested one |
| Catalog.LookupsAgreeOnCatalogLevels | zerver/lib/zulip_update_announcements.py:150-152 | on levels 1..latest the lookup as written and the corrected lookup return the same message |
| Realms.BehindFrom | zerver/lib/zulip_update_announcements.py:155-163 | the ids from `start` on, in increasing order, are exactly those of realms that are active, not the system bot realm, and never initialized or below the threshold |
| Realms.RealmsBehind | zerver/lib/zulip_update_announcements.py:155-163 | the eligibility query: returns each realm id that is active, not the system bot realm, and never initialized or below the threshold, each once, in increasing order, and no other |
| Realms.OnboardingEvent | zerver/lib/zulip_update_announcements.py:202-214 | returns the first level-change row of the realm whose old level is "never initialized", and `None` exactly when no such row exists |
| Realms.OnboardingEventAppend | zerver/lib/zulip_update_announcements.py:202-214 | appending a row leaves a realm's onboarding row unchanged if it had one; otherwise the onboarding row becomes the new row when that row is an onboarding row of the realm |
| Decision.SentToAdminsWithinDays | zerver/lib/zulip_update_announcements.py:217-221 | raises (the failed assertion) exactly when the realm has no onboarding row; otherwise true iff fewer than `days` days have passed since that row |
| Decision.UpdateFor | zerver/lib/zulip_update_announcements.py:233 | the update message for a catalog level carries that level and the message of the catalog entry at that level |
| Decision.CatchUp | zerver/lib/zulip_update_announcements.py:224-243 | the catch-up batch from `current` to `latest` holds `latest - current` messages (none when `current >= latest`), the k-th announcing level `current + 1 + k` |
| Decision.PrepUpdateMessages | zerver/lib/zulip_update_announcements.py:232-242 | the while loop builds exactly the catch-up batch: one message per level above `current` up to `latest`, in increasing order; it reads each message through the lookup as written, which never wraps or fails on the levels the loop asks for |
| Decision.CatchUpLevelsIncrease | zerver/lib/zulip_update_announcements.py:232-242 | every level in a catch-up batch lies strictly above `current` and at most `latest`, and the levels strictly increase, so no level is announced twice |
| Decision.ReadyPlan | zerver/lib/zulip_update_announcements.py:336-377 | a ready realm's commit moves it to the latest level |
| Decision.ReadyPlanShape | zerver/lib/zulip_update_announcements.py:336-377 | the ready batch starts with the introductory message exactly when the topic is empty; after it, the batch announces each level above the realm's level once, in order |
| Decision.ReadyPlanSound | zerver/lib/zulip_update_announcements.py:336-377 | the ready batch for a realm at a level below the latest is a sound plan |
| Decision.Decide | zerver/lib/zulip_update_announcements.py:284-377 | every commit the decision makes lands on 0 or the latest level, strictly above any previous level, and announces only levels the realm has not reached, in strictly increasing order |
| Decision.DecideEntryCheck | zerver/lib/zulip_update_announcements.py:291-296 | the step raises on entry exactly when the re-read level is set and not below the latest level |
| Decision.DecideUninitialized | zerver/lib/zulip_update_announcements.py:303-313 | a never-initialized realm gets exactly the administrators' group message (stream-dependent wording) and moves to the latest level if imported, to 0 otherwise |
| Decision.DecideNoStream | zerver/lib/zulip_update_announcements.py:314-325 | with a level but no stream: wait while the onboarding row is younger than seven days; otherwise, or with no such row, commit the latest level with no message |
| Decision.DecideDelayWindow | zerver/lib/zulip_update_announcements.py:326-334 | at level 0 with a stream, within one day of onboarding: wait unless the delay is skipped, in which case the full ready batch is committed |
| Decision.DecideMissingOnboarding | zerver/lib/zulip_update_announcements.py:329-334 | at level 0 with a stream and no onboarding row, the step raises even when the delay is skipped, because the lookup is evaluated before the flag |
| Decision.DecideReady | zerver/lib/zulip_update_announcements.py:336-377 | with a stream, at a level above 0 or past the one-day delay, the decision is the ready batch and the latest level |
| Rollout.FreshIds | zerver/lib/zulip_update_announcements.py:253-255 | the transport returns consecutive ids starting at the next free id, one per request, in request order |
| Rollout.ApplyCommit | zerver/lib/zulip_update_announcements.py:246-270 | the commit appends exactly one audit row with the realm, time, previous level, new level and sent ids (no ids when nothing is sent), stores the new level for that realm only, and advances the id counter by the number of messages |
| Rollout.Step | zerver/lib/zulip_update_announcements.py:284-380 | one realm's step commits exactly when the decision is a commit and the transport does not raise on a non-empty batch; it then commits the decided level and the new state is `ApplyCommit` of the decided batch (one matching audit row, counter advanced, only this realm's level changed); the level becomes 0 or the latest and never decreases; a waiting decision gives `Waited` and a raising decision its error, and without a commit nothing changes; no other realm changes |
| Rollout.StepCatchesUp | zerver/lib/zulip_update_announcements.py:326-380 | a realm with a stream, below the latest level and (at level 0) past or skipping the one-day delay after an onboarding row, reaches the latest level in one step when the transport works, with `latest - level` update ids plus one for the introduction when its topic is empty |
| Rollout.StepLogFrame | zerver/lib/zulip_update_announcements.py:257-267 | a step does not change any other realm's onboarding row |
| Rollout.StepPreservesWellFormed | zerver/lib/zulip_update_announcements.py:246-270 | a step keeps levels in range and recorded ids below the counter, and a never-initialized realm still has no onboarding row; ids it records exceed every id already recorded |
| Rollout.RacingStepIsRejected | zerver/lib/zulip_update_announcements.py:288-296 | after a step commits the latest level, any further step on that realm raises and changes nothing, so no message is sent twice |
| Rollout.StepDependsOnRealmOnly | zerver/lib/zulip_update_announcements.py:284-334 | with the sweep's flags (no `skip_delay`, not imported), whether a realm's step commits depends only on its own record and its onboarding row |
| Rollout.StepSettles | zerver/lib/zulip_update_announcements.py:303-334 | when a never-initialized realm has no onboarding row (as the store invariant ensures), then right after its own step without `skip_delay` the realm would not commit again at the same time |
| Rollout.Sweep | zerver/lib/zulip_update_announcements.py:273-281 | the sweep over listed realms keeps the realm table's size and yields one outcome per listed realm |
| Rollout.SweepUnfold | zerver/lib/zulip_update_announcements.py:278-279 | after the first listed realm's step, the sweep ends where the sweep over the remaining realms ends |
| Rollout.SweepFrame | zerver/lib/zulip_update_announcements.py:273-281 | a realm the sweep does not visit keeps its record and its onboarding row |
| Rollout.SweepMonotone | zerver/lib/zulip_update_announcements.py:273-281 | a sweep never lowers any realm's level and keeps every level in range |
| Rollout.SweepPassesEntryCheck | zerver/lib/zulip_update_announcements.py:273-296 | realms the eligibility query returned are still behind when the sweep reaches them, so no step of the sweep fails its entry check |
| Rollout.SweepIsolatesRealms | zerver/lib/zulip_update_announcements.py:278-281 | a visited realm whose step does not commit (including one whose step raises) ends as it began; one that commits ends at the level it committed |
| Rollout.SweepPreservesWellFormed | zerver/lib/zulip_update_announcements.py:273-281 | a sweep keeps the store's invariant |
| Rollout.SweepSettles | zerver/lib/zulip_update_announcements.py:273-281 | for distinct ids, and when no listed never-initialized realm has an onboarding row (as the store invariant ensures), after a sweep without `skip_delay` no visited realm would commit again at the same time |
| Rollout.SweepOfSettledIsNoOp | zerver/lib/zulip_update_announcements.py:273-281 | a sweep over realms none of which would commit changes nothing |
| Rollout.SweepTwiceChangesNothing | zerver/lib/zulip_update_announcements.py:273-281 | idempotence without `skip_delay`: when both sweeps run without `skip_delay`, a second sweep right after the first, at the same time and with the same topic and transport conditions, commits nothing and leaves the state unchanged |
| ZulipUpdateAnnouncements.Server.constructor | zerver/lib/zulip_update_announcements.py:158 | the in-memory stand-in for the `Realm` table that the eligibility query reads: a store with the given realms, an empty audit log and the id counter at 0 satisfies the store invariant |
| ZulipUpdateAnnouncements.Server.DoSendMessages | zerver/lib/zulip_update_announcements.py:253-255 | the transport either raises and changes nothing, or delivers the requests and returns consecutive fresh ids, advancing the counter by their number |
| ZulipUpdateAnnouncements.Server.SendMessagesAndUpdateLevel | zerver/lib/zulip_update_announcements.py:246-270 | calls the transport only when there are requests; if it raises, nothing changes; otherwise the new state is `ApplyCommit` of the old one and the returned ids are the recorded ones |
| ZulipUpdateAnnouncements.Server.SendZulipUpdateAnnouncementsToRealm | zerver/lib/zulip_update_announcements.py:284-380 | the imperative step reaches exactly the state and outcome of `Rollout.Step` and keeps the store invariant |
| ZulipUpdateAnnouncements.Server.SendZulipUpdateAnnouncements | zerver/lib/zulip_update_announcements.py:273-281 | the sweep selects the realms behind the latest level and ends in exactly the state of `Rollout.Sweep` over them, keeping the store invariant |
| ZulipUpdateAnnouncements.Server.SendToEachRealm | zerver/lib/zulip_update_announcements.py:275-281 | the loop runs the step, never flagged as imported, on each listed realm in turn, passes over a realm whose step raises, and ends in the state of `Rollout.Sweep` |

## Left out

- Message text: the catalog holds each announcement's headline rather than its full Markdown body. Collapsing single newlines, translating the topic name into the realm's language and formatting the group direct message and introduction (links, stream name) are not modelled. A message request records only its kind, its level and (for the group message) whether a stream is configured.
- Recipients and sender: looking up the realm's human administrators and the notification bot (`get_system_bot`) are calls into code that is not part of this model.
- Message preparation returning nothing (the `Optional` results of the prepare helpers) is not modelled: every prepared request is taken to exist.
- Transactions and concurrency: the commit is modelled as atomic (a transport failure stores nothing). Overlapping sweeps are modelled only as sequential steps on one state (`Rollout.RacingStepIsRejected`), not as interleavings or database locking.
- Time: one `now`, in integer seconds, is used for a whole sweep, while the source reads the clock several times; time zones and sub-second precision are not modelled.
- Topic contents and a failing transport are parameters (`topicHasMessages`, `sendFails`/`failingSends`); the message store query behind them is not modelled.
- The assertion that the stream has a recipient id (source line 341) is not modelled; the model assumes every stream has one.
- Logging of an exception caught by the sweep is not modelled; the sweep method returns nothing, as in the source. The per-realm outcomes are computed by `Rollout.Sweep`.
- Sweep order: the eligibility query (source lines 158-162) has no ordering, and the model takes the sweep order to be increasing realm id (`Realms.RealmsBehind`). The sweep lemmas hold for any list of distinct ids.
- Persistence: the realm table is a sequence indexed by realm id, and re-reading a realm from the database is reading its entry; audit rows other than level changes are kept only as opaque `OtherEvent` rows.
- ZulipUpdateAnnouncements.Server.DoSendMessages: message ids are modelled as consecutive integers from a counter; the real transport only promises fresh ids.

## Findings

| source | as written | input that shows it | evidently intended | confidence | as-written member | corrected member |
|---|---|---|---|---|---|---|
| zerver/lib/zulip_update_announcements.py:151 | the catalog is indexed with Python's `[level - 1]`, which wraps for negative indices | level 0 returns the latest announcement (level 6) instead of raising; levels -5..-1 also return entries | only levels 1..latest are valid and every other level raises | low: latent, since every caller passes a level of at least 1; not executed | Catalog.MessageForLevelZeroIsLatest | Catalog.CheckedMessageForLevel |
