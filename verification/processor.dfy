/** The scheduled processing cycle: reset the daily counter when the day
    has passed, then fold over the fetched emails, threading the counter and
    the tracking store through one step per email. The two category
    lookups, the channel list and the remote send outcomes are the
    environment. */
module Processor {
  import opened Model
  import opened Channels
  import Tracking
  import Filter
  import Dispatch

  /** The service's mutable fields and the tracking store it writes to. */
  datatype State = State(sentToday: int, resetAt: int, store: Tracking.Store)

  /** The injected properties. */
  datatype Config = Config(maxPerDay: int, threadWindowHours: int, filter: Filter.FilterConfig)

  /** Defaults of the injected properties: 20 notifications per day and a
      two-hour thread window. */
  const DefaultMaxPerDay: int := 20
  const DefaultThreadWindowHours: int := 2

  /** `category(id)` is the processor's isInAllowedCategory call for that id
      and `recheck(id)` the classifier's own call of it, made again after
      the email was counted (each None when the call throws); `results(pos,
      k)` is the outcome of channel k's remote call for the email at position
      pos of the batch. The two lookups are separate remote calls, so their
      answers are independent parameters. */
  datatype Env = Env(category: string -> Option<bool>, recheck: string -> Option<bool>,
                     channels: seq<Channel>, results: (nat, nat) -> GatewayResult)

  /** Both category lookups for the email answer. */
  predicate LookupsAnswer(env: Env, id: string) {
    env.category(id).Some? && env.recheck(id).Some?
  }

  // ---------------------------------------------------------------------
  // Daily counter
  // ---------------------------------------------------------------------

  /** now.plusDays(1).withHour(0).withMinute(0): midnight of the next day,
      keeping the seconds field of `now`. */
  function NextResetTime(now: int): (r: int)
    ensures now < r <= now + SecondsPerDay
    ensures r / SecondsPerDay == now / SecondsPerDay + 1
    ensures r % SecondsPerDay == now % 60
  {
    var day := now / 86400;
    var second := now % 60;
    assert now == 86400 * day + now % 86400;
    assert now % 86400 == 60 * ((now % 86400) / 60) + second;
    (day + 1) * 86400 + second
  }

  /** The state right after construction at time `t0`. */
  function InitialState(t0: int): (r: State)
    ensures r.sentToday == 0 && r.resetAt > t0 && r.store == Tracking.Empty
  {
    State(0, NextResetTime(t0), Tracking.Empty)
  }

  /** resetDailyNotificationCounterIfNeeded */
  function ResetIfNeeded(st: State, now: int): (r: State)
    ensures now > st.resetAt ==> r.sentToday == 0 && r.resetAt == NextResetTime(now) && r.resetAt > now
    ensures now <= st.resetAt ==> r == st
    ensures r.store == st.store
  {
    if now > st.resetAt then st.(sentToday := 0, resetAt := NextResetTime(now)) else st
  }

  // ---------------------------------------------------------------------
  // One email
  // ---------------------------------------------------------------------

  /** How the loop body ended for an email. */
  datatype Disposition =
    | AlreadyProcessed
    | CategorySkipped
    | ThreadSuppressed
    | NotImportant
    | CapReached
    | Dispatched(notified: bool)
    | Faulted
    | ClassifierFaulted

  /** The disposition passed the dedup, category and thread checks, so the
      processed counter was raised before the classifier ran. */
  predicate Counted(d: Disposition) {
    d.NotImportant? || d.CapReached? || d.Dispatched? || d.ClassifierFaulted?
  }

  predicate CountedImportant(d: Disposition) {
    d.CapReached? || d.Dispatched?
  }

  predicate CountedNotified(d: Disposition) {
    d == Dispatched(true)
  }

  /** The flags written to the tracking store for a disposition. */
  predicate RecordedImportant(d: Disposition) {
    d.ThreadSuppressed? || d.CapReached? || d.Dispatched?
  }

  predicate Recorded(d: Disposition) {
    !d.AlreadyProcessed? && !d.Faulted? && !d.ClassifierFaulted?
  }

  /** The verdict of the primary classifier for an email whose category
      lookup answered `allowed`. */
  predicate Important(e: Email, cfg: Config, allowed: bool, st: State, now: int) {
    Filter.IsImportantEnhanced(Some(e), cfg.filter, allowed, st.store, now)
  }

  /** The dispatch for the email at position pos. */
  function DispatchFor(e: Email, pos: nat, env: Env): Dispatch.DispatchResult {
    Dispatch.SendNotifications(Some(e), env.channels, (k: nat) => env.results(pos, k))
  }

  /** The branch the loop body of processEmails takes for the email at
      position pos. An exception from either category lookup is caught by
      the loop; the classifier's one comes after the email was counted. */
  function Decide(st: State, e: Email, pos: nat, cfg: Config, env: Env, now: int): (d: Disposition)
    ensures d.AlreadyProcessed? <==> Tracking.IsProcessed(st.store, e.id)
    ensures d.Faulted? <==> !Tracking.IsProcessed(st.store, e.id) && env.category(e.id).None?
    ensures d.CategorySkipped? <==> !Tracking.IsProcessed(st.store, e.id) && env.category(e.id) == Some(true)
    ensures d.ThreadSuppressed? ==>
      (env.category(e.id) == Some(false) && Present(e.threadId) &&
       Tracking.WasThreadRecentlyProcessed(st.store, e.threadId, cfg.threadWindowHours, now))
    ensures Counted(d) ==>
      (env.category(e.id) == Some(false) &&
       !Tracking.WasThreadRecentlyProcessed(st.store, e.threadId, cfg.threadWindowHours, now))
    ensures d.ClassifierFaulted? <==> Counted(d) && env.recheck(e.id).None?
    ensures Counted(d) && env.recheck(e.id).Some? ==>
      (CountedImportant(d) <==> Important(e, cfg, env.recheck(e.id).value, st, now))
    ensures d.CapReached? ==> st.sentToday >= cfg.maxPerDay
    ensures d.Dispatched? ==>
      (st.sentToday < cfg.maxPerDay && d.notified == Dispatch.SomeAvailable(env.channels, 0))
  {
    if Tracking.IsProcessed(st.store, e.id) then AlreadyProcessed
    else
      match env.category(e.id)
      case None => Faulted
      case Some(allowed) =>
        if allowed then CategorySkipped
        else if Present(e.threadId) && Tracking.WasThreadRecentlyProcessed(st.store, e.threadId, cfg.threadWindowHours, now) then
          ThreadSuppressed
        else if env.recheck(e.id).None? then ClassifierFaulted
        else if !Important(e, cfg, env.recheck(e.id).value, st, now) then NotImportant
        else if st.sentToday < cfg.maxPerDay then
          Dispatch.NonEmptyIffSomeAvailable(e, env.channels, (k: nat) => env.results(pos, k));
          Dispatched(DispatchFor(e, pos, env).entries != [])
        else CapReached
  }

  datatype StepResult = StepResult(st: State, d: Disposition)

  /** The loop body of processEmails: every branch but the first and the
      failing lookups records the email once, with the flags of its branch;
      only a non-empty dispatch advances the counter. */
  function Step(st: State, e: Email, pos: nat, cfg: Config, env: Env, now: int): (r: StepResult)
    ensures r.d == Decide(st, e, pos, cfg, env, now)
    ensures !Recorded(r.d) ==> r.st == st
    ensures Recorded(r.d) ==>
      r.st.store == Tracking.Record(st.store, e.id, e.threadId, e.subject, e.senderEmail,
                                    RecordedImportant(r.d), CountedNotified(r.d), now)
    ensures Recorded(r.d) ==>
      r.st.store.processed[e.id] == Tracking.ProcessedInfo(e.id, e.threadId, e.subject, e.senderEmail, now,
                                                           RecordedImportant(r.d), CountedNotified(r.d))
    ensures r.st.sentToday == st.sentToday + (if CountedNotified(r.d) then 1 else 0)
    ensures r.st.resetAt == st.resetAt
  {
    var d := Decide(st, e, pos, cfg, env, now);
    if !Recorded(d) then StepResult(st, d)
    else
      var store := Tracking.Record(st.store, e.id, e.threadId, e.subject, e.senderEmail,
                                   RecordedImportant(d), CountedNotified(d), now);
      StepResult(State(st.sentToday + (if CountedNotified(d) then 1 else 0), st.resetAt, store), d)
  }

  // ---------------------------------------------------------------------
  // The cycle
  // ---------------------------------------------------------------------

  /** The three counters logged at the end of a cycle. */
  datatype Summary = Summary(processed: nat, important: nat, notified: nat)

  datatype CycleResult = CycleResult(st: State, summary: Summary, ds: seq<Disposition>)

  /** The loop over emails[i..]. */
  function {:induction false} Fold(st: State, emails: seq<Email>, i: nat, cfg: Config, env: Env, now: int): (r: CycleResult)
    requires i <= |emails|
    ensures |r.ds| == |emails| - i
    ensures r.summary.notified <= r.summary.important <= r.summary.processed <= |emails| - i
    ensures r.st.sentToday == st.sentToday + r.summary.notified
    ensures r.st.resetAt == st.resetAt
    ensures st.sentToday <= cfg.maxPerDay ==> r.st.sentToday <= cfg.maxPerDay
    decreases |emails| - i
  {
    if i == |emails| then CycleResult(st, Summary(0, 0, 0), [])
    else
      var s := Step(st, emails[i], i, cfg, env, now);
      var rest := Fold(s.st, emails, i + 1, cfg, env, now);
      var sum := Summary(
        rest.summary.processed + (if Counted(s.d) then 1 else 0),
        rest.summary.important + (if CountedImportant(s.d) then 1 else 0),
        rest.summary.notified + (if CountedNotified(s.d) then 1 else 0));
      CycleResult(rest.st, sum, [s.d] + rest.ds)
  }

  /** processEmails: the reset runs first, then the batch is folded. */
  function ProcessEmails(st: State, emails: seq<Email>, cfg: Config, env: Env, now: int): (r: CycleResult)
    ensures r.summary.notified <= r.summary.important <= r.summary.processed <= |emails|
    ensures now > st.resetAt ==> r.st.sentToday == r.summary.notified && r.st.resetAt > now
    ensures now <= st.resetAt ==> r.st.sentToday == st.sentToday + r.summary.notified && r.st.resetAt == st.resetAt
  {
    Fold(ResetIfNeeded(st, now), emails, 0, cfg, env, now)
  }

  /** The daily cap holds across any run of cycles that starts below it. */
  lemma CapIsNeverExceeded(st: State, emails: seq<Email>, cfg: Config, env: Env, now: int)
    requires st.sentToday <= cfg.maxPerDay || now > st.resetAt
    requires cfg.maxPerDay >= 0
    ensures ProcessEmails(st, emails, cfg, env, now).st.sentToday <= cfg.maxPerDay
  {
  }

  /** Under the default properties a cycle that starts within the day's
      allowance, or after the reset time, leaves at most 20 notifications
      counted for the day. */
  lemma DefaultCapIsTwentyPerDay(st: State, emails: seq<Email>, filter: Filter.FilterConfig, env: Env, now: int)
    requires st.sentToday <= DefaultMaxPerDay || now > st.resetAt
    ensures ProcessEmails(st, emails, Config(DefaultMaxPerDay, DefaultThreadWindowHours, filter), env, now).st.sentToday <= 20
  {
    CapIsNeverExceeded(st, emails, Config(DefaultMaxPerDay, DefaultThreadWindowHours, filter), env, now);
  }

  /** One step of the loop over the batch, as a fact about the result. */
  lemma FoldStep(st: State, emails: seq<Email>, i: nat, cfg: Config, env: Env, now: int)
    requires i < |emails|
    ensures var s := Step(st, emails[i], i, cfg, env, now);
      var rest := Fold(s.st, emails, i + 1, cfg, env, now);
      var r := Fold(st, emails, i, cfg, env, now);
      && r.ds == [s.d] + rest.ds
      && r.st == rest.st
      && r.summary.notified == rest.summary.notified + (if CountedNotified(s.d) then 1 else 0)
  {
  }

  /** At the cap, one step neither dispatches nor moves the counter. */
  lemma StepAtCap(st: State, e: Email, pos: nat, cfg: Config, env: Env, now: int)
    requires st.sentToday >= cfg.maxPerDay
    ensures !Step(st, e, pos, cfg, env, now).d.Dispatched?
    ensures Step(st, e, pos, cfg, env, now).st.sentToday == st.sentToday
  {
    var d := Decide(st, e, pos, cfg, env, now);
    assert !d.Dispatched?;
  }

  /** Once the cap is reached, no email of the cycle is dispatched until
      the reset time has passed. */
  lemma {:induction false} NoDispatchAtCap(st: State, emails: seq<Email>, i: nat, cfg: Config, env: Env, now: int)
    requires i <= |emails| && st.sentToday >= cfg.maxPerDay
    ensures var r := Fold(st, emails, i, cfg, env, now);
      r.summary.notified == 0 && forall k :: 0 <= k < |r.ds| ==> !r.ds[k].Dispatched?
    decreases |emails| - i
  {
    if i < |emails| {
      var s := Step(st, emails[i], i, cfg, env, now);
      StepAtCap(st, emails[i], i, cfg, env, now);
      NoDispatchAtCap(s.st, emails, i + 1, cfg, env, now);
      FoldStep(st, emails, i, cfg, env, now);
      var rest := Fold(s.st, emails, i + 1, cfg, env, now);
      var r := Fold(st, emails, i, cfg, env, now);
      forall k | 0 <= k < |r.ds| ensures !r.ds[k].Dispatched? {
        if k > 0 {
          assert r.ds[k] == rest.ds[k - 1];
        }
      }
    } else {
      assert Fold(st, emails, i, cfg, env, now) == CycleResult(st, Summary(0, 0, 0), []);
    }
  }

  /** An email counts as notified as soon as some channel is available,
      even if every send fails: the all-FAILED result list is non-empty. */
  lemma NotifiedEvenWhenAllSendsFail(st: State, e: Email, pos: nat, cfg: Config, env: Env, now: int)
    requires !Tracking.IsProcessed(st.store, e.id) && env.category(e.id) == Some(false)
    requires !Tracking.WasThreadRecentlyProcessed(st.store, e.threadId, cfg.threadWindowHours, now)
    requires env.recheck(e.id) == Some(false)
    requires Important(e, cfg, false, st, now) && st.sentToday < cfg.maxPerDay
    requires Dispatch.SomeAvailable(env.channels, 0)
    requires forall k :: env.results(pos, k) != Accepted
    ensures Step(st, e, pos, cfg, env, now).d == Dispatched(true)
    ensures Step(st, e, pos, cfg, env, now).st.store.processed[e.id].wasNotified
  {
  }

  /** The classifier's own lookup decides the verdict for a counted email:
      an allowed answer there makes it not important, so it is counted and
      recorded as not important; a throw there counts it but leaves it
      untracked, to be processed again next cycle. */
  lemma ClassifierLookupDecides(st: State, e: Email, pos: nat, cfg: Config, env: Env, now: int)
    requires !Tracking.IsProcessed(st.store, e.id) && env.category(e.id) == Some(false)
    requires !(Present(e.threadId) && Tracking.WasThreadRecentlyProcessed(st.store, e.threadId, cfg.threadWindowHours, now))
    ensures var s := Step(st, e, pos, cfg, env, now);
      && (env.recheck(e.id) == Some(true) ==>
            s.d == NotImportant && !s.st.store.processed[e.id].wasImportant)
      && (env.recheck(e.id).None? ==>
            s.d == ClassifierFaulted && Counted(s.d) && s.st == st)
  {
  }

  // ---------------------------------------------------------------------
  // Deduplication across and within cycles
  // ---------------------------------------------------------------------

  /** No record in the store is older than the retention window at `now`. */
  predicate Fresh(s: Tracking.Store, now: int) {
    forall id :: id in s.processed ==> !Tracking.Expired(s.processed[id].processedTime, now)
  }

  /** With a fresh store, recording keeps every id and stays fresh. */
  lemma RecordKeepsFreshIds(s: Tracking.Store, emailId: string, threadId: Option<string>, subject: Option<string>,
                            senderEmail: Option<string>, important: bool, notified: bool, now: int)
    requires Fresh(s, now)
    ensures var r := Tracking.Record(s, emailId, threadId, subject, senderEmail, important, notified, now);
      Fresh(r, now) && s.processed.Keys + {emailId} == r.processed.Keys
  {
  }

  /** One step over a fresh store keeps it fresh, loses no id, and leaves
      the email recorded unless a lookup failed. */
  lemma StepKeepsFreshIds(st: State, e: Email, pos: nat, cfg: Config, env: Env, now: int)
    requires Fresh(st.store, now)
    ensures var s := Step(st, e, pos, cfg, env, now);
      && Fresh(s.st.store, now)
      && st.store.processed.Keys <= s.st.store.processed.Keys
      && (LookupsAnswer(env, e.id) ==> Tracking.IsProcessed(s.st.store, e.id))
  {
    var d := Decide(st, e, pos, cfg, env, now);
    if Recorded(d) {
      RecordKeepsFreshIds(st.store, e.id, e.threadId, e.subject, e.senderEmail,
                          RecordedImportant(d), CountedNotified(d), now);
    }
  }

  /** Within a cycle over a fresh store, every email whose lookups answer
      ends up recorded, and nothing recorded before is lost. */
  lemma {:induction false} FoldRecordsEveryEmail(st: State, emails: seq<Email>, i: nat, cfg: Config, env: Env, now: int)
    requires i <= |emails| && Fresh(st.store, now)
    ensures var r := Fold(st, emails, i, cfg, env, now);
      && Fresh(r.st.store, now)
      && st.store.processed.Keys <= r.st.store.processed.Keys
      && forall k :: i <= k < |emails| && LookupsAnswer(env, emails[k].id) ==>
           Tracking.IsProcessed(r.st.store, emails[k].id)
    decreases |emails| - i
  {
    if i < |emails| {
      var s := Step(st, emails[i], i, cfg, env, now);
      StepKeepsFreshIds(st, emails[i], i, cfg, env, now);
      FoldRecordsEveryEmail(s.st, emails, i + 1, cfg, env, now);
      var rest := Fold(s.st, emails, i + 1, cfg, env, now);
      assert Fold(st, emails, i, cfg, env, now).st == rest.st;
      forall k | i <= k < |emails| && LookupsAnswer(env, emails[k].id)
        ensures Tracking.IsProcessed(rest.st.store, emails[k].id)
      {
        if k == i {
          assert emails[i].id in s.st.store.processed.Keys;
        }
      }
    }
  }

  /** A batch whose every email is already tracked (or whose lookup fails)
      changes nothing and is counted nowhere. */
  lemma {:induction false} KnownBatchIsInert(st: State, emails: seq<Email>, i: nat, cfg: Config, env: Env, now: int)
    requires i <= |emails|
    requires forall k :: i <= k < |emails| && env.category(emails[k].id).Some? ==>
      Tracking.IsProcessed(st.store, emails[k].id)
    ensures var r := Fold(st, emails, i, cfg, env, now);
      && r.st == st && r.summary == Summary(0, 0, 0)
      && forall k :: 0 <= k < |r.ds| ==> r.ds[k] == AlreadyProcessed || r.ds[k] == Faulted
    decreases |emails| - i
  {
    if i < |emails| {
      var s := Step(st, emails[i], i, cfg, env, now);
      assert s.st == st;
      KnownBatchIsInert(st, emails, i + 1, cfg, env, now);
      var r := Fold(st, emails, i, cfg, env, now);
      assert forall k :: 1 <= k < |r.ds| ==> r.ds[k] == Fold(st, emails, i + 1, cfg, env, now).ds[k - 1];
    }
  }

  /** Running the same batch again under the same lookup answers, at any
      later time, sends nothing and records nothing: every email is skipped
      as already processed or fails its first lookup again. The first run
      must start from a store with nothing expired, and the classifier's
      lookup must answer wherever the first one does. */
  lemma SecondCycleSendsNothing(st: State, emails: seq<Email>, cfg: Config, env: Env, now: int, later: int)
    requires Fresh(st.store, now)
    requires forall k :: 0 <= k < |emails| && env.category(emails[k].id).Some? ==> env.recheck(emails[k].id).Some?
    ensures var r1 := ProcessEmails(st, emails, cfg, env, now);
      var r2 := ProcessEmails(r1.st, emails, cfg, env, later);
      r2.summary == Summary(0, 0, 0) && r2.st.store == r1.st.store &&
      forall k :: 0 <= k < |r2.ds| ==> r2.ds[k] == AlreadyProcessed || r2.ds[k] == Faulted
  {
    var r1 := ProcessEmails(st, emails, cfg, env, now);
    FoldRecordsEveryEmail(ResetIfNeeded(st, now), emails, 0, cfg, env, now);
    assert forall k :: 0 <= k < |emails| && env.category(emails[k].id).Some? ==> LookupsAnswer(env, emails[k].id);
    KnownBatchIsInert(ResetIfNeeded(r1.st, later), emails, 0, cfg, env, later);
  }

  /** Two emails of one thread in a row: once the first is notified, the
      second is suppressed by the thread check. */
  lemma SameThreadIsSuppressed(st: State, e1: Email, e2: Email, pos: nat, cfg: Config, env: Env, now: int)
    requires Step(st, e1, pos, cfg, env, now).d == Dispatched(true)
    requires Present(e1.threadId) && e2.threadId == e1.threadId && cfg.threadWindowHours > 0
    requires e2.id != e1.id && !Tracking.IsProcessed(st.store, e2.id) && env.category(e2.id) == Some(false)
    ensures Step(Step(st, e1, pos, cfg, env, now).st, e2, pos + 1, cfg, env, now).d == ThreadSuppressed
  {
    var s1 := Step(st, e1, pos, cfg, env, now);
    Tracking.NotifiedRecordMakesThreadRecent(st.store, e1.id, e1.threadId, e1.subject, e1.senderEmail,
                                             now, cfg.threadWindowHours);
    assert !Tracking.IsProcessed(s1.st.store, e2.id) by {
      assert !Tracking.IsProcessed(Tracking.Record(st.store, e1.id, e1.threadId, e1.subject, e1.senderEmail, true, true, now), e2.id);
    }
  }

  /** Emails fetched from Gmail carry no thread id, so the thread check
      never fires inside a cycle over a fetched batch. */
  lemma FetchedEmailsAreNeverThreadSuppressed(st: State, emails: seq<Email>, cfg: Config, env: Env, now: int, k: nat)
    requires forall j :: 0 <= j < |emails| ==> emails[j].threadId.None?
    requires k < |emails|
    ensures Decide(st, emails[k], k, cfg, env, now) != ThreadSuppressed
  {
  }
}
