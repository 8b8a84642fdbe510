/** The tracking store: processed-email records keyed by email id and
    feedback lists keyed by sender address, with the 30-day retention
    sweep. The clock is the explicit `now` parameter. */
module Tracking {
  import opened Model

  datatype ProcessedInfo = ProcessedInfo(
    emailId: string,
    threadId: Option<string>,
    subject: Option<string>,
    senderEmail: Option<string>,
    processedTime: int,
    wasImportant: bool,
    wasNotified: bool)

  datatype Feedback = Feedback(emailId: string, feedbackTime: int, isRelevant: bool)

  datatype Store = Store(
    processed: map<string, ProcessedInfo>,
    feedback: map<string, seq<Feedback>>)

  const Empty: Store := Store(map[], map[])

  const RetentionSeconds: int := 30 * SecondsPerDay

  /** The sweep runs when the record count after an insert is a multiple of this. */
  const SweepEvery: int := 100

  /** now.minusDays(30) */
  function RetentionCutoff(now: int): int {
    now - RetentionSeconds
  }

  /** `isBefore(cutoff)`: the sweep's removal test. */
  predicate Expired(time: int, now: int) {
    time < RetentionCutoff(now)
  }

  /** `isAfter(cutoff)`: the feedback statistics' inclusion test. */
  predicate Recent(time: int, now: int) {
    time > RetentionCutoff(now)
  }

  predicate IsProcessed(s: Store, emailId: string) {
    emailId in s.processed
  }

  // ---------------------------------------------------------------------
  // Retention sweep
  // ---------------------------------------------------------------------

  /** The feedback entries the sweep keeps, in their original order: every
      unexpired entry as often as it occurs, and nothing else. */
  function KeepUnexpired(list: seq<Feedback>, now: int): (r: seq<Feedback>)
    ensures |r| <= |list|
    ensures forall f :: f in r <==> f in list && !Expired(f.feedbackTime, now)
    ensures forall f :: multiset(r)[f] == if Expired(f.feedbackTime, now) then 0 else multiset(list)[f]
  {
    if list == [] then []
    else
      assert list == [list[0]] + list[1..];
      if Expired(list[0].feedbackTime, now) then KeepUnexpired(list[1..], now)
      else [list[0]] + KeepUnexpired(list[1..], now)
  }

  /** The sweep's filter distributes over a split of the list, so it keeps
      the surviving entries in their original order. */
  lemma {:induction false} KeepUnexpiredConcat(a: seq<Feedback>, b: seq<Feedback>, now: int)
    ensures KeepUnexpired(a + b, now) == KeepUnexpired(a, now) + KeepUnexpired(b, now)
  {
    if a == [] {
      assert a + b == b;
    } else {
      assert (a + b)[1..] == a[1..] + b;
      KeepUnexpiredConcat(a[1..], b, now);
    }
  }

  /** cleanupOldEntries: drops processed records and feedback entries older
      than thirty days, then every sender whose list became empty. */
  function Sweep(s: Store, now: int): (r: Store)
    ensures forall id :: id in r.processed <==>
      id in s.processed && !Expired(s.processed[id].processedTime, now)
    ensures forall id :: id in r.processed ==> r.processed[id] == s.processed[id]
    ensures forall who :: who in r.feedback <==>
      who in s.feedback && KeepUnexpired(s.feedback[who], now) != []
    ensures forall who :: who in r.feedback ==> r.feedback[who] == KeepUnexpired(s.feedback[who], now)
  {
    Store(
      map id | id in s.processed && !Expired(s.processed[id].processedTime, now) :: s.processed[id],
      map who | who in s.feedback && KeepUnexpired(s.feedback[who], now) != [] :: KeepUnexpired(s.feedback[who], now))
  }

  /** What the sweep leaves behind is fresh, non-empty and untouched. */
  lemma SweepLeavesOnlyFreshEntries(s: Store, now: int)
    ensures var r := Sweep(s, now);
      && (forall id :: id in r.processed ==> !Expired(r.processed[id].processedTime, now))
      && (forall who :: who in r.feedback ==> r.feedback[who] != [])
      && (forall who, f :: who in r.feedback && f in r.feedback[who] ==>
            !Expired(f.feedbackTime, now) && f in s.feedback[who])
      && (forall id :: id in r.processed ==> r.processed[id] == s.processed[id])
  {
  }

  lemma SubsetCardinality<T>(a: set<T>, b: set<T>)
    requires a <= b
    ensures |a| <= |b|
  {
    if a != {} {
      var x :| x in a;
      SubsetCardinality(a - {x}, b - {x});
    }
  }

  // ---------------------------------------------------------------------
  // Recording processed emails
  // ---------------------------------------------------------------------

  /** recordProcessedEmail: put the record (replacing any record with the
      same id), then sweep when the record count is a multiple of 100. */
  function Record(s: Store, emailId: string, threadId: Option<string>, subject: Option<string>,
                  senderEmail: Option<string>, wasImportant: bool, wasNotified: bool, now: int): (r: Store)
    ensures IsProcessed(r, emailId)
    ensures r.processed[emailId] ==
      ProcessedInfo(emailId, threadId, subject, senderEmail, now, wasImportant, wasNotified)
    ensures |r.processed| <= |s.processed| + 1
    ensures IsProcessed(s, emailId) ==> |r.processed| <= |s.processed|
    ensures |s.processed[emailId := r.processed[emailId]]| % SweepEvery != 0 ==>
      && r.feedback == s.feedback
      && (forall id :: id != emailId ==> (id in r.processed <==> id in s.processed))
      && (forall id :: id != emailId && id in r.processed ==> id in s.processed && r.processed[id] == s.processed[id])
    ensures |s.processed[emailId := r.processed[emailId]]| % SweepEvery == 0 ==>
      && r.feedback == Sweep(s, now).feedback
      && (forall id :: id != emailId ==>
            (id in r.processed <==> id in s.processed && !Expired(s.processed[id].processedTime, now)))
      && (forall id :: id != emailId && id in r.processed ==> id in s.processed && r.processed[id] == s.processed[id])
  {
    var info := ProcessedInfo(emailId, threadId, subject, senderEmail, now, wasImportant, wasNotified);
    var put := s.(processed := s.processed[emailId := info]);
    assert IsProcessed(s, emailId) ==> put.processed.Keys == s.processed.Keys;
    if |put.processed| % SweepEvery == 0 then
      SubsetCardinality(Sweep(put, now).processed.Keys, put.processed.Keys);
      Sweep(put, now)
    else put
  }

  /** Recording the same id twice leaves one record, the latest. */
  lemma RecordTwiceReplaces(s: Store, emailId: string, t1: Option<string>, t2: Option<string>,
                            sub1: Option<string>, sub2: Option<string>, from1: Option<string>,
                            from2: Option<string>, i1: bool, i2: bool, n1: bool, n2: bool,
                            now1: int, now2: int)
    ensures var s1 := Record(s, emailId, t1, sub1, from1, i1, n1, now1);
      var s2 := Record(s1, emailId, t2, sub2, from2, i2, n2, now2);
      && |s2.processed| <= |s1.processed|
      && s2.processed[emailId] == ProcessedInfo(emailId, t2, sub2, from2, now2, i2, n2)
  {
  }

  /** The record just written survives any sweep at the same instant. */
  lemma FreshRecordSurvivesSweep(s: Store, emailId: string, threadId: Option<string>,
                                 subject: Option<string>, senderEmail: Option<string>,
                                 wasImportant: bool, wasNotified: bool, now: int)
    ensures var r := Sweep(Record(s, emailId, threadId, subject, senderEmail, wasImportant, wasNotified, now), now);
      IsProcessed(r, emailId) && r.processed[emailId].processedTime == now
  {
  }

  // ---------------------------------------------------------------------
  // Thread recency
  // ---------------------------------------------------------------------

  /** wasThreadRecentlyProcessed: false for a null or empty thread id;
      otherwise some record of that thread was notified strictly after
      now minus `lookbackHours`. */
  predicate WasThreadRecentlyProcessed(s: Store, threadId: Option<string>, lookbackHours: int, now: int) {
    && Present(threadId)
    && exists id :: id in s.processed && NotifiedInThreadAfter(s.processed[id], threadId, now - lookbackHours * SecondsPerHour)
  }

  predicate NotifiedInThreadAfter(info: ProcessedInfo, threadId: Option<string>, cutoff: int) {
    info.threadId == threadId && info.wasNotified && info.processedTime > cutoff
  }

  /** A notified record makes its thread recent for any positive window. */
  lemma NotifiedRecordMakesThreadRecent(s: Store, emailId: string, threadId: Option<string>,
                                        subject: Option<string>, senderEmail: Option<string>,
                                        now: int, lookbackHours: int)
    requires Present(threadId) && lookbackHours > 0
    ensures WasThreadRecentlyProcessed(Record(s, emailId, threadId, subject, senderEmail, true, true, now),
                                       threadId, lookbackHours, now)
  {
    var r := Record(s, emailId, threadId, subject, senderEmail, true, true, now);
    assert NotifiedInThreadAfter(r.processed[emailId], threadId, now - lookbackHours * SecondsPerHour);
  }

  /** A record that was not notified never makes a thread recent by itself:
      with only non-notified records the query is false. */
  lemma UnnotifiedRecordsNeverCount(s: Store, threadId: Option<string>, lookbackHours: int, now: int)
    requires forall id :: id in s.processed ==> !s.processed[id].wasNotified
    ensures !WasThreadRecentlyProcessed(s, threadId, lookbackHours, now)
  {
  }

  /** The sweep never changes the thread query for windows of at most 30 days. */
  lemma SweepPreservesThreadQuery(s: Store, threadId: Option<string>, lookbackHours: int, now: int)
    requires lookbackHours * SecondsPerHour <= RetentionSeconds
    ensures WasThreadRecentlyProcessed(Sweep(s, now), threadId, lookbackHours, now)
        == WasThreadRecentlyProcessed(s, threadId, lookbackHours, now)
  {
    var cutoff := now - lookbackHours * SecondsPerHour;
    if WasThreadRecentlyProcessed(s, threadId, lookbackHours, now) {
      var id :| id in s.processed && NotifiedInThreadAfter(s.processed[id], threadId, cutoff);
      assert NotifiedInThreadAfter(Sweep(s, now).processed[id], threadId, cutoff);
    }
  }

  // ---------------------------------------------------------------------
  // Feedback
  // ---------------------------------------------------------------------

  /** recordUserFeedback: a no-op for an unknown id or a record whose
      sender address is null or empty; otherwise one entry is appended to
      that sender's list (created when absent). */
  function RecordFeedback(s: Store, emailId: string, isRelevant: bool, now: int): (r: Store)
    ensures r.processed == s.processed
    ensures !IsProcessed(s, emailId) || !Present(s.processed[emailId].senderEmail) ==> r == s
    ensures IsProcessed(s, emailId) && Present(s.processed[emailId].senderEmail) ==>
      var who := s.processed[emailId].senderEmail.value;
      && r.feedback.Keys == s.feedback.Keys + {who}
      && r.feedback[who] == (if who in s.feedback then s.feedback[who] else []) + [Feedback(emailId, now, isRelevant)]
      && forall other :: other in s.feedback && other != who ==> r.feedback[other] == s.feedback[other]
  {
    if emailId !in s.processed then s
    else
      var sender := s.processed[emailId].senderEmail;
      if !Present(sender) then s
      else
        var who := sender.value;
        var list := if who in s.feedback then s.feedback[who] else [];
        s.(feedback := s.feedback[who := list + [Feedback(emailId, now, isRelevant)]])
  }

  /** The entries counted by the statistics, in their original order: every
      entry strictly newer than the cutoff as often as it occurs, and
      nothing else. */
  function RecentEntries(list: seq<Feedback>, now: int): (r: seq<Feedback>)
    ensures |r| <= |list|
    ensures forall f :: f in r <==> f in list && Recent(f.feedbackTime, now)
    ensures forall f :: multiset(r)[f] == if Recent(f.feedbackTime, now) then multiset(list)[f] else 0
  {
    if list == [] then []
    else
      assert list == [list[0]] + list[1..];
      if Recent(list[0].feedbackTime, now) then [list[0]] + RecentEntries(list[1..], now)
      else RecentEntries(list[1..], now)
  }

  /** The statistics' filter distributes over a split of the list, so it
      keeps the counted entries in their original order. */
  lemma {:induction false} RecentEntriesConcat(a: seq<Feedback>, b: seq<Feedback>, now: int)
    ensures RecentEntries(a + b, now) == RecentEntries(a, now) + RecentEntries(b, now)
  {
    if a == [] {
      assert a + b == b;
    } else {
      assert (a + b)[1..] == a[1..] + b;
      RecentEntriesConcat(a[1..], b, now);
    }
  }

  /** The positions of the entries newer than the cutoff. */
  function RecentPositions(list: seq<Feedback>, now: int): set<nat> {
    set i: nat | i < |list| && Recent(list[i].feedbackTime, now)
  }

  /** The positions of the relevant entries newer than the cutoff. */
  function RelevantRecentPositions(list: seq<Feedback>, now: int): set<nat> {
    set i: nat | i < |list| && Recent(list[i].feedbackTime, now) && list[i].isRelevant
  }

  function CountRelevant(list: seq<Feedback>): (r: nat)
    ensures r <= |list|
  {
    if list == [] then 0
    else (if list[0].isRelevant then 1 else 0) + CountRelevant(list[1..])
  }

  datatype Stats = Stats(positive: nat, total: nat)

  /** getRecentFeedbackForSender: (0,0) for an unknown sender, otherwise
      the relevant and total counts over the last thirty days. */
  function FeedbackStats(s: Store, senderEmail: string, now: int): (r: Stats)
    ensures senderEmail !in s.feedback ==> r == Stats(0, 0)
    ensures r.positive <= r.total
    ensures senderEmail in s.feedback ==> r.total <= |s.feedback[senderEmail]|
    ensures r.total > 0 ==>
      senderEmail in s.feedback && exists f :: f in s.feedback[senderEmail] && Recent(f.feedbackTime, now)
    ensures senderEmail in s.feedback ==>
      && r.total == |RecentPositions(s.feedback[senderEmail], now)|
      && r.positive == |RelevantRecentPositions(s.feedback[senderEmail], now)|
  {
    if senderEmail !in s.feedback then Stats(0, 0)
    else
      var recent := RecentEntries(s.feedback[senderEmail], now);
      assert recent != [] ==> recent[0] in recent;
      RecentEntriesCountPositions(s.feedback[senderEmail], now);
      Stats(CountRelevant(recent), |recent|)
  }

  /** The statistics' counts are the numbers of recent, and of recent and
      relevant, positions in the list. */
  lemma {:induction false} RecentEntriesCountPositions(list: seq<Feedback>, now: int)
    ensures |RecentEntries(list, now)| == |RecentPositions(list, now)|
    ensures CountRelevant(RecentEntries(list, now)) == |RelevantRecentPositions(list, now)|
    decreases |list|
  {
    if list == [] {
      assert RecentPositions(list, now) == {};
      assert RelevantRecentPositions(list, now) == {};
    } else {
      var init := list[..|list| - 1];
      var f := list[|list| - 1];
      assert list == init + [f];
      RecentEntriesCountPositions(init, now);
      CountPositionsSnoc(init, f, now);
    }
  }

  /** The inductive step of the count: one entry appended. */
  lemma CountPositionsSnoc(init: seq<Feedback>, f: Feedback, now: int)
    requires |RecentEntries(init, now)| == |RecentPositions(init, now)|
    requires CountRelevant(RecentEntries(init, now)) == |RelevantRecentPositions(init, now)|
    ensures |RecentEntries(init + [f], now)| == |RecentPositions(init + [f], now)|
    ensures CountRelevant(RecentEntries(init + [f], now)) == |RelevantRecentPositions(init + [f], now)|
  {
    RecentEntriesAppend(init, f, now);
    PositionsSnoc(init, f, now);
    var tail := if Recent(f.feedbackTime, now) then [f] else [];
    CountRelevantAppend(RecentEntries(init, now), tail);
    CountRelevantOfTail(f, now);
    AddFreshPosition(RecentPositions(init, now), |init|, Recent(f.feedbackTime, now));
    AddFreshPosition(RelevantRecentPositions(init, now), |init|, Recent(f.feedbackTime, now) && f.isRelevant);
  }

  lemma AddFreshPosition(a: set<nat>, n: nat, add: bool)
    requires n !in a
    ensures |a + (if add then {n} else {})| == |a| + (if add then 1 else 0)
  {
    if !add {
      assert a + {} == a;
    }
  }

  lemma CountRelevantOfTail(f: Feedback, now: int)
    ensures CountRelevant(if Recent(f.feedbackTime, now) then [f] else []) ==
      if Recent(f.feedbackTime, now) && f.isRelevant then 1 else 0
  {
    assert [f][1..] == [];
  }

  /** Appending an entry adds at most its own, new, position. */
  lemma PositionsSnoc(init: seq<Feedback>, f: Feedback, now: int)
    ensures RecentPositions(init + [f], now) ==
      RecentPositions(init, now) + (if Recent(f.feedbackTime, now) then {|init|} else {})
    ensures RelevantRecentPositions(init + [f], now) ==
      RelevantRecentPositions(init, now) + (if Recent(f.feedbackTime, now) && f.isRelevant then {|init|} else {})
    ensures |init| !in RecentPositions(init, now) && |init| !in RelevantRecentPositions(init, now)
  {
    assert forall i :: 0 <= i < |init| ==> (init + [f])[i] == init[i];
    assert (init + [f])[|init|] == f;
  }

  lemma RecentEntriesAppend(list: seq<Feedback>, f: Feedback, now: int)
    ensures RecentEntries(list + [f], now) ==
      RecentEntries(list, now) + (if Recent(f.feedbackTime, now) then [f] else [])
  {
    RecentEntriesConcat(list, [f], now);
    assert [f][1..] == [];
  }

  lemma {:induction false} CountRelevantAppend(a: seq<Feedback>, b: seq<Feedback>)
    ensures CountRelevant(a + b) == CountRelevant(a) + CountRelevant(b)
  {
    if a == [] {
      assert a + b == b;
    } else {
      assert (a + b)[1..] == a[1..] + b;
      CountRelevantAppend(a[1..], b);
    }
  }

  /** A feedback recorded now is counted at once: the sender's total grows
      by one and the positive count by one exactly when it was relevant. */
  lemma FeedbackIsCountedImmediately(s: Store, emailId: string, isRelevant: bool, now: int)
    requires IsProcessed(s, emailId) && Present(s.processed[emailId].senderEmail)
    ensures var who := s.processed[emailId].senderEmail.value;
      var before := FeedbackStats(s, who, now);
      var after := FeedbackStats(RecordFeedback(s, emailId, isRelevant, now), who, now);
      && after.total == before.total + 1
      && after.positive == before.positive + (if isRelevant then 1 else 0)
  {
    var who := s.processed[emailId].senderEmail.value;
    var list := if who in s.feedback then s.feedback[who] else [];
    var f := Feedback(emailId, now, isRelevant);
    RecentEntriesAppend(list, f, now);
    CountRelevantAppend(RecentEntries(list, now), [f]);
    assert RecentEntries([], now) == [];
  }

  lemma {:induction false} RecentOfUnexpired(list: seq<Feedback>, now: int)
    ensures RecentEntries(KeepUnexpired(list, now), now) == RecentEntries(list, now)
  {
    if list != [] {
      RecentOfUnexpired(list[1..], now);
    }
  }

  /** The sweep never changes what the statistics report at the same instant. */
  lemma SweepPreservesFeedbackStats(s: Store, senderEmail: string, now: int)
    ensures FeedbackStats(Sweep(s, now), senderEmail, now) == FeedbackStats(s, senderEmail, now)
  {
    if senderEmail in s.feedback {
      var list := s.feedback[senderEmail];
      RecentOfUnexpired(list, now);
      if KeepUnexpired(list, now) == [] {
        assert RecentEntries(list, now) == [];
      }
    }
  }
}
