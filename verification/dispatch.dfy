/** The notification fan-out: every available channel, in list order, is
    sent to once and contributes its outcome entries to the result list.
    The remote outcome of channel k is `results(k)`. */
module Dispatch {
  import opened Model
  import opened Channels

  /** The returned entries, and the indices of the channels whose
      sendNotification was called, in call order. */
  datatype DispatchResult = DispatchResult(entries: seq<Notification>, attempted: seq<nat>)

  /** The entry built for an attempted channel, with its final status. */
  function Entry(title: Option<string>, c: Channel, status: Status): Notification {
    Notification(title, ChannelType(c), HIGH, status)
  }

  /** What one available channel adds: the same SENT entry twice when the
      send returned true (once inside the success branch, once after it),
      a single FAILED entry when it returned false or threw. */
  function Contribution(title: Option<string>, c: Channel, result: GatewayResult): (r: seq<Notification>)
    requires IsAvailable(c)
    ensures result == Accepted ==> r == [Entry(title, c, SENT), Entry(title, c, SENT)]
    ensures result != Accepted ==> r == [Entry(title, c, FAILED)]
  {
    match SendNotification(c, result)
    case Returned(true) => [Entry(title, c, SENT), Entry(title, c, SENT)]
    case Returned(false) => [Entry(title, c, FAILED)]
    case Raised => [Entry(title, c, FAILED)]
  }

  /** Number of available channels at index i or later. */
  function AvailableCount(channels: seq<Channel>, i: nat): nat
    requires i <= |channels|
    decreases |channels| - i
  {
    if i == |channels| then 0
    else (if IsAvailable(channels[i]) then 1 else 0) + AvailableCount(channels, i + 1)
  }

  /** Number of available channels at index i or later whose send succeeds. */
  function AcceptedCount(channels: seq<Channel>, i: nat, results: nat -> GatewayResult): (r: nat)
    requires i <= |channels|
    ensures r <= AvailableCount(channels, i)
    decreases |channels| - i
  {
    if i == |channels| then 0
    else (if IsAvailable(channels[i]) && results(i) == Accepted then 1 else 0) + AcceptedCount(channels, i + 1, results)
  }

  /** Number of entries with the given status. */
  function StatusCount(ns: seq<Notification>, st: Status): (r: nat)
    ensures r <= |ns|
  {
    if ns == [] then 0 else (if ns[0].status == st then 1 else 0) + StatusCount(ns[1..], st)
  }

  lemma {:induction false} StatusCountAppend(a: seq<Notification>, b: seq<Notification>, st: Status)
    ensures StatusCount(a + b, st) == StatusCount(a, st) + StatusCount(b, st)
  {
    if a == [] {
      assert a + b == b;
    } else {
      assert (a + b)[1..] == a[1..] + b;
      StatusCountAppend(a[1..], b, st);
    }
  }

  predicate SomeAvailable(channels: seq<Channel>, i: nat) {
    exists k :: i <= k < |channels| && IsAvailable(channels[k])
  }

  /** The loop over channels i.. of sendNotifications. */
  function {:induction false} Fanout(title: Option<string>, channels: seq<Channel>, i: nat,
                                     results: nat -> GatewayResult): (r: DispatchResult)
    requires i <= |channels|
    ensures forall k :: k in r.attempted <==> (i <= k < |channels| && IsAvailable(channels[k]))
    ensures forall a, b :: 0 <= a < b < |r.attempted| ==> r.attempted[a] < r.attempted[b]
    ensures forall n :: n in r.entries ==> n.status != PENDING && n.priority == HIGH && n.title == title
    decreases |channels| - i
  {
    if i == |channels| then DispatchResult([], [])
    else
      var rest := Fanout(title, channels, i + 1, results);
      if !IsAvailable(channels[i]) then rest
      else
        var r := DispatchResult(Contribution(title, channels[i], results(i)) + rest.entries, [i] + rest.attempted);
        assert forall a :: 0 < a < |r.attempted| ==> r.attempted[a] == rest.attempted[a - 1];
        assert forall a :: 0 <= a < |rest.attempted| ==> rest.attempted[a] in rest.attempted;
        r
  }

  /** The status counts of one channel's contribution. */
  lemma ContributionCounts(title: Option<string>, c: Channel, result: GatewayResult)
    requires IsAvailable(c)
    ensures var mine := Contribution(title, c, result);
      && |mine| == (if result == Accepted then 2 else 1)
      && StatusCount(mine, SENT) == (if result == Accepted then 2 else 0)
      && StatusCount(mine, FAILED) == (if result == Accepted then 0 else 1)
  {
    var mine := Contribution(title, c, result);
    if result == Accepted {
      assert mine[1..][1..] == [];
    } else {
      assert mine[1..] == [];
    }
  }

  /** The entries the available channels among the indices `att` add, one
      contribution after the other in the order of `att`. */
  function Contributions(title: Option<string>, channels: seq<Channel>, att: seq<nat>,
                         results: nat -> GatewayResult): seq<Notification>
  {
    if att == [] then []
    else
      var k := att[0];
      (if k < |channels| && IsAvailable(channels[k]) then Contribution(title, channels[k], results(k)) else [])
      + Contributions(title, channels, att[1..], results)
  }

  lemma ContributionsCons(title: Option<string>, channels: seq<Channel>, k: nat, att: seq<nat>,
                          results: nat -> GatewayResult)
    requires k < |channels| && IsAvailable(channels[k])
    ensures Contributions(title, channels, [k] + att, results) ==
      Contribution(title, channels[k], results(k)) + Contributions(title, channels, att, results)
  {
    assert ([k] + att)[0] == k && ([k] + att)[1..] == att;
  }

  /** One step of the fan-out loop, as a fact about the result. */
  lemma FanoutStep(title: Option<string>, channels: seq<Channel>, i: nat, results: nat -> GatewayResult)
    requires i < |channels|
    ensures var rest := Fanout(title, channels, i + 1, results);
      var r := Fanout(title, channels, i, results);
      && (IsAvailable(channels[i]) ==>
            r.attempted == [i] + rest.attempted
            && r.entries == Contribution(title, channels[i], results(i)) + rest.entries)
      && (!IsAvailable(channels[i]) ==> r == rest)
  {
  }

  /** The result list is the attempted channels' contributions laid end to
      end in call order: each accepting channel's two SENT entries sit next
      to each other, and no channel's entries interleave with another's. */
  lemma {:induction false} FanoutIsContributionsInOrder(title: Option<string>, channels: seq<Channel>, i: nat,
                                                        results: nat -> GatewayResult)
    requires i <= |channels|
    ensures Fanout(title, channels, i, results).entries ==
      Contributions(title, channels, Fanout(title, channels, i, results).attempted, results)
    decreases |channels| - i
  {
    if i < |channels| {
      FanoutIsContributionsInOrder(title, channels, i + 1, results);
      FanoutStep(title, channels, i, results);
      if IsAvailable(channels[i]) {
        var rest := Fanout(title, channels, i + 1, results);
        var r := Fanout(title, channels, i, results);
        ContributionsCons(title, channels, i, rest.attempted, results);
        assert r.attempted == [i] + rest.attempted;
        assert r.entries == Contribution(title, channels[i], results(i)) + rest.entries;
        assert rest.entries == Contributions(title, channels, rest.attempted, results);
        assert Contributions(title, channels, r.attempted, results) == Contributions(title, channels, [i] + rest.attempted, results);
      }
    } else {
      assert Fanout(title, channels, i, results) == DispatchResult([], []);
    }
  }

  /** Each available channel adds two entries on success and one on
      failure: all SENT entries come in pairs from successful channels. */
  lemma {:induction false} FanoutCounts(title: Option<string>, channels: seq<Channel>, i: nat,
                                        results: nat -> GatewayResult)
    requires i <= |channels|
    ensures var r := Fanout(title, channels, i, results);
      && |r.entries| == AvailableCount(channels, i) + AcceptedCount(channels, i, results)
      && StatusCount(r.entries, SENT) == 2 * AcceptedCount(channels, i, results)
      && StatusCount(r.entries, FAILED) == AvailableCount(channels, i) - AcceptedCount(channels, i, results)
    decreases |channels| - i
  {
    if i < |channels| {
      FanoutCounts(title, channels, i + 1, results);
      FanoutStep(title, channels, i, results);
      var rest := Fanout(title, channels, i + 1, results);
      if IsAvailable(channels[i]) {
        var mine := Contribution(title, channels[i], results(i));
        assert Fanout(title, channels, i, results).entries == mine + rest.entries;
        StatusCountAppend(mine, rest.entries, SENT);
        StatusCountAppend(mine, rest.entries, FAILED);
        ContributionCounts(title, channels[i], results(i));
        assert AvailableCount(channels, i) == 1 + AvailableCount(channels, i + 1);
        assert AcceptedCount(channels, i, results) ==
          (if results(i) == Accepted then 1 else 0) + AcceptedCount(channels, i + 1, results);
      } else {
        assert Fanout(title, channels, i, results) == rest;
        assert AvailableCount(channels, i) == AvailableCount(channels, i + 1);
        assert AcceptedCount(channels, i, results) == AcceptedCount(channels, i + 1, results);
      }
    }
  }

  /** Every entry comes from an available channel, carries its type, and
      is SENT exactly when that channel's send succeeded. */
  lemma {:induction false} FanoutEntriesComeFromChannels(title: Option<string>, channels: seq<Channel>, i: nat,
                                                         results: nat -> GatewayResult)
    requires i <= |channels|
    ensures forall n :: n in Fanout(title, channels, i, results).entries ==>
      exists k :: (i <= k < |channels| && IsAvailable(channels[k]) &&
        n.channel == ChannelType(channels[k]) && (n.status == SENT <==> results(k) == Accepted))
    decreases |channels| - i
  {
    if i < |channels| {
      FanoutEntriesComeFromChannels(title, channels, i + 1, results);
    }
  }

  /** sendNotifications: a null email touches no channel. */
  function SendNotifications(email: Option<Email>, channels: seq<Channel>, results: nat -> GatewayResult): (r: DispatchResult)
    ensures email.None? ==> r == DispatchResult([], [])
    ensures email.Some? ==> forall k :: k in r.attempted <==> (0 <= k < |channels| && IsAvailable(channels[k]))
    ensures email.Some? ==> forall n :: n in r.entries ==> n.status != PENDING && n.title == email.value.subject
  {
    if email.None? then DispatchResult([], []) else Fanout(email.value.subject, channels, 0, results)
  }

  lemma {:induction false} AvailableCountPositive(channels: seq<Channel>, i: nat)
    requires i <= |channels|
    ensures AvailableCount(channels, i) > 0 <==> SomeAvailable(channels, i)
    decreases |channels| - i
  {
    if i < |channels| {
      AvailableCountPositive(channels, i + 1);
      if SomeAvailable(channels, i) && !IsAvailable(channels[i]) {
        var k :| i <= k < |channels| && IsAvailable(channels[k]);
        assert i + 1 <= k;
      }
    }
  }

  /** The result is non-empty exactly when some channel is available,
      whatever the sends return: an all-failed dispatch still yields one
      FAILED entry per available channel. */
  lemma NonEmptyIffSomeAvailable(email: Email, channels: seq<Channel>, results: nat -> GatewayResult)
    ensures SendNotifications(Some(email), channels, results).entries != [] <==> SomeAvailable(channels, 0)
  {
    AvailableCountPositive(channels, 0);
    FanoutCounts(email.subject, channels, 0, results);
  }

  /** With one available channel the result is the doubled SENT entry or a
      single FAILED one. */
  lemma SingleChannel(email: Email, c: Channel, results: nat -> GatewayResult)
    requires IsAvailable(c)
    ensures var r := SendNotifications(Some(email), [c], results);
      && (results(0) == Accepted ==> r.entries == [Entry(email.subject, c, SENT), Entry(email.subject, c, SENT)])
      && (results(0) != Accepted ==> r.entries == [Entry(email.subject, c, FAILED)])
      && r.attempted == [0]
  {
    var r1 := Fanout(email.subject, [c], 1, results);
    assert r1 == DispatchResult([], []);
    assert Contribution(email.subject, c, results(0)) + [] == Contribution(email.subject, c, results(0));
  }

  /** Two available channels whose sends both succeed: the first channel's
      doubled SENT entry, then the second's. */
  lemma TwoAcceptingChannels(email: Email, c1: Channel, c2: Channel, results: nat -> GatewayResult)
    requires IsAvailable(c1) && IsAvailable(c2)
    requires results(0) == Accepted && results(1) == Accepted
    ensures SendNotifications(Some(email), [c1, c2], results).entries ==
      [Entry(email.subject, c1, SENT), Entry(email.subject, c1, SENT),
       Entry(email.subject, c2, SENT), Entry(email.subject, c2, SENT)]
  {
    var channels := [c1, c2];
    var r2 := Fanout(email.subject, channels, 2, results);
    assert r2 == DispatchResult([], []);
    var r1 := Fanout(email.subject, channels, 1, results);
    assert r1.entries == Contribution(email.subject, c2, results(1)) + [];
    assert Fanout(email.subject, channels, 0, results).entries ==
      Contribution(email.subject, c1, results(0)) + r1.entries;
  }
}
