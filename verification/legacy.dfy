/** The older scheduled pipeline, which still runs beside the processor:
    classify the whole batch first, then dispatch every important email.
    It keeps no tracking, no daily counter and no per-email catch. */
module Legacy {
  import opened Model
  import opened Channels
  import Tracking
  import Filter
  import Dispatch

  /** The batch with each email's important flag set, and the positions of
      the emails handed to sendNotifications, in call order. */
  datatype LegacyResult = LegacyResult(flagged: seq<Email>, sent: seq<nat>)

  /** The classifier for one email: the category lookup feeds the inverted
      gate; a lookup that throws aborts the whole cycle (None). An email the
      lookup calls allowed, or a stale one, is never important; past those
      gates the primary classifier's six rules decide. */
  function Classify(e: Email, cfg: Filter.FilterConfig, category: string -> Option<bool>,
                    store: Tracking.Store, now: int): (r: Option<bool>)
    ensures r.None? <==> category(e.id).None?
    ensures category(e.id) == Some(true) ==> r == Some(false)
    ensures !Filter.IsRecent(e, cfg.recencyHours, now) ==> r != Some(true)
    ensures category(e.id) == Some(false) && Filter.IsRecent(e, cfg.recencyHours, now) && Filter.UrgentRule(e) ==>
      r == Some(true)
    ensures r == Some(true) <==>
      && category(e.id) == Some(false)
      && Filter.IsRecent(e, cfg.recencyHours, now)
      && (Filter.UrgentRule(e) || Filter.ContentRules(e, cfg) || Filter.FeedbackRule(e, store, now) || Filter.ReplyRule(e))
  {
    match category(e.id)
    case None => None
    case Some(allowed) => Some(Filter.IsImportantEnhanced(Some(e), cfg, allowed, store, now))
  }

  /** The stream's filter over emails[i..]: every email is classified and
      flagged before any send. */
  function {:induction false} ClassifyAll(emails: seq<Email>, i: nat, cfg: Filter.FilterConfig,
                                          category: string -> Option<bool>, store: Tracking.Store,
                                          now: int): (r: Option<seq<Email>>)
    requires i <= |emails|
    ensures r.None? <==> exists k :: i <= k < |emails| && Classify(emails[k], cfg, category, store, now).None?
    ensures r.Some? ==> |r.value| == |emails| - i && forall k :: i <= k < |emails| ==>
      r.value[k - i] == emails[k].(isImportant := Classify(emails[k], cfg, category, store, now).value)
    decreases |emails| - i
  {
    if i == |emails| then Some([])
    else
      match Classify(emails[i], cfg, category, store, now)
      case None => None
      case Some(b) =>
        match ClassifyAll(emails, i + 1, cfg, category, store, now)
        case None => None
        case Some(rest) => Some([emails[i].(isImportant := b)] + rest)
  }

  /** The positions of the flagged emails among flagged[i..], in order. */
  function {:induction false} ImportantPositions(flagged: seq<Email>, i: nat): (r: seq<nat>)
    requires i <= |flagged|
    ensures forall k :: k in r <==> (i <= k < |flagged| && flagged[k].isImportant)
    ensures forall a, b :: 0 <= a < b < |r| ==> r[a] < r[b]
    decreases |flagged| - i
  {
    if i == |flagged| then []
    else
      var rest := ImportantPositions(flagged, i + 1);
      assert forall a :: 0 <= a < |rest| ==> rest[a] in rest;
      if flagged[i].isImportant then
        assert forall a :: 0 < a < |[i] + rest| ==> ([i] + rest)[a] == rest[a - 1];
        [i] + rest
      else rest
  }

  /** EmailProcessorService.processEmails. None when a classification
      throws, in which case nothing is sent; the dispatch results are
      discarded, so the send outcomes do not matter. */
  function ProcessEmails(emails: seq<Email>, cfg: Filter.FilterConfig, category: string -> Option<bool>,
                         store: Tracking.Store, now: int): (r: Option<LegacyResult>)
    ensures r.None? <==> exists k :: 0 <= k < |emails| && Classify(emails[k], cfg, category, store, now).None?
    ensures r.Some? ==> |r.value.flagged| == |emails|
    ensures r.Some? ==> forall k :: 0 <= k < |emails| ==>
      r.value.flagged[k].isImportant == Classify(emails[k], cfg, category, store, now).value
    ensures r.Some? ==> forall k :: 0 <= k < |emails| ==>
      r.value.flagged[k] == emails[k].(isImportant := Classify(emails[k], cfg, category, store, now).value)
    ensures r.Some? ==> forall k :: k in r.value.sent <==> (0 <= k < |emails| && r.value.flagged[k].isImportant)
    ensures r.Some? ==> forall a, b :: 0 <= a < b < |r.value.sent| ==> r.value.sent[a] < r.value.sent[b]
  {
    match ClassifyAll(emails, 0, cfg, category, store, now)
    case None => None
    case Some(flagged) => Some(LegacyResult(flagged, ImportantPositions(flagged, 0)))
  }

  /** With no state between cycles, an email that is important in one
      cycle is sent again in every cycle that fetches it and classifies it
      the same way, however often it was sent before. */
  lemma ImportantEmailIsResentEveryCycle(emails1: seq<Email>, emails2: seq<Email>, k1: nat, k2: nat,
                                         cfg: Filter.FilterConfig, category: string -> Option<bool>,
                                         store1: Tracking.Store, store2: Tracking.Store, now1: int, now2: int)
    requires ProcessEmails(emails1, cfg, category, store1, now1).Some?
    requires ProcessEmails(emails2, cfg, category, store2, now2).Some?
    requires k1 < |emails1| && k2 < |emails2| && emails1[k1] == emails2[k2]
    requires k1 in ProcessEmails(emails1, cfg, category, store1, now1).value.sent
    requires Classify(emails2[k2], cfg, category, store2, now2) == Classify(emails1[k1], cfg, category, store1, now1)
    ensures k2 in ProcessEmails(emails2, cfg, category, store2, now2).value.sent
  {
  }

  /** Unlike the processor, the legacy classifier sees the category gate:
      an email whose lookup answers true is never sent. */
  lemma AllowedCategoryIsNeverSent(emails: seq<Email>, cfg: Filter.FilterConfig, category: string -> Option<bool>,
                                   store: Tracking.Store, now: int, k: nat)
    requires ProcessEmails(emails, cfg, category, store, now).Some?
    requires k < |emails| && category(emails[k].id) == Some(true)
    ensures k !in ProcessEmails(emails, cfg, category, store, now).value.sent
  {
  }

  /** Each important email goes through the dispatcher once: the list of
      dispatch results for a cycle, in send order. */
  function Dispatches(r: LegacyResult, channels: seq<Channel>, results: (nat, nat) -> GatewayResult): (ds: seq<Dispatch.DispatchResult>)
    requires forall a :: 0 <= a < |r.sent| ==> r.sent[a] < |r.flagged|
    ensures |ds| == |r.sent|
    ensures forall a :: 0 <= a < |ds| ==> forall n :: n in ds[a].entries ==> n.title == r.flagged[r.sent[a]].subject
    ensures forall a :: 0 <= a < |ds| ==>
      forall k :: k in ds[a].attempted <==> (0 <= k < |channels| && IsAvailable(channels[k]))
  {
    seq(|r.sent|, a requires 0 <= a < |r.sent| =>
      Dispatch.SendNotifications(Some(r.flagged[r.sent[a]]), channels, (k: nat) => results(r.sent[a], k)))
  }
}
