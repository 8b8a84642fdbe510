/** The two notification channels: availability from configuration, the
    send guard with its exception handling, and the message text each one
    renders. The remote call itself is the input `result`, the outcome the
    Bot API or Twilio call would have if it were made. */
module Channels {
  import opened Model
  import opened Text

  /** A channel with its configuration; a property that may be null or
      blank is an `Option`. */
  datatype Channel =
    | Telegram(botToken: Option<string>, chatId: Option<string>)
    | WhatsApp(enabled: bool, accountSid: Option<string>, authToken: Option<string>,
               fromNumber: Option<string>, toNumber: Option<string>)

  /** isAvailable of each channel. */
  predicate IsAvailable(c: Channel) {
    match c
    case Telegram(token, chat) => Present(token) && Present(chat)
    case WhatsApp(enabled, sid, auth, from, to) =>
      enabled && Present(sid) && Present(auth) && Present(from) && Present(to)
  }

  /** getChannelType */
  function ChannelType(c: Channel): (r: ChannelKind)
    ensures r == TELEGRAM <==> c.Telegram?
    ensures r == WHATSAPP <==> c.WhatsApp?
  {
    if c.Telegram? then TELEGRAM else WHATSAPP
  }

  /** Outcome of the remote call: accepted, rejected with the client's own
      API exception (TelegramApiException for Telegram), or failed with any
      other runtime exception. */
  datatype GatewayResult = Accepted | ApiFailure | RuntimeFailure

  /** What sendNotification does for its caller: return a boolean or throw. */
  datatype SendOutcome = Returned(ok: bool) | Raised

  /** sendNotification: an unavailable channel returns false without the
      remote call; Telegram catches only its API exception, WhatsApp
      catches every exception. */
  function SendNotification(c: Channel, result: GatewayResult): (r: SendOutcome)
    ensures !IsAvailable(c) ==> r == Returned(false)
    ensures r == Returned(true) <==> IsAvailable(c) && result == Accepted
    ensures r == Raised <==> IsAvailable(c) && c.Telegram? && result == RuntimeFailure
  {
    if !IsAvailable(c) then Returned(false)
    else
      match result
      case Accepted => Returned(true)
      case ApiFailure => Returned(false)
      case RuntimeFailure => if c.Telegram? then Raised else Returned(false)
  }

  /** A WhatsApp send never throws, whatever the gateway does. */
  lemma WhatsAppNeverRaises(c: Channel, result: GatewayResult)
    requires c.WhatsApp?
    ensures SendNotification(c, result).Returned?
  {
  }

  // ---------------------------------------------------------------------
  // Rendering helpers
  // ---------------------------------------------------------------------

  /** String concatenation of a possibly-null reference. */
  function Show(s: Option<string>): string {
    s.GetOr("null")
  }

  /** A possibly-null time, rendered by `showTime` (LocalDateTime.toString). */
  function ShowTime(t: Option<int>, showTime: int -> string): string {
    if t.Some? then showTime(t.value) else "null"
  }

  const BodyLimit: nat := 500
  const Ellipsis: string := "..."

  /** The body truncation shared by both channels. */
  function Truncate(s: string): (r: string)
    ensures |r| <= BodyLimit + |Ellipsis|
    ensures |s| <= BodyLimit ==> r == s
    ensures |s| > BodyLimit ==> |r| == BodyLimit + |Ellipsis| && r[..BodyLimit] == s[..BodyLimit] && EndsWith(r, Ellipsis)
  {
    if |s| > BodyLimit then s[..BodyLimit] + Ellipsis else s
  }

  // ---------------------------------------------------------------------
  // Telegram
  // ---------------------------------------------------------------------

  const TelegramHeader: string := "<b>New Important Email</b>\n\n"

  const HtmlNotice: string :=
    "This email contains rich HTML content.\n\nPlease check your email inbox for the complete message."

  const HtmlMarkers: seq<string> := ["<html", "<!DOCTYPE", "<style", "<head", "<body"]

  predicate LooksLikeHtml(body: string) {
    exists k :: 0 <= k < |HtmlMarkers| && Contains(body, HtmlMarkers[k])
  }

  /** No '<' is followed anywhere later by '>'. */
  predicate NoTagPair(s: string) {
    forall i, j :: 0 <= i < j < |s| && s[i] == '<' ==> s[j] != '>'
  }

  /** replaceAll("<[^>]*>", ""): scanning left to right, a '<' with some '>'
      after it starts a match that runs to the first such '>'; a '<' with no
      '>' after it is kept. */
  function StripTags(s: string): (r: string)
    ensures NoTagPair(r)
    ensures |r| <= |s|
    ensures forall c :: c in r ==> c in s
    ensures '<' !in s ==> r == s
    decreases |s|
  {
    if s == [] then []
    else if s[0] == '<' && '>' in s[1..] then
      StripTags(s[IndexOf(s[1..], '>') + 2..])
    else
      var rest := StripTags(s[1..]);
      assert forall c :: c in rest ==> c in s by {
        forall c | c in rest ensures c in s {
          var k :| 0 <= k < |s[1..]| && s[1..][k] == c;
          assert s[k + 1] == c;
        }
      }
      assert s[0] == '<' ==> '>' !in rest;
      assert forall j :: 0 < j < |[s[0]] + rest| ==> ([s[0]] + rest)[j] == rest[j - 1];
      [s[0]] + rest
  }

  /** Stripping leaves a tag-free string unchanged, hence is idempotent. */
  lemma {:induction false} StripTagsFixesTagFree(s: string)
    requires NoTagPair(s)
    ensures StripTags(s) == s
    decreases |s|
  {
    if s != [] {
      assert NoTagPair(s[1..]) by {
        forall i, j | 0 <= i < j < |s[1..]| && s[1..][i] == '<' ensures s[1..][j] != '>' {
          assert s[i + 1] == '<';
        }
      }
      StripTagsFixesTagFree(s[1..]);
      if s[0] == '<' {
        assert '>' !in s[1..] by {
          forall j | 0 <= j < |s[1..]| ensures s[1..][j] != '>' {
            assert s[j + 1] != '>';
          }
        }
      }
    }
  }

  lemma StripTagsIdempotent(s: string)
    ensures StripTags(StripTags(s)) == StripTags(s)
  {
    StripTagsFixesTagFree(StripTags(s));
  }

  /** The entity replacements, each applied once over the whole text, in
      this order. */
  function DecodeEntities(s: string): string {
    Replace(Replace(Replace(Replace(Replace(Replace(s, "&nbsp;", " "), "&lt;", "<"), "&gt;", ">"),
      "&amp;", "&"), "&quot;", "\""), "&apos;", "'")
  }

  /** A target with a character that does not occur in s is not contained. */
  lemma AbsentCharNotContained(s: string, target: string, j: nat)
    requires j < |target| && target[j] !in s
    ensures !Contains(s, target)
  {
    forall i | 0 <= i <= |s| - |target| ensures !OccursAt(s, target, i) {
      assert s[i..i + |target|][j] == s[i + j];
    }
  }

  /** Text without '&' holds no entity and passes through unchanged. */
  lemma DecodeEntitiesWithoutAmpersand(s: string)
    requires '&' !in s
    ensures DecodeEntities(s) == s
  {
    AbsentCharNotContained(s, "&nbsp;", 0);
    AbsentCharNotContained(s, "&lt;", 0);
    AbsentCharNotContained(s, "&gt;", 0);
    AbsentCharNotContained(s, "&amp;", 0);
    AbsentCharNotContained(s, "&quot;", 0);
    AbsentCharNotContained(s, "&apos;", 0);
  }

  /** "&lt;" does not occur in "&amp;lt;": its only '&' is followed by 'a'. */
  lemma EscapedLtHasNoLt()
    ensures !Contains("&amp;lt;", "&lt;")
  {
    var s := "&amp;lt;";
    var target := "&lt;";
    forall i | 0 <= i <= |s| - |target| ensures !OccursAt(s, target, i) {
      assert s[i..i + |target|][0] == s[i];
      assert s[i..i + |target|][1] == s[i + 1];
    }
  }

  lemma EscapedLtLosesAmp()
    ensures Replace("&amp;lt;", "&amp;", "&") == "&lt;"
  {
    var s := "&amp;lt;";
    assert s[..5] == "&amp;";
    assert s[5..] == "lt;";
  }

  /** Each replacement runs once, so a doubly escaped entity is decoded one
      level only: "&amp;lt;" becomes "&lt;", not "<". */
  lemma DecodeEntitiesRunsOnce()
    ensures DecodeEntities("&amp;lt;") == "&lt;"
  {
    AbsentCharNotContained("&amp;lt;", "&nbsp;", 1);
    EscapedLtHasNoLt();
    AbsentCharNotContained("&amp;lt;", "&gt;", 1);
    EscapedLtLosesAmp();
    AbsentCharNotContained("lt;", "&quot;", 0);
    AbsentCharNotContained("lt;", "&apos;", 0);
    assert "&lt;" == "&" + "lt;";
  }

  /** The body part of the Telegram message: "null" for a null body, the
      fixed notice for anything that looks like an HTML document, and
      otherwise the tag-stripped, entity-decoded, cleaned (`cleanup` stands
      for the three whitespace regexes), trimmed and truncated text. */
  function TelegramBody(body: Option<string>, cleanup: string -> string): (r: string)
    ensures body.None? ==> r == "null"
    ensures body.Some? && LooksLikeHtml(body.value) ==> r == HtmlNotice
    ensures body.Some? && !LooksLikeHtml(body.value) ==> |r| <= BodyLimit + |Ellipsis|
  {
    if body.None? then "null"
    else if LooksLikeHtml(body.value) then HtmlNotice
    else Truncate(Trim(cleanup(DecodeEntities(StripTags(body.value)))))
  }

  /** On a body with no '<' and no '&' the tag and entity steps change
      nothing: only the cleanup, the trim and the truncation apply. So a
      short body that the cleanup and the trim leave alone reaches the
      message verbatim. */
  lemma PlainBodyIsOnlyCleanedAndTruncated(body: string, cleanup: string -> string)
    requires '<' !in body && '&' !in body
    ensures TelegramBody(Some(body), cleanup) == Truncate(Trim(cleanup(body)))
    ensures cleanup(body) == body && Trim(body) == body && |body| <= BodyLimit ==>
      TelegramBody(Some(body), cleanup) == body
  {
    DecodeEntitiesWithoutAmpersand(body);
    forall k | 0 <= k < |HtmlMarkers| ensures !Contains(body, HtmlMarkers[k]) {
      assert HtmlMarkers[k][0] == '<';
      AbsentCharNotContained(body, HtmlMarkers[k], 0);
    }
  }

  /** The From, Subject and Received lines under the Telegram header; the
      address is shown between HTML-escaped angle brackets. */
  function TelegramLines(e: Email, showTime: int -> string): string {
    "<b>From:</b> " + Show(e.sender) + " &lt;" + Show(e.senderEmail) + "&gt;\n"
      + "<b>Subject:</b> " + Show(e.subject) + "\n"
      + "<b>Received:</b> " + ShowTime(e.receivedAt, showTime) + "\n\n"
  }

  /** formatEmailForTelegram: the header, the three field lines, then the
      processed body, and nothing else. */
  function TelegramText(e: Email, showTime: int -> string, cleanup: string -> string): (r: string)
    ensures StartsWith(r, TelegramHeader)
    ensures StartsWith(r, TelegramHeader + TelegramLines(e, showTime))
    ensures EndsWith(r, TelegramBody(e.body, cleanup))
    ensures r[|TelegramHeader + TelegramLines(e, showTime)|..] == TelegramBody(e.body, cleanup)
  {
    HeaderLinesBody(TelegramHeader, TelegramLines(e, showTime), TelegramBody(e.body, cleanup));
    TelegramHeader + TelegramLines(e, showTime) + TelegramBody(e.body, cleanup)
  }

  // ---------------------------------------------------------------------
  // WhatsApp
  // ---------------------------------------------------------------------

  const WhatsAppHeader: string := "\U{1F4E5} *New Important Email*\n\n"

  /** The body part of the WhatsApp message: truncated, "null" when null. */
  function WhatsAppBody(body: Option<string>): (r: string)
    ensures body.None? ==> r == "null"
    ensures body.Some? && |body.value| <= BodyLimit ==> r == body.value
    ensures body.Some? ==> |r| <= BodyLimit + |Ellipsis|
    ensures body.Some? && |body.value| > BodyLimit ==> r == body.value[..BodyLimit] + Ellipsis
  {
    if body.None? then "null" else Truncate(body.value)
  }

  /** Reading the WhatsApp body back: its length alone tells whether the
      email body was cut, an uncut body is the email body itself, and a cut
      one still starts with the first 500 characters of it. */
  lemma WhatsAppBodyRecoversBody(b: string)
    ensures |WhatsAppBody(Some(b))| <= BodyLimit <==> |b| <= BodyLimit
    ensures |WhatsAppBody(Some(b))| <= BodyLimit ==> WhatsAppBody(Some(b)) == b
    ensures |WhatsAppBody(Some(b))| > BodyLimit ==> StartsWith(WhatsAppBody(Some(b)), b[..BodyLimit])
  {
    if |b| > BodyLimit {
      assert WhatsAppBody(Some(b))[..BodyLimit] == b[..BodyLimit];
    }
  }

  /** The From, Subject and Received lines under the WhatsApp header; the
      address is shown in parentheses. */
  function WhatsAppLines(e: Email, showTime: int -> string): string {
    "*From:* " + Show(e.sender) + " (" + Show(e.senderEmail) + ")\n"
      + "*Subject:* " + Show(e.subject) + "\n"
      + "*Received:* " + ShowTime(e.receivedAt, showTime) + "\n\n"
  }

  /** formatEmailForWhatsApp: the header, the three field lines, then the
      truncated body, and nothing else. */
  function WhatsAppText(e: Email, showTime: int -> string): (r: string)
    ensures StartsWith(r, WhatsAppHeader)
    ensures StartsWith(r, WhatsAppHeader + WhatsAppLines(e, showTime))
    ensures EndsWith(r, WhatsAppBody(e.body))
    ensures r[|WhatsAppHeader + WhatsAppLines(e, showTime)|..] == WhatsAppBody(e.body)
  {
    HeaderLinesBody(WhatsAppHeader, WhatsAppLines(e, showTime), WhatsAppBody(e.body));
    WhatsAppHeader + WhatsAppLines(e, showTime) + WhatsAppBody(e.body)
  }
}
