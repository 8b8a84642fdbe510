/** Conversion of Gmail API messages into emails: the header scan with the
    `From` split, the MIME-tree text selection, and the per-message failure
    isolation of the fetch loop. Base64 decoding and date parsing are the
    parameters `dec` (None when decoding throws) and `parseDate` (None when
    parsing throws); every remote call is an input. */
module Gmail {
  import opened Model
  import opened Text
  import opened Category

  datatype Header = Header(name: string, value: string)

  /** A MIME part; `data` is the body data (absent when the body or its data
      is null) and `parts` the child list. */
  datatype MessagePart = MessagePart(
    mimeType: Option<string>,
    headers: Option<seq<Header>>,
    data: Option<string>,
    parts: PartList)

  /** The child list of a part, which may be null. */
  datatype PartList = NoParts | Parts(children: seq<MessagePart>)

  datatype Message = Message(id: string, payload: Option<MessagePart>)

  // ---------------------------------------------------------------------
  // The From header
  // ---------------------------------------------------------------------

  datatype Sender = Sender(name: string, address: string)

  /** The From split of convertToEmail. None stands for the
      StringIndexOutOfBoundsException thrown when '>' comes before '<'. */
  function SplitFrom(from: string): (r: Option<Sender>)
    ensures ('<' !in from || '>' !in from) ==> r == Some(Sender(from, from))
    ensures '<' in from && '>' in from ==>
      (r.None? <==> IndexOf(from, '>') < IndexOf(from, '<'))
    ensures '<' in from && '>' in from && r.Some? ==>
      var lt := IndexOf(from, '<');
      var gt := IndexOf(from, '>');
      && r.value.name == Trim(from[..lt])
      && r.value.address == Trim(from[lt + 1..gt])
      && '<' !in from[..lt] && '>' !in from[lt + 1..gt]
  {
    if '<' in from && '>' in from then
      var lt := IndexOf(from, '<');
      var gt := IndexOf(from, '>');
      if lt + 1 <= gt then Some(Sender(Trim(from[..lt]), Trim(from[lt + 1..gt])))
      else None
    else Some(Sender(from, from))
  }

  /** A display-form address `name <address>` splits back into its
      trimmed parts. */
  lemma SplitFromDisplayForm(name: string, address: string)
    requires '<' !in name && '>' !in name && '<' !in address && '>' !in address
    ensures SplitFrom(name + "<" + address + ">") == Some(Sender(Trim(name), Trim(address)))
  {
    var from := name + "<" + address + ">";
    assert from[|name|] == '<' && from[|name| + 1 + |address|] == '>';
    assert forall j :: 0 <= j < |name| ==> from[j] == name[j];
    assert forall j :: |name| < j < |name| + 1 + |address| ==> from[j] == address[j - |name| - 1];
    assert IndexOf(from, '<') == |name|;
    assert IndexOf(from, '>') == |name| + 1 + |address|;
    assert from[..|name|] == name;
    assert from[|name| + 1..|name| + 1 + |address|] == address;
  }

  // ---------------------------------------------------------------------
  // Header scan
  // ---------------------------------------------------------------------

  datatype HeaderFields = HeaderFields(subject: string, sender: string, senderEmail: string, receivedAt: Option<int>)

  const NoHeaders: HeaderFields := HeaderFields("", "", "", None)

  /** One step of the header switch; None when the From split throws. */
  function ApplyHeader(f: HeaderFields, h: Header, now: int, parseDate: string -> Option<int>): Option<HeaderFields> {
    if h.name == "Subject" then Some(f.(subject := h.value))
    else if h.name == "From" then
      match SplitFrom(h.value)
      case None => None
      case Some(s) => Some(f.(sender := s.name, senderEmail := s.address))
    else if h.name == "Date" then
      match parseDate(h.value)
      case Some(t) => Some(f.(receivedAt := Some(t)))
      case None => Some(f.(receivedAt := Some(now)))
    else Some(f)
  }

  /** A From header whose address cannot be split. */
  predicate HasBadFrom(hs: seq<Header>) {
    exists i :: 0 <= i < |hs| && hs[i].name == "From" && SplitFrom(hs[i].value).None?
  }

  /** The header loop, front to back; a failing From aborts the message, so
      the scan fails exactly when some From header, not only the last one,
      cannot be split. */
  function ScanHeaders(f: HeaderFields, hs: seq<Header>, now: int, parseDate: string -> Option<int>): (r: Option<HeaderFields>)
    ensures r.None? <==> HasBadFrom(hs)
    decreases |hs|
  {
    if hs == [] then Some(f)
    else
      assert forall i :: 1 <= i < |hs| ==> hs[1..][i - 1] == hs[i];
      match ApplyHeader(f, hs[0], now, parseDate)
      case None => None
      case Some(f') => ScanHeaders(f', hs[1..], now, parseDate)
  }

  /** The value of the last header with the given name, if any. */
  function LastValue(hs: seq<Header>, name: string): (r: Option<string>)
    ensures r.None? <==> forall i :: 0 <= i < |hs| ==> hs[i].name != name
    ensures r.Some? ==> exists i :: (0 <= i < |hs| && hs[i].name == name && hs[i].value == r.value &&
      forall j :: i < j < |hs| ==> hs[j].name != name)
    decreases |hs|
  {
    if hs == [] then None
    else if hs[|hs| - 1].name == name then Some(hs[|hs| - 1].value)
    else
      var r := LastValue(hs[..|hs| - 1], name);
      assert forall i :: 0 <= i < |hs| - 1 ==> hs[..|hs| - 1][i] == hs[i];
      r
  }

  lemma {:induction false} ScanHeadersSubjectIsLast(f: HeaderFields, hs: seq<Header>, now: int,
                                                    parseDate: string -> Option<int>)
    requires ScanHeaders(f, hs, now, parseDate).Some?
    ensures ScanHeaders(f, hs, now, parseDate).value.subject == LastValue(hs, "Subject").GetOr(f.subject)
    decreases |hs|
  {
    if hs != [] {
      var f' := ApplyHeader(f, hs[0], now, parseDate).value;
      ScanHeadersSubjectIsLast(f', hs[1..], now, parseDate);
      LastValueOfTail(hs, "Subject");
    }
  }

  lemma {:induction false} ScanHeadersSenderIsLast(f: HeaderFields, hs: seq<Header>, now: int,
                                                   parseDate: string -> Option<int>)
    requires ScanHeaders(f, hs, now, parseDate).Some?
    ensures var from := LastValue(hs, "From");
      var r := ScanHeaders(f, hs, now, parseDate).value;
      && (from.None? ==> r.sender == f.sender && r.senderEmail == f.senderEmail)
      && (from.Some? ==> SplitFrom(from.value) == Some(Sender(r.sender, r.senderEmail)))
    decreases |hs|
  {
    if hs != [] {
      var f' := ApplyHeader(f, hs[0], now, parseDate).value;
      ScanHeadersSenderIsLast(f', hs[1..], now, parseDate);
      LastValueOfTail(hs, "From");
    }
  }

  /** The received time comes from the last Date header: its parsed value,
      or the current time when it does not parse. */
  lemma {:induction false} ScanHeadersDateIsLast(f: HeaderFields, hs: seq<Header>, now: int,
                                                 parseDate: string -> Option<int>)
    requires ScanHeaders(f, hs, now, parseDate).Some?
    ensures var date := LastValue(hs, "Date");
      ScanHeaders(f, hs, now, parseDate).value.receivedAt ==
        (if date.None? then f.receivedAt else Some(parseDate(date.value).GetOr(now)))
    decreases |hs|
  {
    if hs != [] {
      var f' := ApplyHeader(f, hs[0], now, parseDate).value;
      ScanHeadersDateIsLast(f', hs[1..], now, parseDate);
      LastValueOfTail(hs, "Date");
    }
  }

  /** Dropping the first header changes the last value only if the first
      header was the only one with that name. */
  lemma {:induction false} LastValueOfTail(hs: seq<Header>, name: string)
    requires hs != []
    ensures LastValue(hs, name) ==
      (if LastValue(hs[1..], name).Some? then LastValue(hs[1..], name)
       else if hs[0].name == name then Some(hs[0].value) else None)
    decreases |hs|
  {
    var n := |hs|;
    if n == 1 {
      assert hs[1..] == [];
      assert hs[..0] == [];
    } else {
      var tail := hs[1..];
      assert tail[|tail| - 1] == hs[n - 1];
      if hs[n - 1].name != name {
        var init := hs[..n - 1];
        assert init[1..] == tail[..|tail| - 1];
        assert init[0] == hs[0];
        LastValueOfTail(init, name);
      }
    }
  }

  // ---------------------------------------------------------------------
  // MIME text selection
  // ---------------------------------------------------------------------

  predicate IsPlainWithData(p: MessagePart) {
    p.mimeType == Some("text/plain") && p.data.Some?
  }

  /** getTextFromMessagePart; None when a decoding fails. */
  function GetText(p: MessagePart, dec: string -> Option<string>): Option<string>
    decreases p, 1, 0
  {
    if p.data.Some? then dec(p.data.value)
    else if p.parts.Parts? then ChildrenText(p, 0, "", dec)
    else Some("")
  }

  /** The child loop of getTextFromMessagePart from child `i`, with the text
      gathered so far in `acc`: a text/plain child with data is returned
      alone, any other child's text is appended. */
  function ChildrenText(p: MessagePart, i: nat, acc: string, dec: string -> Option<string>): Option<string>
    requires p.parts.Parts? && i <= |p.parts.children|
    decreases p, 0, |p.parts.children| - i
  {
    var children := p.parts.children;
    if i == |children| then Some(acc)
    else if IsPlainWithData(children[i]) then dec(children[i].data.value)
    else
      assert children[i] in p.parts.children;
      match GetText(children[i], dec)
      case None => None
      case Some(t) => ChildrenText(p, i + 1, acc + t, dec)
  }

  /** The in-order concatenation of the texts of the children in [i, j);
      None when one of them fails. */
  function JoinedText(children: seq<MessagePart>, i: nat, j: nat, dec: string -> Option<string>): Option<string>
    requires i <= j <= |children|
    decreases j - i
  {
    if i == j then Some("")
    else
      match GetText(children[i], dec)
      case None => None
      case Some(t) =>
        match JoinedText(children, i + 1, j, dec)
        case None => None
        case Some(u) => Some(t + u)
  }

  /** The first text/plain child with data at or after i, if any. */
  function FirstPlain(children: seq<MessagePart>, i: nat): (r: Option<nat>)
    requires i <= |children|
    ensures r.None? ==> forall k :: i <= k < |children| ==> !IsPlainWithData(children[k])
    ensures r.Some? ==> (i <= r.value < |children| && IsPlainWithData(children[r.value]) &&
      forall k :: i <= k < r.value ==> !IsPlainWithData(children[k]))
    decreases |children| - i
  {
    if i == |children| then None
    else if IsPlainWithData(children[i]) then Some(i)
    else FirstPlain(children, i + 1)
  }

  /** What the child loop computes from child i: the texts of the children
      before the first text/plain one with data (or of all of them) are
      computed in order; if all succeed, that child's decoded data alone is
      the result, or else everything gathered. */
  function SelectedText(children: seq<MessagePart>, i: nat, acc: string, dec: string -> Option<string>): Option<string>
    requires i <= |children|
  {
    var first := FirstPlain(children, i);
    var stop := first.GetOr(|children|);
    match JoinedText(children, i, stop, dec)
    case None => None
    case Some(t) => if first.Some? then dec(children[stop].data.value) else Some(acc + t)
  }

  lemma {:induction false} ChildrenTextMeaning(p: MessagePart, i: nat, acc: string, dec: string -> Option<string>)
    requires p.parts.Parts? && i <= |p.parts.children|
    ensures ChildrenText(p, i, acc, dec) == SelectedText(p.parts.children, i, acc, dec)
    decreases |p.parts.children| - i
  {
    var children := p.parts.children;
    if i == |children| {
      assert acc + "" == acc;
    } else if !IsPlainWithData(children[i]) {
      assert FirstPlain(children, i) == FirstPlain(children, i + 1);
      var stop := FirstPlain(children, i).GetOr(|children|);
      assert i < stop;
      match GetText(children[i], dec)
      case None =>
        assert JoinedText(children, i, stop, dec).None?;
      case Some(t) =>
        ChildrenTextMeaning(p, i + 1, acc + t, dec);
        match JoinedText(children, i + 1, stop, dec)
        case None =>
        case Some(u) =>
          assert JoinedText(children, i, stop, dec) == Some(t + u);
          assert acc + t + u == acc + (t + u);
    }
  }

  /** A part's text: its own data when present; otherwise, for a multipart,
      the first text/plain child with data alone (its earlier siblings are
      still decoded, and a failure there fails the whole), or else all
      children's texts in order; otherwise empty. */
  lemma TextSelection(p: MessagePart, dec: string -> Option<string>)
    ensures p.data.Some? ==> GetText(p, dec) == dec(p.data.value)
    ensures p.data.None? && p.parts.NoParts? ==> GetText(p, dec) == Some("")
    ensures p.data.None? && p.parts.Parts? ==> GetText(p, dec) == SelectedText(p.parts.children, 0, "", dec)
  {
    if p.data.None? && p.parts.Parts? {
      ChildrenTextMeaning(p, 0, "", dec);
    }
  }

  // ---------------------------------------------------------------------
  // Conversion and fetch
  // ---------------------------------------------------------------------

  /** The headers of a part; a part without headers has none. */
  function HeadersOf(p: MessagePart): seq<Header> {
    if p.headers.Some? then p.headers.value else []
  }

  /** convertToEmail; None when the conversion throws. The conversion fails
      exactly when some From header cannot be split or the body text fails
      to decode. Otherwise the subject and sender come from the last Subject
      and From headers (empty when absent), the received time from the last
      Date header (the current time when absent or unparsable), and the body
      is the selected text of the payload. */
  function ConvertToEmail(m: Message, now: int, parseDate: string -> Option<int>, dec: string -> Option<string>): (r: Option<Email>)
    ensures r.Some? ==>
      && r.value.id == m.id
      && r.value.threadId.None?
      && !r.value.isImportant
      && r.value.receivedAt.Some?
      && r.value.subject.Some? && r.value.sender.Some? && r.value.senderEmail.Some? && r.value.body.Some?
    ensures m.payload.None? ==>
      r == Some(Email(m.id, None, Some(""), Some(""), Some(""), Some(""), Some(now), false))
    ensures m.payload.Some? ==>
      (r.None? <==> HasBadFrom(HeadersOf(m.payload.value)) || GetText(m.payload.value, dec).None?)
    ensures m.payload.Some? && r.Some? ==>
      var hs := HeadersOf(m.payload.value);
      var from := LastValue(hs, "From");
      var date := LastValue(hs, "Date");
      && r.value.subject == Some(LastValue(hs, "Subject").GetOr(""))
      && (from.None? ==> r.value.sender == Some("") && r.value.senderEmail == Some(""))
      && (from.Some? ==> SplitFrom(from.value) == Some(Sender(r.value.sender.value, r.value.senderEmail.value)))
      && r.value.receivedAt == Some(if date.None? then now else parseDate(date.value).GetOr(now))
      && r.value.body == GetText(m.payload.value, dec)
  {
    var fields :=
      if m.payload.Some? && m.payload.value.headers.Some?
      then ScanHeaders(NoHeaders, m.payload.value.headers.value, now, parseDate)
      else Some(NoHeaders);
    var body := if m.payload.Some? then GetText(m.payload.value, dec) else Some("");
    if fields.None? || body.None? then
      None
    else
      var f := fields.value;
      var hs := if m.payload.Some? then HeadersOf(m.payload.value) else [];
      assert ScanHeaders(NoHeaders, hs, now, parseDate) == Some(f);
      ScanHeadersSubjectIsLast(NoHeaders, hs, now, parseDate);
      ScanHeadersSenderIsLast(NoHeaders, hs, now, parseDate);
      ScanHeadersDateIsLast(NoHeaders, hs, now, parseDate);
      Some(Email(m.id, None, Some(f.subject), Some(f.sender), Some(f.senderEmail), Some(body.value),
                 Some(f.receivedAt.GetOr(now)), false))
  }

  /** One iteration of the fetch loop: the fetched message converted, or
      None when the fetch or the conversion throws. */
  function FetchOne(id: string, getMessage: string -> Io<Message>, now: int,
                    parseDate: string -> Option<int>, dec: string -> Option<string>): (r: Option<Email>)
    ensures r.Some? ==> r.value.threadId.None? && !r.value.isImportant && r.value.receivedAt.Some?
    ensures getMessage(id).IoFailure? ==> r.None?
    ensures getMessage(id).Done? ==> r == ConvertToEmail(getMessage(id).value, now, parseDate, dec)
  {
    match getMessage(id)
    case IoFailure => None
    case Done(m) => ConvertToEmail(m, now, parseDate, dec)
  }

  /** A listed message is kept exactly when its fetch succeeds and it has no
      payload, or its From headers all split and its text decodes. */
  lemma FetchOneKeepsIff(id: string, getMessage: string -> Io<Message>, now: int,
                         parseDate: string -> Option<int>, dec: string -> Option<string>)
    ensures FetchOne(id, getMessage, now, parseDate, dec).Some? <==>
      && getMessage(id).Done?
      && (getMessage(id).value.payload.Some? ==>
            !HasBadFrom(HeadersOf(getMessage(id).value.payload.value))
            && GetText(getMessage(id).value.payload.value, dec).Some?)
  {
  }

  /** The per-message loop of fetchRecentEmails: a message whose fetch or
      conversion fails is skipped. */
  function {:induction false} ConvertAll(ids: seq<string>, getMessage: string -> Io<Message>, now: int,
                                         parseDate: string -> Option<int>, dec: string -> Option<string>): (r: seq<Email>)
    ensures |r| <= |ids|
    ensures forall k :: 0 <= k < |r| ==> r[k].threadId.None? && !r[k].isImportant && r[k].receivedAt.Some?
    decreases |ids|
  {
    if ids == [] then []
    else
      var rest := ConvertAll(ids[1..], getMessage, now, parseDate, dec);
      var one := FetchOne(ids[0], getMessage, now, parseDate, dec);
      if one.Some? then [one.value] + rest else rest
  }

  /** Every email the loop returns is the conversion of some listed message. */
  lemma {:induction false} ConvertAllProvenance(ids: seq<string>, getMessage: string -> Io<Message>, now: int,
                                                parseDate: string -> Option<int>, dec: string -> Option<string>)
    ensures forall k :: 0 <= k < |ConvertAll(ids, getMessage, now, parseDate, dec)| ==>
      exists j :: 0 <= j < |ids| &&
        FetchOne(ids[j], getMessage, now, parseDate, dec) == Some(ConvertAll(ids, getMessage, now, parseDate, dec)[k])
    decreases |ids|
  {
    if ids != [] {
      ConvertAllProvenance(ids[1..], getMessage, now, parseDate, dec);
      var r := ConvertAll(ids, getMessage, now, parseDate, dec);
      var rest := ConvertAll(ids[1..], getMessage, now, parseDate, dec);
      var one := FetchOne(ids[0], getMessage, now, parseDate, dec);
      forall k | 0 <= k < |r|
        ensures exists j :: 0 <= j < |ids| && FetchOne(ids[j], getMessage, now, parseDate, dec) == Some(r[k])
      {
        if one.Some? && k == 0 {
          assert FetchOne(ids[0], getMessage, now, parseDate, dec) == Some(r[0]);
        } else {
          var k' := if one.Some? then k - 1 else k;
          assert 0 <= k' < |rest| && r[k] == rest[k'];
          assert exists j :: 0 <= j < |ids[1..]| && FetchOne(ids[1..][j], getMessage, now, parseDate, dec) == Some(rest[k']);
          var j :| 0 <= j < |ids[1..]| && FetchOne(ids[1..][j], getMessage, now, parseDate, dec) == Some(rest[k']);
          assert ids[1..][j] == ids[j + 1];
        }
      }
    } else {
      assert ConvertAll(ids, getMessage, now, parseDate, dec) == [];
    }
  }

  /** When no fetch or conversion fails, the loop returns exactly the listed
      messages converted, in listing order. */
  lemma {:induction false} ConvertAllComplete(ids: seq<string>, getMessage: string -> Io<Message>, now: int,
                                              parseDate: string -> Option<int>, dec: string -> Option<string>)
    ensures (forall j :: 0 <= j < |ids| ==> FetchOne(ids[j], getMessage, now, parseDate, dec).Some?) ==>
      var r := ConvertAll(ids, getMessage, now, parseDate, dec);
      |r| == |ids| && forall k :: 0 <= k < |r| ==> Some(r[k]) == FetchOne(ids[k], getMessage, now, parseDate, dec)
    decreases |ids|
  {
    if ids != [] && forall j :: 0 <= j < |ids| ==> FetchOne(ids[j], getMessage, now, parseDate, dec).Some? {
      assert forall j :: 1 <= j < |ids| ==> ids[1..][j - 1] == ids[j];
      ConvertAllComplete(ids[1..], getMessage, now, parseDate, dec);
    }
  }

  /** The loop distributes over a split of the listing, so the result keeps
      the listing order and the multiplicity of the messages. */
  lemma {:induction false} ConvertAllConcat(a: seq<string>, b: seq<string>, getMessage: string -> Io<Message>, now: int,
                                            parseDate: string -> Option<int>, dec: string -> Option<string>)
    ensures ConvertAll(a + b, getMessage, now, parseDate, dec)
         == ConvertAll(a, getMessage, now, parseDate, dec) + ConvertAll(b, getMessage, now, parseDate, dec)
    decreases |a|
  {
    if a == [] {
      assert a + b == b;
    } else {
      assert (a + b)[1..] == a[1..] + b;
      ConvertAllConcat(a[1..], b, getMessage, now, parseDate, dec);
    }
  }

  /** A one-message listing yields that message's conversion, or nothing. */
  lemma ConvertAllSingle(id: string, getMessage: string -> Io<Message>, now: int,
                         parseDate: string -> Option<int>, dec: string -> Option<string>)
    ensures var one := FetchOne(id, getMessage, now, parseDate, dec);
      ConvertAll([id], getMessage, now, parseDate, dec) == (if one.Some? then [one.value] else [])
  {
    assert [id][1..] == [];
  }

  /** fetchRecentEmails: a failed listing gives no emails; otherwise each
      listed message is fetched and converted independently, every email
      returned is the conversion of a listed message, and when every fetch
      and conversion succeeds all listed messages come back in order. */
  function FetchRecentEmails(listing: Io<Option<seq<string>>>, getMessage: string -> Io<Message>, now: int,
                             parseDate: string -> Option<int>, dec: string -> Option<string>): (r: seq<Email>)
    ensures listing.IoFailure? || listing.value.None? ==> r == []
    ensures listing.Done? && listing.value.Some? ==> |r| <= |listing.value.value|
    ensures forall k :: 0 <= k < |r| ==> r[k].threadId.None? && !r[k].isImportant
    ensures listing.Done? && listing.value.Some? ==>
      var ids := listing.value.value;
      && (forall k :: 0 <= k < |r| ==>
            exists j :: 0 <= j < |ids| && FetchOne(ids[j], getMessage, now, parseDate, dec) == Some(r[k]))
      && ((forall j :: 0 <= j < |ids| ==> FetchOne(ids[j], getMessage, now, parseDate, dec).Some?) ==>
            |r| == |ids| && forall k :: 0 <= k < |r| ==> Some(r[k]) == FetchOne(ids[k], getMessage, now, parseDate, dec))
  {
    if listing.IoFailure? || listing.value.None? then []
    else
      var ids := listing.value.value;
      ConvertAllProvenance(ids, getMessage, now, parseDate, dec);
      ConvertAllComplete(ids, getMessage, now, parseDate, dec);
      ConvertAll(ids, getMessage, now, parseDate, dec)
  }

  /** A failure on one message drops that message only: the others are
      converted exactly as they would be without it. */
  lemma {:induction false} FailureDropsOnlyThatMessage(before: seq<string>, bad: string, after: seq<string>,
                                                       getMessage: string -> Io<Message>, now: int,
                                                       parseDate: string -> Option<int>, dec: string -> Option<string>)
    requires FetchOne(bad, getMessage, now, parseDate, dec).None?
    ensures ConvertAll(before + [bad] + after, getMessage, now, parseDate, dec)
         == ConvertAll(before + after, getMessage, now, parseDate, dec)
    decreases |before|
  {
    if before == [] {
      assert before + [bad] + after == [bad] + after;
      assert ([bad] + after)[1..] == after;
      assert before + after == after;
    } else {
      FailureDropsOnlyThatMessage(before[1..], bad, after, getMessage, now, parseDate, dec);
      assert (before + [bad] + after)[1..] == before[1..] + [bad] + after;
      assert (before + after)[1..] == before[1..] + after;
    }
  }
}
