/** The two importance classifiers. `IsImportantEnhanced` is the primary
    one: a category gate, a recency gate, then a short-circuit chain of
    rules (urgent subject, sender domain, subject keyword, body keyword,
    sender feedback, reply in a thread). `IsImportantBasic` keeps only the
    recency gate and the domain and keyword rules. */
module Filter {
  import opened Model
  import opened Text
  import Tracking

  /** The configured lists come from `String.split(",")` of the property
      value; `recencyHours` defaults to 24. */
  datatype FilterConfig = FilterConfig(domains: seq<string>, keywords: seq<string>, recencyHours: int)

  // ---------------------------------------------------------------------
  // Property splitting
  // ---------------------------------------------------------------------

  /** The comma-separated fields of `s`, empty ones included. */
  function Fields(s: string): (r: seq<string>)
    ensures |r| > 0
    ensures forall i :: 0 <= i < |r| ==> ',' !in r[i]
  {
    if ',' !in s then [s]
    else
      var k := IndexOf(s, ',');
      assert ',' !in s[..k];
      [s[..k]] + Fields(s[k + 1..])
  }

  function Join(fields: seq<string>): string
    requires |fields| > 0
  {
    if |fields| == 1 then fields[0] else fields[0] + "," + Join(fields[1..])
  }

  /** Splitting then re-joining with commas gives the original text back. */
  lemma {:induction false} JoinFields(s: string)
    ensures Join(Fields(s)) == s
    decreases |s|
  {
    if ',' in s {
      var k := IndexOf(s, ',');
      JoinFields(s[k + 1..]);
      assert s == s[..k] + "," + s[k + 1..];
    }
  }

  function DropTrailingEmpty(fields: seq<string>): (r: seq<string>)
    ensures |r| <= |fields| && r == fields[..|r|]
    ensures r == [] || r[|r| - 1] != ""
    ensures forall i :: |r| <= i < |fields| ==> fields[i] == ""
  {
    if fields == [] || fields[|fields| - 1] != "" then fields
    else DropTrailingEmpty(fields[..|fields| - 1])
  }

  /** String.split(","): the input itself when it has no comma, otherwise
      its fields with trailing empty strings removed. Re-joined with commas,
      the fields give the text back up to a run of trailing commas, and the
      last field kept is never empty; a text of commas only has no fields. */
  function SplitComma(s: string): (r: seq<string>)
    ensures ',' !in s ==> r == [s]
    ensures forall i :: 0 <= i < |r| ==> ',' !in r[i]
    ensures ',' in s && r != [] ==>
      r[|r| - 1] != "" && Join(r) <= s && forall i :: |Join(r)| <= i < |s| ==> s[i] == ','
    ensures r == [] <==> ',' in s && forall i :: 0 <= i < |s| ==> s[i] == ','
  {
    if ',' !in s then [s]
    else
      JoinFields(s);
      JoinWithoutTrailingEmpty(Fields(s));
      DropTrailingEmpty(Fields(s))
  }

  /** Appending one field appends a comma and that field. */
  lemma {:induction false} JoinSnoc(fields: seq<string>, x: string)
    requires |fields| > 0
    ensures Join(fields + [x]) == Join(fields) + "," + x
    decreases |fields|
  {
    if |fields| > 1 {
      assert (fields + [x])[1..] == fields[1..] + [x];
      JoinSnoc(fields[1..], x);
    }
  }

  /** The joined text ends with the last field. */
  lemma {:induction false} JoinEndsWithLastField(fields: seq<string>)
    requires |fields| > 0
    ensures EndsWith(Join(fields), fields[|fields| - 1])
    decreases |fields|
  {
    if |fields| > 1 {
      var init := fields[..|fields| - 1];
      assert fields == init + [fields[|fields| - 1]];
      JoinSnoc(init, fields[|fields| - 1]);
    }
  }

  /** `whole` is `prefix` followed by commas only. */
  predicate TrailingCommas(prefix: string, whole: string) {
    prefix <= whole && forall i :: |prefix| <= i < |whole| ==> whole[i] == ','
  }

  lemma TrailingCommasExtend(prefix: string, whole: string)
    requires TrailingCommas(prefix, whole)
    ensures TrailingCommas(prefix, whole + ",")
  {
    assert forall i :: 0 <= i < |whole| ==> (whole + ",")[i] == whole[i];
  }

  /** Dropping trailing empty fields removes only trailing commas from the
      joined text; when every field is empty the joined text is all commas. */
  lemma {:induction false} JoinWithoutTrailingEmpty(fields: seq<string>)
    requires |fields| > 0
    requires forall i :: 0 <= i < |fields| ==> ',' !in fields[i]
    ensures var r := DropTrailingEmpty(fields);
      && (r != [] ==> TrailingCommas(Join(r), Join(fields)) && Join(r)[|Join(r)| - 1] != ',')
      && (r == [] ==> TrailingCommas("", Join(fields)))
    decreases |fields|
  {
    if fields[|fields| - 1] != "" {
      LastFieldEndsJoin(fields);
    } else {
      var init := fields[..|fields| - 1];
      assert fields == init + [""];
      if init == [] {
        assert Join(fields) == "";
      } else {
        JoinSnoc(init, "");
        JoinWithoutTrailingEmpty(init);
        var r := DropTrailingEmpty(init);
        assert DropTrailingEmpty(fields) == r;
        TrailingCommasExtend(if r == [] then "" else Join(r), Join(init));
      }
    }
  }

  /** A non-empty comma-free last field ends the joined text with a
      character other than a comma. */
  lemma LastFieldEndsJoin(fields: seq<string>)
    requires |fields| > 0 && fields[|fields| - 1] != ""
    requires ',' !in fields[|fields| - 1]
    ensures Join(fields)[|Join(fields)| - 1] != ','
  {
    var whole := Join(fields);
    var last := fields[|fields| - 1];
    JoinEndsWithLastField(fields);
    assert whole[|whole| - |last|..] == last;
    assert whole[|whole| - 1] == whole[|whole| - |last|..][|last| - 1];
    assert last[|last| - 1] in last;
  }

  // ---------------------------------------------------------------------
  // Domain and keyword matchers
  // ---------------------------------------------------------------------

  /** One configured domain against a lower-cased address. */
  predicate DomainMatches(lowerAddress: string, domain: string) {
    && !IsBlank(domain)
    && var d := Trim(Lower(domain));
       EndsWith(lowerAddress, "@" + d) || EndsWith(lowerAddress, "." + d)
  }

  function {:induction false} AnyDomainMatches(lowerAddress: string, domains: seq<string>): (r: bool)
    ensures r <==> exists i :: 0 <= i < |domains| && DomainMatches(lowerAddress, domains[i])
  {
    if domains == [] then false
    else if DomainMatches(lowerAddress, domains[0]) then true
    else
      var r := AnyDomainMatches(lowerAddress, domains[1..]);
      assert forall i :: 1 <= i < |domains| ==> domains[1..][i - 1] == domains[i];
      assert r ==> exists i :: 0 <= i < |domains| && DomainMatches(lowerAddress, domains[i]) by {
        if r {
          var j :| 0 <= j < |domains[1..]| && DomainMatches(lowerAddress, domains[1..][j]);
          assert DomainMatches(lowerAddress, domains[j + 1]);
        }
      }
      r
  }

  /** isFromImportantDomain */
  function FromImportantDomain(address: Option<string>, domains: seq<string>): (r: bool)
    ensures r <==> (address.Some? && !IsBlank(address.value) &&
                    exists i :: 0 <= i < |domains| && DomainMatches(Lower(address.value), domains[i]))
  {
    if address.None? || IsBlank(address.value) || domains == [] then false
    else AnyDomainMatches(Lower(address.value), domains)
  }

  /** One configured keyword against lower-cased content. */
  predicate KeywordMatches(lowerContent: string, keyword: string) {
    !IsBlank(keyword) && Contains(lowerContent, Trim(Lower(keyword)))
  }

  function {:induction false} AnyKeywordMatches(lowerContent: string, keywords: seq<string>): (r: bool)
    ensures r <==> exists i :: 0 <= i < |keywords| && KeywordMatches(lowerContent, keywords[i])
  {
    if keywords == [] then false
    else if KeywordMatches(lowerContent, keywords[0]) then true
    else
      var r := AnyKeywordMatches(lowerContent, keywords[1..]);
      assert forall i :: 1 <= i < |keywords| ==> keywords[1..][i - 1] == keywords[i];
      assert r ==> exists i :: 0 <= i < |keywords| && KeywordMatches(lowerContent, keywords[i]) by {
        if r {
          var j :| 0 <= j < |keywords[1..]| && KeywordMatches(lowerContent, keywords[1..][j]);
          assert KeywordMatches(lowerContent, keywords[j + 1]);
        }
      }
      r
  }

  /** containsImportantKeywords */
  function ContainsImportantKeywords(content: Option<string>, keywords: seq<string>): (r: bool)
    ensures r <==> (content.Some? && !IsBlank(content.value) &&
                    exists i :: 0 <= i < |keywords| && KeywordMatches(Lower(content.value), keywords[i]))
  {
    if content.None? || IsBlank(content.value) || keywords == [] then false
    else AnyKeywordMatches(Lower(content.value), keywords)
  }

  /** A string without upper-case ASCII letters is its own lower case. */
  lemma LowerOfLowerCase(s: string)
    requires forall i :: 0 <= i < |s| ==> !('A' <= s[i] <= 'Z')
    ensures Lower(s) == s
  {
  }

  lemma ExampleDomainIsTrimmedLowerCase()
    ensures Trim(Lower("example.com")) == "example.com"
  {
    var d := "example.com";
    LowerOfLowerCase(d);
    assert Trim(d) == d by { assert TrimStart(d) == d; assert TrimEnd(d) == d; }
  }

  lemma ExampleDomainIsNotBlank()
    ensures !IsBlank("example.com")
  {
    var d := "example.com";
    assert !IsWhitespace(d[0]);
  }

  /** `d` ends the address and is preceded by '@' or '.'. */
  predicate SeparatedSuffix(lowerAddress: string, d: string) {
    && |d| < |lowerAddress|
    && EndsWith(lowerAddress, d)
    && (lowerAddress[|lowerAddress| - |d| - 1] == '@' || lowerAddress[|lowerAddress| - |d| - 1] == '.')
  }

  lemma SuffixAfter(a: string, d: string, c: char)
    ensures EndsWith(a, [c] + d) <==> |d| < |a| && EndsWith(a, d) && a[|a| - |d| - 1] == c
  {
    var n := |a|;
    if |d| < n {
      assert a[n - |d| - 1..] == [a[n - |d| - 1]] + a[n - |d|..];
    }
  }

  /** The domain rule looks only at the character before the domain:
      it must be '@' or '.'. */
  lemma DomainMatchesIffSeparatorBefore(lowerAddress: string, domain: string)
    requires !IsBlank(domain)
    ensures DomainMatches(lowerAddress, domain) <==> SeparatedSuffix(lowerAddress, Trim(Lower(domain)))
  {
    SeparatorSuffix(lowerAddress, Trim(Lower(domain)));
  }

  lemma SeparatorSuffix(a: string, d: string)
    ensures EndsWith(a, "@" + d) || EndsWith(a, "." + d) <==> SeparatedSuffix(a, d)
  {
    SuffixAfter(a, d, '@');
    SuffixAfter(a, d, '.');
    assert "@" + d == ['@'] + d;
    assert "." + d == ['.'] + d;
  }

  /** A configured domain matches its subdomains... */
  lemma SubdomainMatches()
    ensures FromImportantDomain(Some("alice@sub.example.com"), ["example.com"])
  {
    var a := "alice@sub.example.com";
    AliceSubIsLowerCase();
    SubIsSeparated();
    ExampleDomainIsNotBlank();
    DomainMatchesIffSeparatorBefore(a, "example.com");
    assert DomainMatches(a, ["example.com"][0]);
    assert !IsWhitespace(a[0]);
  }

  lemma SubIsSeparated()
    ensures SeparatedSuffix("alice@sub.example.com", Trim(Lower("example.com")))
  {
    var a := "alice@sub.example.com";
    ExampleDomainIsTrimmedLowerCase();
    assert a[10..] == "example.com";
  }

  lemma AliceSubIsLowerCase()
    ensures Lower("alice@sub.example.com") == "alice@sub.example.com"
  {
    LowerOfLowerCase("alice@sub.example.com");
  }

  lemma AliceNotIsLowerCase()
    ensures Lower("alice@notexample.com") == "alice@notexample.com"
  {
    LowerOfLowerCase("alice@notexample.com");
  }

  /** ...but not a longer name that merely ends with it. */
  lemma LookalikeDomainDoesNotMatch()
    ensures !FromImportantDomain(Some("alice@notexample.com"), ["example.com"])
  {
    var b := "alice@notexample.com";
    var ds := ["example.com"];
    AliceNotIsLowerCase();
    LookalikeIsNotSeparated();
    ExampleDomainIsNotBlank();
    DomainMatchesIffSeparatorBefore(b, "example.com");
    assert !DomainMatches(b, ds[0]);
    assert forall i :: 0 <= i < |ds| ==> ds[i] == ds[0];
  }

  lemma LookalikeIsNotSeparated()
    ensures !SeparatedSuffix("alice@notexample.com", Trim(Lower("example.com")))
  {
    var b := "alice@notexample.com";
    ExampleDomainIsTrimmedLowerCase();
    assert b[|b| - 12] == 't';
  }

  /** With the default empty property, split yields one blank entry, so
      neither the domain rule nor a keyword rule can ever fire. */
  lemma DefaultConfigNeverMatches(address: Option<string>, content: Option<string>)
    ensures SplitComma("") == [""]
    ensures !FromImportantDomain(address, SplitComma(""))
    ensures !ContainsImportantKeywords(content, SplitComma(""))
  {
  }

  // ---------------------------------------------------------------------
  // Urgent subject and reply prefix patterns
  // ---------------------------------------------------------------------

  /** `\w` without UNICODE_CHARACTER_CLASS. */
  predicate IsWordChar(c: char) {
    'a' <= c <= 'z' || 'A' <= c <= 'Z' || '0' <= c <= '9' || c == '_'
  }

  /** `\s` without UNICODE_CHARACTER_CLASS. */
  predicate IsRegexSpace(c: char) {
    c == ' ' || 0x09 <= c as int <= 0x0D
  }

  /** A non-spacing mark: the Combining Diacritical Marks block, all of
      whose code points are in Unicode category Mn. */
  predicate IsCombiningMark(c: char) {
    0x0300 <= c as int <= 0x036F
  }

  /** `Character.isLetterOrDigit` on ASCII: `\w` without the underscore. */
  predicate IsLetterOrDigit(c: char) {
    'a' <= c <= 'z' || 'A' <= c <= 'Z' || '0' <= c <= '9'
  }

  /** Scanning back from x over non-spacing marks reaches a letter or digit. */
  predicate HasBaseCharacter(s: string, x: int)
    requires x < |s|
    decreases x + 1
  {
    0 <= x && (IsLetterOrDigit(s[x]) || (IsCombiningMark(s[x]) && HasBaseCharacter(s, x - 1)))
  }

  /** The character at x counts as a word character for `\b`: a `\w`
      character, or a non-spacing mark that follows a letter or digit. */
  predicate BoundWord(s: string, x: int)
    requires 0 <= x < |s|
  {
    IsWordChar(s[x]) || (IsCombiningMark(s[x]) && HasBaseCharacter(s, x))
  }

  /** `\b` at position i of s. */
  predicate WordBoundary(s: string, i: int) {
    0 <= i <= |s| && ((i > 0 && BoundWord(s, i - 1)) != (i < |s| && BoundWord(s, i)))
  }

  /** A combining mark after the word keeps the word going, so the trailing
      `\b` fails. */
  lemma CombiningMarkAfterWord()
    ensures !UrgentMatch("urgent\U{0301}")
  {
    var a := Lower("urgent\U{0301}");
    assert a == "urgent\U{0301}";
    assert BoundWord(a, 6);
    assert forall i :: 0 < i <= 6 ==> !WordBoundary(a, i);
  }

  /** A combining mark after a letter joins that letter's word, so no
      boundary opens before "urgent". */
  lemma CombiningMarkBeforeWord()
    ensures !UrgentMatch("e\U{0301}urgent")
  {
    var b := Lower("e\U{0301}urgent");
    assert b == "e\U{0301}urgent";
    assert BoundWord(b, 1);
    assert forall i :: 0 < i < 8 ==> !WordBoundary(b, i);
    assert !IsUrgentToken(b[0..8]) && !IsUrgentToken(b[0..0]) && !IsUrgentToken(b[8..8]);
  }

  /** An underscore is a word character but no letter, so a mark after it
      is not part of a word and "urgent" starts one. */
  lemma CombiningMarkAfterUnderscore()
    ensures UrgentMatch("_\U{0301}urgent")
  {
    var c := Lower("_\U{0301}urgent");
    assert c == "_\U{0301}urgent";
    assert !HasBaseCharacter(c, 0);
    assert !BoundWord(c, 1) && BoundWord(c, 2);
    assert c[2..8] == "urgent";
    assert UrgentSpan(c, 2, 8);
  }

  const UrgentWords: seq<string> := ["urgent", "immediate", "asap", "important", "critical", "priority", "alert"]

  /** "action", one or more `\s`, "required". */
  predicate IsActionRequired(t: string) {
    && |t| >= 15
    && t[..6] == "action"
    && t[|t| - 8..] == "required"
    && forall k :: 6 <= k < |t| - 8 ==> IsRegexSpace(t[k])
  }

  predicate IsUrgentToken(t: string) {
    t in UrgentWords || IsActionRequired(t)
  }

  /** The alternation matches the lower-cased subject between i and j, with
      a word boundary on both sides. */
  predicate UrgentSpan(lowerSubject: string, i: int, j: int) {
    0 <= i <= j <= |lowerSubject| && WordBoundary(lowerSubject, i) && WordBoundary(lowerSubject, j)
    && IsUrgentToken(lowerSubject[i..j])
  }

  /** URGENT_PATTERN.matcher(subject).find() */
  predicate UrgentMatch(subject: string) {
    var ls := Lower(subject);
    exists i, j :: 0 <= i <= j <= |ls| && UrgentSpan(ls, i, j)
  }

  const ReplyPrefixes: seq<string> := ["re:", "fw:", "fwd:", "\U{56DE}\U{590D}:", "\U{8F6C}\U{53D1}:"]

  /** REPLY_PATTERN.matcher(subject).find(): an anchored prefix test. */
  predicate ReplyMatch(subject: string) {
    exists k :: 0 <= k < |ReplyPrefixes| && StartsWith(Lower(subject), ReplyPrefixes[k])
  }

  lemma ActionRequiredIsUrgent()
    ensures UrgentMatch("Action Required: renew")
  {
    var ls := Lower("Action Required: renew");
    assert ls[..15] == "action required";
    assert IsActionRequired(ls[0..15]);
    assert WordBoundary(ls, 0);
    assert WordBoundary(ls, 15);
    assert UrgentSpan(ls, 0, 15);
  }

  lemma UrgentNeedsWholeWord()
    ensures !UrgentMatch("urgently")
  {
    var ls := Lower("urgently");
    assert ls == "urgently";
    assert forall i :: 0 < i < 8 ==> !WordBoundary(ls, i);
    assert ls[0..0] == "" && ls[8..8] == "" && ls[0..8] == "urgently";
  }

  // ---------------------------------------------------------------------
  // The classifiers
  // ---------------------------------------------------------------------

  /** The recency gate: a received time within `recencyHours` whole hours. */
  predicate IsRecent(e: Email, recencyHours: int, now: int) {
    e.receivedAt.Some? && HoursBetween(e.receivedAt.value, now) <= recencyHours
  }

  /** positive / total > 0.7 with total > 0, in integers. */
  predicate HighRelevance(stats: Tracking.Stats) {
    stats.total > 0 && 10 * stats.positive > 7 * stats.total
  }

  predicate FeedbackRule(e: Email, store: Tracking.Store, now: int) {
    Present(e.senderEmail) && HighRelevance(Tracking.FeedbackStats(store, e.senderEmail.value, now))
  }

  predicate ReplyRule(e: Email) {
    Present(e.threadId) && ReplyMatch(e.subject.GetOr(""))
  }

  predicate UrgentRule(e: Email) {
    e.subject.Some? && UrgentMatch(e.subject.value)
  }

  /** The rules the two classifiers share. */
  predicate ContentRules(e: Email, cfg: FilterConfig) {
    || FromImportantDomain(e.senderEmail, cfg.domains)
    || ContainsImportantKeywords(e.subject, cfg.keywords)
    || ContainsImportantKeywords(e.body, cfg.keywords)
  }

  /** EnhancedEmailFilterService.isImportantEmail. `categoryAllowed` is the
      answer of isInAllowedCategory for the email id; as written, a true
      answer rejects the email. */
  function IsImportantEnhanced(email: Option<Email>, cfg: FilterConfig, categoryAllowed: bool,
                               store: Tracking.Store, now: int): (r: bool)
    ensures email.None? ==> !r
    ensures categoryAllowed ==> !r
    ensures email.Some? && !IsRecent(email.value, cfg.recencyHours, now) ==> !r
    ensures r <==> (email.Some? && !categoryAllowed && IsRecent(email.value, cfg.recencyHours, now) &&
                    (UrgentRule(email.value) || ContentRules(email.value, cfg) ||
                     FeedbackRule(email.value, store, now) || ReplyRule(email.value)))
  {
    if email.None? then false
    else
      var e := email.value;
      if categoryAllowed then false
      else if e.receivedAt.None? || HoursBetween(e.receivedAt.value, now) > cfg.recencyHours then false
      else if e.subject.Some? && UrgentMatch(e.subject.value) then true
      else if FromImportantDomain(e.senderEmail, cfg.domains) then true
      else if ContainsImportantKeywords(e.subject, cfg.keywords) then true
      else if ContainsImportantKeywords(e.body, cfg.keywords) then true
      else if Present(e.senderEmail) && HighRelevance(Tracking.FeedbackStats(store, e.senderEmail.value, now)) then true
      else Present(e.threadId) && ReplyMatch(e.subject.GetOr(""))
  }

  /** EmailFilterServiceImpl.isImportantEmail */
  function IsImportantBasic(email: Option<Email>, cfg: FilterConfig, now: int): (r: bool)
    ensures email.None? ==> !r
    ensures email.Some? && !IsRecent(email.value, cfg.recencyHours, now) ==> !r
    ensures r <==> email.Some? && IsRecent(email.value, cfg.recencyHours, now) && ContentRules(email.value, cfg)
  {
    if email.None? then false
    else
      var e := email.value;
      if e.receivedAt.None? || HoursBetween(e.receivedAt.value, now) > cfg.recencyHours then false
      else if FromImportantDomain(e.senderEmail, cfg.domains) then true
      else if ContainsImportantKeywords(e.subject, cfg.keywords) then true
      else ContainsImportantKeywords(e.body, cfg.keywords)
  }

  /** The basic classifier's verdicts are kept by the enhanced one whenever
      the category lookup answers false. */
  lemma BasicRefinesEnhanced(email: Option<Email>, cfg: FilterConfig, store: Tracking.Store, now: int)
    ensures IsImportantBasic(email, cfg, now) ==> IsImportantEnhanced(email, cfg, false, store, now)
  {
  }

  /** The refinement is strict: an urgent subject alone makes the enhanced
      classifier answer true where the basic one answers false. */
  lemma EnhancedIsStrictlyWeaker(store: Tracking.Store, now: int)
    ensures var e := Email("m1", None, Some("Action Required: renew"), None, None, None, Some(now), false);
      var cfg := FilterConfig([], [], 24);
      IsImportantEnhanced(Some(e), cfg, false, store, now) && !IsImportantBasic(Some(e), cfg, now)
  {
    ActionRequiredIsUrgent();
  }

  /** A message older than the recency window is never important, whatever
      its subject, sender, body, feedback or thread. */
  lemma StaleIsNeverImportant(e: Email, cfg: FilterConfig, categoryAllowed: bool, store: Tracking.Store,
                              now: int, subject: Option<string>, senderEmail: Option<string>,
                              body: Option<string>, threadId: Option<string>)
    requires e.receivedAt.Some? && HoursBetween(e.receivedAt.value, now) > cfg.recencyHours
    ensures var e' := e.(subject := subject, senderEmail := senderEmail, body := body, threadId := threadId);
      !IsImportantEnhanced(Some(e'), cfg, categoryAllowed, store, now) && !IsImportantBasic(Some(e'), cfg, now)
  {
  }

  /** A subject opening with "Re: " (in any letter case) on a message that
      carries a thread id makes a recent message important, whatever the
      domain and keyword lists say. */
  lemma ReplyInThreadIsImportant(e: Email, cfg: FilterConfig, store: Tracking.Store, now: int, rest: string)
    requires IsRecent(e, cfg.recencyHours, now) && Present(e.threadId)
    requires e.subject == Some("Re: " + rest)
    ensures IsImportantEnhanced(Some(e), cfg, false, store, now)
  {
    var ls := Lower("Re: " + rest);
    assert ls[..3] == "re:";
    assert StartsWith(ls, ReplyPrefixes[0]);
  }

  /** A single relevant feedback on a sender with no earlier feedback makes
      that sender's next recent message important (one positive out of one
      is above 0.7). */
  lemma OneRelevantFeedbackMakesSenderImportant(s: Tracking.Store, emailId: string, e: Email,
                                                cfg: FilterConfig, now: int)
    requires Tracking.IsProcessed(s, emailId) && Present(s.processed[emailId].senderEmail)
    requires s.processed[emailId].senderEmail.value !in s.feedback
    requires e.senderEmail == s.processed[emailId].senderEmail && IsRecent(e, cfg.recencyHours, now)
    ensures IsImportantEnhanced(Some(e), cfg, false, Tracking.RecordFeedback(s, emailId, true, now), now)
  {
    Tracking.FeedbackIsCountedImmediately(s, emailId, true, now);
    var who := e.senderEmail.value;
    assert Tracking.FeedbackStats(Tracking.RecordFeedback(s, emailId, true, now), who, now) == Tracking.Stats(1, 1);
  }
}
