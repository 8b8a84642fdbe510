# notify-sync processing pipeline in Dafny

notify-sync polls a Gmail inbox every few minutes. It decides which new messages are important and relays each important one to Telegram and WhatsApp. This project models the pipeline as pure functions over immutable state and proves properties of it.

Modules, following the program's services:

- `Text` (`text.dfy`): the Java string operations the pipeline relies on.
  - `toLowerCase(Locale.ROOT)` is modelled on ASCII letters only.
  - `trim` drops every character up to U+0020.
  - Also covered: `startsWith`, `endsWith`, `contains`, `indexOf` and `replace`.
- `Model` (`model.dfy`): the `Email` and `Notification` records and their enums.
  - Java `null` becomes `Option`.
  - Time is integer seconds of local date-time.
  - `ChronoUnit.HOURS.between` is whole hours, truncated toward zero.
- `Tracking` (`tracking.dfy`): the in-memory tracking store. It has two maps:
  - processed records by email id;
  - feedback lists by sender.

  Its operations are membership, the overwriting insert, the thread-recency query, feedback append, feedback statistics and the 30-day sweep. The insert triggers the sweep whenever the record count is a multiple of 100.
- `Category` (`category.dfy`):
  - `GmailCategory.fromLabelName`;
  - the label-id map;
  - `getMessageCategory`, with the label list and the remote answers as inputs;
  - `isInAllowedCategory`.
- `Filter` (`filter.dfy`): the two importance classifiers and their shared rules.
  - `EnhancedEmailFilterService` is the primary one. `EmailFilterServiceImpl` uses a subset of its rules.
  - The shared domain-suffix and keyword-substring rules, with the property lists split at commas as Java's `split(',')` does.
  - The urgent-subject and reply-prefix regular expressions, written as explicit predicates. `\w` and `\s` are the ASCII classes, and case-insensitive matching is ASCII. `\b` follows `java.util.regex` from JDK 19 on: a word character is an ASCII `\w` character, or a non-spacing mark that follows a letter or digit, possibly through further marks. The model's non-spacing marks are the Combining Diacritical Marks block (U+0300-U+036F), and its letters and digits are the ASCII ones.
- `Gmail` (`gmail.dfy`): message conversion, with the remote calls as inputs.
  - The `From` header split.
  - The header scan, where the last occurrence of a header wins.
  - The MIME text selection of `getTextFromMessagePart`.
  - The per-message failure isolation of `fetchRecentEmails`.
- `Channels` (`channels.dfy`): the Telegram and WhatsApp channels.
  - Availability, channel type and the send guard.
  - Which exceptions each channel catches.
  - Message formatting: the HTML notice, tag stripping, entity decoding and the 500-character truncation.
- `Dispatch` (`dispatch.dfy`): `NotificationServiceImpl.sendNotifications`, the fan-out over an ordered channel list.
- `Processor` (`processor.dfy`): `EmailProcessorServiceImpl.processEmails`. It is a fold over the fetched emails that threads the daily counter, the reset time and the store through each step. Each step ends in one of eight dispositions, one per branch of the loop body.
- `Legacy` (`legacy.dfy`): the older `service/EmailProcessorService.processEmails`. It is also scheduled, so both pipelines run. It classifies the whole batch, then dispatches every important email, with no tracking, no cap and no per-email catch.

The world outside the program is passed in as parameters:

- the clock (`now`);
- the Gmail listing, message fetch and label answers (`Io` values, where `IoFailure` stands for an `IOException`);
- the date parser and the base64 decoder;
- the two category lookups of each email, the processor's and the classifier's own (`None` means the lookup threw);
- the outcome of each remote send (`Accepted`, `ApiFailure` or `RuntimeFailure`).

The model follows the code as written, including places where the code departs from the intent stated in its own comments:

- Inverted category gate. Both the classifier (`EnhancedEmailFilterService.java:55`) and the processor (`EmailProcessorServiceImpl.java:68`) reject a message when `isInAllowedCategory` answers *true*, that is, for PRIMARY and UPDATES messages. The comments around both checks say the opposite. The processor's gate comes first, so the classifier is reached only after the processor's lookup answered false. The classifier then makes its own, second remote lookup, after the email was already counted as processed (`EmailProcessorServiceImpl.java:96-99`). If that second lookup answers true, the email is recorded as not important. If it throws, the loop's catch (`:147`) leaves the email counted but untracked, so it is classified again in the next cycle (`Processor.ClassifierLookupDecides`).
- Doubled success entry. A channel that accepts a message is added to the result list twice (`NotificationServiceImpl.java:61` and `:74`), so a cycle with one working channel returns two SENT entries.
- "Notified" means any entry. The processor treats a non-empty dispatch list as success. An email counts as notified, and uses up one of the day's notifications, even when every channel failed.
- Reset keeps the seconds. The reset time is `now.plusDays(1).withHour(0).withMinute(0)`. This clears hours and minutes but keeps the seconds field, so the counter resets at 00:00:ss of the next day, not exactly at midnight (`Processor.NextResetTime`).
- Label map built once. `getMessageCategory` builds the label-id map only while it is null (`GmailCategoryService.java:59-61`). A failed label listing stores an empty map, not null (`:111`), so the map is never rebuilt: for the rest of the process every message is UNKNOWN and no message is in an allowed category (`Category.FailedListingMakesEveryMessageUnknown`).
- No thread id. `GmailService` never sets the thread id, so the thread-deduplication branch and the reply rule cannot fire on fetched mail (`Processor.FetchedEmailsAreNeverThreadSuppressed`).

## Model

| member | source | states |
|---|---|---|
| `Model.HoursBetween` | src/main/java/com/notifysync/notifysync/service/filter/EnhancedEmailFilterService.java:62 | The age is the number of whole hours between the two instants, truncated toward zero, for either order of the arguments. |
| `Tracking.KeepUnexpired` | src/main/java/com/notifysync/notifysync/service/tracking/EmailTrackingServiceImpl.java:171 | A sender's list keeps every feedback entry that is not older than thirty days, as often as it occurs, and nothing else. The list never grows. |
| `Tracking.KeepUnexpiredConcat` | src/main/java/com/notifysync/notifysync/service/tracking/EmailTrackingServiceImpl.java:171 | Filtering a concatenation is concatenating the filtered parts, so the surviving entries keep their original order. |
| `Tracking.Sweep` | src/main/java/com/notifysync/notifysync/service/tracking/EmailTrackingServiceImpl.java:162-175 | A record survives iff it is not older than thirty days. A sender survives iff some of its feedback does, and keeps exactly that feedback. Surviving records are unchanged. |
| `Tracking.SweepLeavesOnlyFreshEntries` | src/main/java/com/notifysync/notifysync/service/tracking/EmailTrackingServiceImpl.java:162-175 | After the sweep, no record or feedback entry is older than thirty days, no sender maps to an empty list, and every survivor is an unchanged original. |
| `Tracking.Record` | src/main/java/com/notifysync/notifysync/service/tracking/EmailTrackingServiceImpl.java:74-90 | The id is then processed, and its record carries exactly the given fields with time now. The store grows by at most one, and not at all for a known id. Other records and all feedback are untouched unless the new count is a multiple of 100, in which case only the thirty-day sweep removes anything. |
| `Tracking.RecordTwiceReplaces` | src/main/java/com/notifysync/notifysync/service/tracking/EmailTrackingServiceImpl.java:85 | Recording an id a second time adds no record and leaves the second call's fields. |
| `Tracking.IsProcessed` | src/main/java/com/notifysync/notifysync/service/tracking/EmailTrackingServiceImpl.java:69-71 | An id is processed iff the store holds a record for it. |
| `Tracking.FreshRecordSurvivesSweep` | src/main/java/com/notifysync/notifysync/service/tracking/EmailTrackingServiceImpl.java:81-90 | A record written now survives a sweep at the same instant. |
| `Tracking.WasThreadRecentlyProcessed` | src/main/java/com/notifysync/notifysync/service/tracking/EmailTrackingServiceImpl.java:99-110 | False for a missing or empty thread id. Otherwise true iff some record of that thread was notified strictly after now minus the look-back. |
| `Tracking.NotifiedRecordMakesThreadRecent` | src/main/java/com/notifysync/notifysync/service/tracking/EmailTrackingServiceImpl.java:99-110 | After recording a notified email with a non-empty thread id, the thread-recency query for that thread answers true for any positive look-back. |
| `Tracking.UnnotifiedRecordsNeverCount` | src/main/java/com/notifysync/notifysync/service/tracking/EmailTrackingServiceImpl.java:107-110 | If no record was notified, the thread-recency query answers false for every thread. |
| `Tracking.SweepPreservesThreadQuery` | src/main/java/com/notifysync/notifysync/service/tracking/EmailTrackingServiceImpl.java:104-110 | For a look-back within the thirty-day retention, the sweep never changes the thread-recency answer. |
| `Tracking.RecordFeedback` | src/main/java/com/notifysync/notifysync/service/tracking/EmailTrackingServiceImpl.java:114-133 | Feedback on an unknown id, or on a record with no sender, changes nothing. Otherwise exactly one entry is appended to that sender's list, the list is created if absent, and nothing else changes. |
| `Tracking.RecentEntries` | src/main/java/com/notifysync/notifysync/service/tracking/EmailTrackingServiceImpl.java:146-148 | Keeps every entry strictly newer than thirty days ago, as often as it occurs, and nothing else. |
| `Tracking.RecentEntriesConcat` | src/main/java/com/notifysync/notifysync/service/tracking/EmailTrackingServiceImpl.java:146-148 | Filtering a concatenation is concatenating the filtered parts, so the counted entries keep their original order. |
| `Tracking.FeedbackStats` | src/main/java/com/notifysync/notifysync/service/tracking/EmailTrackingServiceImpl.java:140-156 | An unknown sender gets (0, 0). For a known sender, the total is the number of list positions whose entry is strictly newer than thirty days ago, and the positive count is the number of those positions whose entry is relevant. So positive ≤ total ≤ the list length. |
| `Tracking.RecentEntriesCountPositions` | src/main/java/com/notifysync/notifysync/service/tracking/EmailTrackingServiceImpl.java:146-154 | The length of the recent sub-list is the number of recent positions, and its relevant count is the number of recent, relevant positions. |
| `Tracking.FeedbackIsCountedImmediately` | src/main/java/com/notifysync/notifysync/service/tracking/EmailTrackingServiceImpl.java:114-156 | Feedback recorded now raises the sender's total by one, and the positive count by one exactly when it was relevant. |
| `Tracking.SweepPreservesFeedbackStats` | src/main/java/com/notifysync/notifysync/service/tracking/EmailTrackingServiceImpl.java:140-175 | The sweep never changes any sender's feedback statistics. |
| `Category.ValueOf` | src/main/java/com/notifysync/notifysync/service/email/GmailCategoryService.java:37-39 | Gives the constant whose name is exactly the argument, and fails when no constant has that name. |
| `Category.FromLabelName` | src/main/java/com/notifysync/notifysync/service/email/GmailCategoryService.java:30-41 | A missing name, or one without the `CATEGORY_` prefix, is UNKNOWN. Any other result is the constant named exactly by the suffix. |
| `Category.FromLabelNameRoundTrip` | src/main/java/com/notifysync/notifysync/service/email/GmailCategoryService.java:30-38 | `CATEGORY_` followed by a constant's name maps back to that constant, for every constant. |
| `Category.LowerCaseSuffixIsUnknown` | src/main/java/com/notifysync/notifysync/service/email/GmailCategoryService.java:35-40 | The suffix match is case-sensitive: `CATEGORY_primary` is UNKNOWN. |
| `Category.PutAll` | src/main/java/com/notifysync/notifysync/service/email/GmailCategoryService.java:104-106 | The map gains exactly the listed ids. Each id maps to the name of its last listing, and earlier unlisted entries are kept. |
| `Category.LabelMap` | src/main/java/com/notifysync/notifysync/service/email/GmailCategoryService.java:98-113 | A failed or absent label listing gives the empty map. Otherwise the keys are exactly the listed ids. |
| `Category.FirstCategoryLabel` | src/main/java/com/notifysync/notifysync/service/email/GmailCategoryService.java:72-77 | Finds the first label id, in list order, whose mapped name starts with `CATEGORY_`, or reports that none does. |
| `Category.MessageCategory` | src/main/java/com/notifysync/notifysync/service/email/GmailCategoryService.java:56-85 | A failed fetch, or an absent or empty label list, gives UNKNOWN. Otherwise the result is the category of the first category label, or UNKNOWN when there is none. |
| `Category.AllowedMeansPrimaryOrUpdatesLabel` | src/main/java/com/notifysync/notifysync/service/email/GmailCategoryService.java:90-93 | A message is in an allowed category iff its first category label is `CATEGORY_PRIMARY` or `CATEGORY_UPDATES`. |
| `Category.IsAllowed` | src/main/java/com/notifysync/notifysync/service/email/GmailCategoryService.java:90-93 | A category is allowed iff it is PRIMARY or UPDATES. |
| `Category.FailedListingMakesEveryMessageUnknown` | src/main/java/com/notifysync/notifysync/service/email/GmailCategoryService.java:98-113 | After a failed or absent label listing the map is empty, so every message is UNKNOWN and none is in an allowed category. |
| `Filter.SplitComma` | src/main/java/com/notifysync/notifysync/service/filter/EnhancedEmailFilterService.java:27-31 | No field contains a comma, and a text with no comma is its own only field. Otherwise the fields, rejoined with commas, are a prefix of the text followed only by commas, and the last field kept is non-empty. There are no fields iff the text is made of commas only. |
| `Filter.JoinFields` | src/main/java/com/notifysync/notifysync/service/filter/EnhancedEmailFilterService.java:27-31 | Before trailing empty fields are dropped, rejoining the fields with commas gives back the property text. |
| `Filter.AnyDomainMatches` | src/main/java/com/notifysync/notifysync/service/filter/EnhancedEmailFilterService.java:127-138 | True iff some configured domain matches. |
| `Filter.FromImportantDomain` | src/main/java/com/notifysync/notifysync/service/filter/EnhancedEmailFilterService.java:118-139 | True iff the address is present and non-blank, and its lower-cased form ends with `@d` or `.d` for the trimmed, lower-cased form d of some non-blank configured domain. |
| `Filter.DomainMatchesIffSeparatorBefore` | src/main/java/com/notifysync/notifysync/service/filter/EnhancedEmailFilterService.java:130-132 | A domain matches iff the address is longer than it, ends with it, and has `@` or `.` just before it. |
| `Filter.SubdomainMatches` | src/main/java/com/notifysync/notifysync/service/filter/EnhancedEmailFilterService.java:118-139 | `alice@sub.example.com` matches the domain `example.com`. |
| `Filter.LookalikeDomainDoesNotMatch` | src/main/java/com/notifysync/notifysync/service/filter/EnhancedEmailFilterService.java:118-139 | `alice@notexample.com` does not match the domain `example.com`. |
| `Filter.AnyKeywordMatches` | src/main/java/com/notifysync/notifysync/service/filter/EnhancedEmailFilterService.java:150-160 | True iff some configured keyword matches. |
| `Filter.ContainsImportantKeywords` | src/main/java/com/notifysync/notifysync/service/filter/EnhancedEmailFilterService.java:141-161 | True iff the content is present and non-blank, and its lower-cased form contains the trimmed, lower-cased form of some non-blank keyword. |
| `Filter.DefaultConfigNeverMatches` | src/main/java/com/notifysync/notifysync/service/filter/EmailFilterServiceImpl.java:20-24 | The empty default property splits into one blank entry, so neither the domain rule nor the keyword rule can fire for any input. |
| `Filter.UrgentMatch` | src/main/java/com/notifysync/notifysync/service/filter/EnhancedEmailFilterService.java:36-38 | The lower-cased subject contains one of the seven urgent words, or `action`, whitespace, `required`, between two word boundaries. A combining mark that follows a letter or digit counts as a word character. |
| `Filter.ReplyMatch` | src/main/java/com/notifysync/notifysync/service/filter/EnhancedEmailFilterService.java:40-42 | The lower-cased subject starts with `re:`, `fw:`, `fwd:`, `回复:` or `转发:`. |
| `Filter.ActionRequiredIsUrgent` | src/main/java/com/notifysync/notifysync/service/filter/EnhancedEmailFilterService.java:36-38 | The urgent pattern finds "Action Required" in a subject, case-insensitively. |
| `Filter.UrgentNeedsWholeWord` | src/main/java/com/notifysync/notifysync/service/filter/EnhancedEmailFilterService.java:36-38 | The urgent pattern needs word boundaries: "urgently" does not match. |
| `Filter.CombiningMarkAfterWord` | src/main/java/com/notifysync/notifysync/service/filter/EnhancedEmailFilterService.java:36-38 | A combining mark after "urgent" continues the word, so "urgent\u0301" does not match. |
| `Filter.CombiningMarkBeforeWord` | src/main/java/com/notifysync/notifysync/service/filter/EnhancedEmailFilterService.java:36-38 | A combining mark after a letter joins that letter's word, so "e\u0301urgent" does not match. |
| `Filter.CombiningMarkAfterUnderscore` | src/main/java/com/notifysync/notifysync/service/filter/EnhancedEmailFilterService.java:36-38 | An underscore is no letter, so a mark after it continues no word and "_\u0301urgent" matches. |
| `Filter.IsImportantEnhanced` | src/main/java/com/notifysync/notifysync/service/filter/EnhancedEmailFilterService.java:45-116 | A missing email, a true category answer, or a stale or undated message is never important. Past these gates the result is true iff the urgent-subject, domain, subject-keyword, body-keyword, sender-feedback or reply-in-thread rule fires. |
| `Filter.IsImportantBasic` | src/main/java/com/notifysync/notifysync/service/filter/EmailFilterServiceImpl.java:30-68 | A missing, stale or undated message is never important. Otherwise the result is true iff the domain, subject-keyword or body-keyword rule fires. |
| `Filter.BasicRefinesEnhanced` | src/main/java/com/notifysync/notifysync/service/filter/EmailFilterServiceImpl.java:49-64 | Whenever the basic classifier says important and the category answer is false, the primary classifier says important too. |
| `Filter.EnhancedIsStrictlyWeaker` | src/main/java/com/notifysync/notifysync/service/filter/EnhancedEmailFilterService.java:67-71 | The refinement is strict: an "Action Required" subject with empty lists is important to the primary classifier only. |
| `Filter.StaleIsNeverImportant` | src/main/java/com/notifysync/notifysync/service/filter/EnhancedEmailFilterService.java:61-65 | A message older than the recency window is rejected by both classifiers, whatever its subject, sender, body, thread or feedback history. |
| `Filter.ReplyInThreadIsImportant` | src/main/java/com/notifysync/notifysync/service/filter/EnhancedEmailFilterService.java:106-112 | A recent message with a thread id and a subject opening with "Re: " is important under any configuration. |
| `Filter.OneRelevantFeedbackMakesSenderImportant` | src/main/java/com/notifysync/notifysync/service/filter/EnhancedEmailFilterService.java:91-104 | Suppose a sender has no earlier feedback and one relevant feedback is recorded. Any recent message from that sender is then important, because one out of one is above 0.7. |
| `Gmail.SplitFrom` | src/main/java/com/notifysync/notifysync/service/email/GmailService.java:75-84 | A value lacking `<` or `>` is both name and address. Otherwise the name is the trimmed text before the first `<`, and the address is the trimmed text between the first `<` and the first `>`. When `>` comes first, the conversion throws. |
| `Gmail.SplitFromDisplayForm` | src/main/java/com/notifysync/notifysync/service/email/GmailService.java:77-79 | `name <address>` splits back into the trimmed name and address. |
| `Gmail.ScanHeaders` | src/main/java/com/notifysync/notifysync/service/email/GmailService.java:69-98 | The scan fails exactly when some `From` header, not only the last one, cannot be split. |
| `Gmail.ScanHeadersSubjectIsLast` | src/main/java/com/notifysync/notifysync/service/email/GmailService.java:69-98 | The subject is the value of the last `Subject` header, or stays "" when there is none. |
| `Gmail.ScanHeadersSenderIsLast` | src/main/java/com/notifysync/notifysync/service/email/GmailService.java:69-98 | Sender and address come from splitting the last `From` header, or stay "" when there is none. |
| `Gmail.ScanHeadersDateIsLast` | src/main/java/com/notifysync/notifysync/service/email/GmailService.java:85-96 | The received time comes from the last `Date` header: its parsed value, or now when it does not parse. Without one it stays unset. |
| `Gmail.ChildrenTextMeaning` | src/main/java/com/notifysync/notifysync/service/email/GmailService.java:122-131 | The first `text/plain` child with data is returned alone, discarding its earlier siblings' text. Without one, the result is the in-order concatenation of the children's texts. |
| `Gmail.GetText` | src/main/java/com/notifysync/notifysync/service/email/GmailService.java:117-134 | A part's text is its decoded data, or the child selection of a multipart, or ""; a failed decode fails it. |
| `Gmail.TextSelection` | src/main/java/com/notifysync/notifysync/service/email/GmailService.java:117-134 | A part with data yields its decoded data. A part with neither data nor children yields "". A multipart yields the selection above. |
| `Gmail.ConvertToEmail` | src/main/java/com/notifysync/notifysync/service/email/GmailService.java:61-115 | The conversion fails iff some `From` header cannot be split or the body text fails to decode. Otherwise the email keeps the message id, has no thread id and is not important. Its subject is the last `Subject` header (or ""). Sender and address split the last `From` header (or are ""). Its time is the last `Date` header parsed, or now when that is absent or unparsable. Its body is the part's selected text. A message without payload gives "" for subject, sender, address and body, received now. |
| `Gmail.ConvertAll` | src/main/java/com/notifysync/notifysync/service/email/GmailService.java:45-52 | Yields at most one email per listed id. Every email returned is the conversion of some listed message. When every fetch and conversion succeeds, the result is exactly the listed messages converted, in listing order. |
| `Gmail.FetchOne` | src/main/java/com/notifysync/notifysync/service/email/GmailService.java:45-52 | A failed fetch yields nothing. A fetched message yields exactly its conversion, which has no thread id, is not important and is dated. |
| `Gmail.FetchOneKeepsIff` | src/main/java/com/notifysync/notifysync/service/email/GmailService.java:45-52 | A listed message is kept exactly when its fetch succeeds and, if it has a payload, every From header splits and its text decodes. |
| `Gmail.ConvertAllConcat` | src/main/java/com/notifysync/notifysync/service/email/GmailService.java:45-52 | The loop over a concatenated listing is the concatenation of the loops, so order and multiplicity are kept. |
| `Gmail.ConvertAllSingle` | src/main/java/com/notifysync/notifysync/service/email/GmailService.java:45-52 | A one-message listing yields that message's conversion, or nothing when it fails. |
| `Gmail.FetchRecentEmails` | src/main/java/com/notifysync/notifysync/service/email/GmailService.java:28-59 | A failed or empty listing gives no emails. Otherwise there are at most as many emails as listed messages, each the conversion of a listed message. When every fetch and conversion succeeds, all listed messages come back converted, in order. |
| `Gmail.FailureDropsOnlyThatMessage` | src/main/java/com/notifysync/notifysync/service/email/GmailService.java:45-52 | A message whose fetch or conversion fails is dropped, and the rest of the batch converts as if it were not listed. |
| `Channels.ChannelType` | src/main/java/com/notifysync/notifysync/service/channel/TelegramChannel.java:49-52 | Telegram reports TELEGRAM and WhatsApp reports WHATSAPP. |
| `Channels.IsAvailable` | src/main/java/com/notifysync/notifysync/service/channel/TelegramChannel.java:45-47 | Telegram is available iff token and chat id are non-empty. WhatsApp is available iff enabled and all four credentials and numbers are non-empty. |
| `Channels.SendNotification` | src/main/java/com/notifysync/notifysync/service/channel/TelegramChannel.java:55-75 | An unavailable channel returns false without sending. A send returns true iff the channel is available and the gateway accepted. Only an available Telegram channel hit by a non-API failure propagates an exception. |
| `Channels.WhatsAppNeverRaises` | src/main/java/com/notifysync/notifysync/service/channel/WhatsAppChannel.java:63-74 | The WhatsApp send catches every exception and returns a verdict. |
| `Channels.Truncate` | src/main/java/com/notifysync/notifysync/service/channel/TelegramChannel.java:111-114 | A body of at most 500 characters is unchanged. A longer one becomes its first 500 characters followed by "...", so the result is at most 503 long. |
| `Channels.StripTags` | src/main/java/com/notifysync/notifysync/service/channel/TelegramChannel.java:95 | After tag removal no `<` is followed anywhere later by `>`. The text does not grow, gains no characters, and is unchanged when it has no `<`. |
| `Channels.StripTagsFixesTagFree` | src/main/java/com/notifysync/notifysync/service/channel/TelegramChannel.java:95 | A text with no `<` … `>` pair is left unchanged. |
| `Channels.StripTagsIdempotent` | src/main/java/com/notifysync/notifysync/service/channel/TelegramChannel.java:95 | Stripping twice is the same as stripping once. |
| `Channels.DecodeEntities` | src/main/java/com/notifysync/notifysync/service/channel/TelegramChannel.java:98-103 | The six entity replacements, each applied once over the whole text, in source order. |
| `Channels.DecodeEntitiesWithoutAmpersand` | src/main/java/com/notifysync/notifysync/service/channel/TelegramChannel.java:98-103 | A text without `&` passes entity decoding unchanged. |
| `Channels.DecodeEntitiesRunsOnce` | src/main/java/com/notifysync/notifysync/service/channel/TelegramChannel.java:98-103 | Each replacement runs once, in the listed order, so `&amp;lt;` becomes `&lt;` and not `<`. |
| `Channels.TelegramBody` | src/main/java/com/notifysync/notifysync/service/channel/TelegramChannel.java:84-116 | A missing body prints as "null". A body that looks like HTML becomes the fixed notice. Any other body ends at most 503 characters long. |
| `Channels.PlainBodyIsOnlyCleanedAndTruncated` | src/main/java/com/notifysync/notifysync/service/channel/TelegramChannel.java:93-114 | On a body with no `<` and no `&`, tag stripping and entity decoding change nothing, so the result is the cleaned, trimmed and truncated body. A short body that the cleanup and the trim leave alone is sent verbatim. |
| `Channels.TelegramText` | src/main/java/com/notifysync/notifysync/service/channel/TelegramChannel.java:77-121 | The message is the bold "New Important Email" header, then the From line with the sender and the HTML-escaped address, the Subject line and the Received line, then the processed body, and nothing else. |
| `Channels.WhatsAppBody` | src/main/java/com/notifysync/notifysync/service/channel/WhatsAppChannel.java:84-90 | A missing body prints as "null". A body of at most 500 characters is kept verbatim. A longer one becomes its first 500 characters followed by "...". |
| `Channels.WhatsAppBodyRecoversBody` | src/main/java/com/notifysync/notifysync/service/channel/WhatsAppChannel.java:84-90 | The printed body's length tells whether it was cut. An uncut body is the email body itself, and a cut one starts with the email body's first 500 characters. |
| `Channels.WhatsAppText` | src/main/java/com/notifysync/notifysync/service/channel/WhatsAppChannel.java:77-93 | The message is the inbox-tray "New Important Email" header, then the From line with the sender and the parenthesised address, the Subject line and the Received line, then the truncated body, and nothing else. |
| `Dispatch.Contribution` | src/main/java/com/notifysync/notifysync/service/notification/NotificationServiceImpl.java:52-74 | An accepted send contributes the same SENT entry twice. A refused or failed send contributes one FAILED entry. |
| `Dispatch.Fanout` | src/main/java/com/notifysync/notifysync/service/notification/NotificationServiceImpl.java:36-75 | Exactly the available channels are sent to, each once and in list order. No entry is PENDING, and each carries priority HIGH and the email's subject. |
| `Dispatch.FanoutCounts` | src/main/java/com/notifysync/notifysync/service/notification/NotificationServiceImpl.java:36-75 | Totals over the list: twice as many SENT entries as accepting channels, one FAILED entry per other available channel, and nothing else. |
| `Dispatch.FanoutIsContributionsInOrder` | src/main/java/com/notifysync/notifysync/service/notification/NotificationServiceImpl.java:36-75 | The list is the attempted channels' contributions laid end to end in channel order: each accepting channel adds its two SENT entries next to each other, each other available channel one FAILED entry. |
| `Dispatch.TwoAcceptingChannels` | src/main/java/com/notifysync/notifysync/service/notification/NotificationServiceImpl.java:36-75 | Two accepting channels give the first channel's two SENT entries, then the second's. |
| `Dispatch.FanoutEntriesComeFromChannels` | src/main/java/com/notifysync/notifysync/service/notification/NotificationServiceImpl.java:42-74 | Every entry comes from an available channel, carries that channel's type, and is SENT exactly when that channel's send was accepted. |
| `Dispatch.SendNotifications` | src/main/java/com/notifysync/notifysync/service/notification/NotificationServiceImpl.java:25-82 | A missing email touches no channel and yields nothing. Otherwise the fan-out runs over every available channel and never yields PENDING. |
| `Dispatch.NonEmptyIffSomeAvailable` | src/main/java/com/notifysync/notifysync/service/notification/NotificationServiceImpl.java:36-81 | The list is non-empty iff some channel is available, whatever the sends return. |
| `Dispatch.SingleChannel` | src/main/java/com/notifysync/notifysync/service/notification/NotificationServiceImpl.java:58-74 | With one available channel, the result is the doubled SENT entry on success and a single FAILED entry otherwise. |
| `Processor.NextResetTime` | src/main/java/com/notifysync/notifysync/service/processor/EmailProcessorServiceImpl.java:168 | The next reset falls on the following day, within 24 hours of now. It is at 00:00 plus the current seconds. |
| `Processor.InitialState` | src/main/java/com/notifysync/notifysync/service/processor/EmailProcessorServiceImpl.java:39-40 | The counter starts at zero with a reset time in the future and an empty store. |
| `Processor.ResetIfNeeded` | src/main/java/com/notifysync/notifysync/service/processor/EmailProcessorServiceImpl.java:163-170 | Past the reset time, the counter becomes zero and the reset moves past now. Otherwise the state is unchanged. The store is never touched. |
| `Processor.Decide` | src/main/java/com/notifysync/notifysync/service/processor/EmailProcessorServiceImpl.java:59-146 | Already-tracked emails are skipped. A failing first lookup is caught. A true category answer skips the email before classification. A recently notified thread suppresses it. A counted email faults iff the classifier's own lookup throws. Otherwise it is important iff the primary classifier, given that second answer, says so. The cap blocks dispatch, and a dispatch notifies iff some channel is available. |
| `Processor.Step` | src/main/java/com/notifysync/notifysync/service/processor/EmailProcessorServiceImpl.java:59-149 | Every branch except the skip and the two caught lookup failures records the email once, with its branch's important and notified flags. The counter rises by one exactly on a notified dispatch. |
| `Processor.Fold` | src/main/java/com/notifysync/notifysync/service/processor/EmailProcessorServiceImpl.java:55-150 | The summary satisfies notified ≤ important ≤ processed ≤ fetched. The counter rises by the notified count, the reset time is kept, and a counter within the cap stays within it. |
| `Processor.ProcessEmails` | src/main/java/com/notifysync/notifysync/service/processor/EmailProcessorServiceImpl.java:44-158 | The reset runs before the loop. The summary bounds hold, and the counter ends at the notified count when it was reset, or grows by it otherwise. |
| `Processor.CapIsNeverExceeded` | src/main/java/com/notifysync/notifysync/service/processor/EmailProcessorServiceImpl.java:106-112 | Starting within the cap, or past the reset time, a cycle never leaves the counter above the daily maximum. |
| `Processor.DefaultCapIsTwentyPerDay` | src/main/java/com/notifysync/notifysync/service/processor/EmailProcessorServiceImpl.java:32-36 | Under the default properties (20 per day, two-hour thread window) a cycle leaves at most 20 notifications counted for the day. |
| `Processor.NoDispatchAtCap` | src/main/java/com/notifysync/notifysync/service/processor/EmailProcessorServiceImpl.java:106-134 | Once the counter has reached the cap, no later email of the cycle is dispatched or notified. |
| `Processor.NotifiedEvenWhenAllSendsFail` | src/main/java/com/notifysync/notifysync/service/processor/EmailProcessorServiceImpl.java:108-124 | An important email dispatched with some channel available counts and is recorded as notified, even if every send fails. |
| `Processor.ClassifierLookupDecides` | src/main/java/com/notifysync/notifysync/service/processor/EmailProcessorServiceImpl.java:96-149 | For a counted email, a true answer from the classifier's own lookup records it as not important. A throw there counts it but leaves the state untouched. |
| `Processor.FoldRecordsEveryEmail` | src/main/java/com/notifysync/notifysync/service/processor/EmailProcessorServiceImpl.java:59-146 | Over a store with nothing expired, every email whose two lookups both answer ends the cycle tracked, and no earlier record is lost. |
| `Processor.KnownBatchIsInert` | src/main/java/com/notifysync/notifysync/service/processor/EmailProcessorServiceImpl.java:62-65 | A batch whose every email is tracked, or fails its first lookup, changes no state and counts nothing. Every email is skipped or faults. |
| `Processor.SecondCycleSendsNothing` | src/main/java/com/notifysync/notifysync/service/processor/EmailProcessorServiceImpl.java:44-158 | Suppose the first cycle starts from a store with nothing expired. Suppose also that the second cycle sees the same lookup answers, and the classifier's lookup answers wherever the processor's does. Then re-running the batch at any later time dispatches, records and counts nothing: every email is already tracked or fails its first lookup again. |
| `Processor.SameThreadIsSuppressed` | src/main/java/com/notifysync/notifysync/service/processor/EmailProcessorServiceImpl.java:82-94 | Once an email of a thread is notified, a following new email of the same thread is suppressed. |
| `Processor.FetchedEmailsAreNeverThreadSuppressed` | src/main/java/com/notifysync/notifysync/service/processor/EmailProcessorServiceImpl.java:82-83 | Emails without a thread id, which is every email the Gmail fetch produces, are never thread-suppressed. |
| `Legacy.Classify` | src/main/java/com/notifysync/notifysync/service/EmailProcessorService.java:38-44 | A throwing lookup aborts (no verdict). A true category answer gives false, and a stale email is never important. Otherwise the verdict is the primary classifier's: important exactly when the answer is false, the email is recent and the urgent, domain, keyword, feedback or reply rule fires. |
| `Legacy.ClassifyAll` | src/main/java/com/notifysync/notifysync/service/EmailProcessorService.java:38-44 | Every email's important flag is set to the classifier's verdict, in order. Any throwing classification aborts the batch. |
| `Legacy.ProcessEmails` | src/main/java/com/notifysync/notifysync/service/EmailProcessorService.java:29-58 | A throwing classification aborts the cycle before any send. Otherwise each email comes back unchanged except for its important flag, and the sends go to exactly the important emails, each once, in fetch order. |
| `Legacy.ImportantEmailIsResentEveryCycle` | src/main/java/com/notifysync/notifysync/service/EmailProcessorService.java:29-58 | With no tracking, an email sent in one cycle is sent again by any cycle that fetches it and classifies it the same way. |
| `Legacy.AllowedCategoryIsNeverSent` | src/main/java/com/notifysync/notifysync/service/filter/EnhancedEmailFilterService.java:55-58 | An email whose category answer is true is never sent by the legacy pipeline. |
| `Legacy.Dispatches` | src/main/java/com/notifysync/notifysync/service/EmailProcessorService.java:48-51 | Each important email gets one dispatch, in send order, titled with that email's subject and sent to exactly the available channels. |

## Left out

- JSON persistence of the tracking store, its load at start-up and the save after every tenth record and after each feedback: this is file I/O, and the in-memory maps are the state.
- Scheduling and concurrency: the timers, the concurrent maps and the manual trigger of the status controller. Cycles are modelled as strictly sequential.
- Logging, notification UUIDs, `createdAt`, the `createNotificationMessage` text and the status endpoint: none of them affect a decision.
- The Gmail, Telegram and Twilio client calls, OAuth and bot registration: their answers are inputs (`Io` values, the category lookup and the `GatewayResult` per email and channel).
- The clock: `LocalDateTime.now()` is a parameter. One `now` serves a whole cycle, whereas the program reads the clock again for every record.
- Date parsing with `SimpleDateFormat` is the `parseDate` parameter. A failed parse is modelled as in the code: the time becomes now.
- Base64 decoding is the `dec` parameter. The program hands '+' and '/' to the URL-safe decoder of section 5 of RFC 4648, which rejects them; that alphabet handling is not modelled, and `dec` may return `None` for any input.
- The three whitespace-cleanup regular expressions of the Telegram formatter are the `cleanup` parameter. The trim and the truncation after them are modelled exactly.
- Channels.TelegramBody: for a non-HTML body it states only the length bound and, via `Channels.PlainBodyIsOnlyCleanedAndTruncated`, what happens to bodies without markup, because the cleanup step is a parameter.
- String lengths are counted in characters, not UTF-16 code units, so `substring(0, 500)` on text outside the Basic Multilingual Plane is not modelled exactly.
- `toLowerCase(Locale.ROOT)` and case-insensitive matching are modelled on ASCII letters only. Non-ASCII case mappings are not modelled.
- The channel list Spring injects is taken as an arbitrary sequence, because the extra bean names in the channel configuration make its exact contents depend on the container.
- The fetch limit `maxEmailsPerFetch` is not modelled: the message listing is an input of any length.
- Null header names and values in a Gmail message are not modelled. A null name would throw in the `switch` and drop the message.
- The Telegram formatter's null dereference on a missing email is not reachable: the dispatcher returns before formatting a missing email.
- Exceptions other than the failing category lookups inside the processor loop are not modelled. A tracking-store failure is one example. The dispatcher catches everything its channels throw, so no send failure reaches the loop.
- Filter.UrgentMatch: `\b` is modelled as on JDK 19 and later. On JDK 17 and 18 it also treats non-ASCII letters as word characters, so a subject such as "紧急urgent" would not match there; the build's Java version is not part of this model. Within the JDK 19 rule, only the Combining Diacritical Marks block (U+0300-U+036F) is treated as non-spacing marks, and only ASCII letters and digits as their base characters. So a mark from another block, or a mark after a non-ASCII letter such as "é", counts as a word character in Java but not here. No full Unicode category table is part of this model.
- Processor.SecondCycleSendsNothing: assumes the classifier's own lookup answers wherever the processor's does. An email whose second lookup throws stays untracked and is classified again next cycle, where a record or a sweep made for other emails could change its outcome; no statement is made about that case.
