# Orbo community CRM: a verified model of its core logic

Orbo is a Next.js/TypeScript CRM for Telegram communities. Most of its
code renders pages or talks to PostgreSQL, Supabase, Telegram and OpenAI.
Inside those files are small, self-contained pieces of logic, and this
project models them in Dafny and proves what they promise:

- the drag-and-drop page tree of the knowledge base (materials);
- the parsers and normalisers: Telegram Markdown, the Telegram chat
  export, vCard contacts, phone, e-mail and username normalisation, the
  GetCourse integration helpers, and the HTML/newline conversion of the
  rich-text editor;
- the validators of the onboarding questionnaire and of AI-generated app
  configurations;
- the classification rules: a member's engagement category, the churn risk
  score, reaction sentiment and favourites, the notification thresholds,
  work hours and check interval, billing trial and payment periods, and the
  announcement retry status;
- three small stateful components: the webhook recovery rate limiter, the
  error-log batching queue with fingerprint deduplication, and the
  PostgreSQL query builder that numbers `$n` placeholders.

One Dafny module models one source file (`Qualification` and
`QualificationForm` share `qualification.dfy`). The shared modules are
`Wrappers` (Option), `Text` (the JavaScript string operations the code
relies on: `trim`, `toLowerCase`, `indexOf`, `split`, `join`, `parseInt`
and `Number` on integer strings, `toString(16)`), `JsValues` (JSON values
and truthiness), `Sorting` (a stable sort, as the ECMAScript
`Array.prototype.sort` has been required to be since 2019), `Tally`
(counting in a JavaScript `Map`, one slot per key in first-seen order) and
`Arithmetic`.

The form follows the code's. Pure code becomes functions with lemmas.
Code that updates state becomes classes or methods with loops:
- the query builder, the recovery limiter, the error queue, the billing
  subscription object and the analytics aggregator are classes;
- the Markdown parser, the export parser, vCard parsing, config validation,
  reaction counting and announcement sending are methods with loops.

Each method is proved against a specification function, and the lemmas
state the promised properties about that function.

Conventions:
- Instants are milliseconds since the epoch.
- `Date.now()` is a parameter `now`.
- Date parsing is a parameter `timeOf: string -> Option<int>`, with None
  for an invalid date.
- Database rows, the Telegram client's replies and the other I/O results
  are parameters or fields.

## Model

| member | source | states |
|---|---|---|
| MaterialsTree.FindNode | components/materials/materials-tree.tsx:748-757 | a page found by `findNode` carries the id asked for |
| MaterialsTree.FindNodeIsFirst | components/materials/materials-tree.tsx:748-757 | `findNode` finds a page exactly when the id occurs, and it is the first page with that id in preorder |
| MaterialsTree.GetChildCount | components/materials/materials-tree.tsx:743-746 | the number of children of the page found, or 0 when there is none |
| MaterialsTree.DetachFrom | components/materials/materials-tree.tsx:682-713 | a removed page has the id; with nothing removed the parent is null and the index -1; a removed page's index is never negative |
| MaterialsTree.DetachFindsIff | components/materials/materials-tree.tsx:688-712 | `detachNode` removes a page exactly when the id occurs in the forest, and leaves the forest as it was when it does not |
| MaterialsTree.DetachKeepsOrder | components/materials/materials-tree.tsx:682-713 | the page removed is the first one in preorder with the id; it goes with its subtree, and every other page keeps its place in the order |
| MaterialsTree.DetachReportsPlace | components/materials/materials-tree.tsx:682-713 | the reported parent and index are those `collectPositions` gives the removed page |
| MaterialsTree.CollectFollowsPreorder | components/materials/materials-tree.tsx:771-780 | `collectPositions` lists one place per page, in preorder |
| MaterialsTree.DetachTop | components/materials/materials-tree.tsx:693-697 | a page found directly in the given list is that list's element at the reported index, and the tree is the list without it |
| MaterialsTree.DetachParentInside | components/materials/materials-tree.tsx:698-706 | the reported parent is the given parent or a page of the forest |
| MaterialsTree.SpliceIn | components/materials/materials-tree.tsx:717-718 | `splice(index, 0, x)` puts `x` at the clamped index and keeps the elements before and after it |
| MaterialsTree.InsertUnder | components/materials/materials-tree.tsx:724-733 | inserting under a parent id keeps the number of top-level pages |
| MaterialsTree.InsertAbsent | components/materials/materials-tree.tsx:724-733 | inserting under a parent id that does not occur changes nothing |
| MaterialsTree.FindAfterInsert | components/materials/materials-tree.tsx:715-733 | after the insert, `findNode` on the parent sees its old children with the page spliced in at the index |
| MaterialsTree.InsideAppends | components/materials/materials-tree.tsx:243-249 | a drop inside a page makes the dragged page that page's last child |
| MaterialsTree.DetachDeepUndo | components/materials/materials-tree.tsx:698-706 | a page removed from below the top level goes back to where it was when inserted under the reported parent at the reported index |
| MaterialsTree.DetachInsertUndo | components/materials/materials-tree.tsx:682-733 | with unique ids, inserting the removed page at the reported parent and index restores the forest |
| MaterialsTree.UpdatePositions | components/materials/materials-tree.tsx:735-741 | renumbering keeps the pages, their ids and titles, and numbers every page by its index among its siblings, at every depth |
| MaterialsTree.UpdatePositionsKeepsIds | components/materials/materials-tree.tsx:735-741 | renumbering keeps every id in the same preorder |
| MaterialsTree.UpdatePositionsNumbered | components/materials/materials-tree.tsx:735-741 | an already numbered forest is left unchanged |
| MaterialsTree.AdjustIndex | components/materials/materials-tree.tsx:259-262 | the index drops by one exactly when the page moves forward among the same parent's children and the target is not 0; it never goes below 0 |
| MaterialsTree.DragEnd | components/materials/materials-tree.tsx:219-266 | a drop deeper than `MAX_DEPTH` or of a page that is not found is abandoned; an accepted drop gives a numbered tree for the dragged page |
| MaterialsTree.DropInPlace | components/materials/materials-tree.tsx:259-265 | dropping a page just before or just after itself gives back the same forest, renumbered, at its old parent and index |
| NotificationRules.UtcHours | lib/services/notificationRulesService.ts:460 | the UTC hour of an instant lies in 0..23 |
| NotificationRules.UtcMinutes | lib/services/notificationRulesService.ts:474 | the UTC minute of an instant lies in 0..59 |
| NotificationRules.UtcDay | lib/services/notificationRulesService.ts:461 | the UTC weekday of an instant lies in 0..6, Sunday being 0 |
| NotificationRules.TzOffset | lib/services/notificationRulesService.ts:459 | the zone offset is 0 or 3 hours, and it is 3 exactly for Europe/Moscow |
| NotificationRules.UtcClock | lib/services/notificationRulesService.ts:460-461 | every wall-clock reading has a weekday 0..6, an hour 0..23 and a minute 0..59 |
| NotificationRules.WrittenClock | lib/services/notificationRulesService.ts:459-461 | the clock the code reads (shifted hour, UTC weekday and minute) stays in the same ranges |
| NotificationRules.NoWindowNoRestriction | lib/services/notificationRulesService.ts:454 | a missing or empty start or end means there is no restriction, in the code as written and as corrected |
| NotificationRules.WorkHoursCases | lib/services/notificationRulesService.ts:463-475 | inside work hours exactly when the day list is absent, empty or holds the local weekday, both times parse, and the local minute of the day lies in the inclusive window |
| NotificationRules.ClockParses | lib/services/notificationRulesService.ts:468-471 | `"h:m"` with numeric parts reads as `h * 60 + m` minutes |
| NotificationRules.DecimalClockParses | lib/services/notificationRulesService.ts:468-471 | a time written in decimal digits as `"H:M"` reads as `H * 60 + M` minutes |
| NotificationRules.HourOnlyFails | lib/services/notificationRulesService.ts:468-471 | a time with no colon has no minutes part and never parses, so the window compares false |
| NotificationRules.ShiftedHourIsLocal | lib/services/notificationRulesService.ts:459-461 | the hour the code reads is the local hour, but its weekday stays the UTC one |
| NotificationRules.ClocksAgree | lib/services/notificationRulesService.ts:459-461 | when the shift does not cross midnight, the code's clock and the local clock agree |
| NotificationRules.SameDayAgrees | lib/services/notificationRulesService.ts:448-480 | when the shift does not cross midnight, the check as written and the corrected check give the same answer |
| NotificationRules.SundayEveningClocks | lib/services/notificationRulesService.ts:459-461 | at 21:30 UTC on a Sunday the code reads Sunday 00:30 while Moscow is at Monday 00:30 |
| NotificationRules.WeekdayFromUtc | lib/services/notificationRulesService.ts:461-466 | for a Monday-only rule whose window holds 00:30, the check as written refuses Monday 00:30 in Moscow while the corrected check accepts it |
| NotificationRules.MondayInWindow | lib/services/notificationRulesService.ts:463-475 | a reading on a listed day inside a parsed window is inside work hours |
| NotificationRules.LocalCheckFollowsWallClock | lib/services/notificationRulesService.ts:448-480 | the corrected check in a zone is the UTC check at the local wall-clock instant |
| NotificationRules.LinkChatId | lib/services/notificationRulesService.ts:491-496 | the chat id loses a leading `-100`, else a leading `-`, else nothing |
| NotificationRules.TelegramMessageLink | lib/services/notificationRulesService.ts:486-502 | there is no link exactly when the message id is absent or 0; otherwise the link is `https://t.me/c/<chat>/<message>` with the cleaned chat id |
| NotificationRules.SupergroupLink | lib/services/notificationRulesService.ts:491-498 | a supergroup id `-100N` links as `N`, and so does a group id `-N` whose digits do not begin with 100 |
| NotificationRules.ThresholdLadder | lib/services/notificationRulesService.ts:627-642 | the default threshold fires on medium and high, `low` on any known severity, `high` only on high, and nothing fires without a negative finding |
| NotificationRules.ThresholdMonotone | lib/services/notificationRulesService.ts:638-642 | a finding that fires at a stricter threshold also fires at every looser one |
| NotificationRules.IntervalOf | lib/services/notificationRulesService.ts:564 | the check interval is never 0: a missing or zero setting becomes 60 minutes, and any other setting is kept |
| NotificationRules.SkipIffWithinInterval | lib/services/notificationRulesService.ts:565-577 | a rule with a last check is skipped exactly when less than the interval has passed since it |
| NotificationRules.SkipMonotone | lib/services/notificationRulesService.ts:565-577 | a rule not skipped now is not skipped later, and a rule never checked is never skipped |
| NotificationRules.EffectiveInterval | lib/services/notificationRulesService.ts:599-608 | the window analysed is at most the configured interval, equal to it without a last check, and at most five minutes more than the time since the last check |
| WhatsAppImport.CardLines | app/api/whatsapp/import/route.ts:17 | one trimmed line per newline-separated piece of the card, in order |
| WhatsAppImport.PhoneOf | app/api/whatsapp/import/route.ts:33-35 | the phone taken from a `TEL` line is the part after its last colon, so it holds no colon |
| WhatsAppImport.ParseVcf | app/api/whatsapp/import/route.ts:16-48 | the loop over the lines returns exactly the contact the card describes (the last `FN:` name, the last non-blank `TEL` phone, digits only), or null |
| WhatsAppImport.PhoneBlankIff | app/api/whatsapp/import/route.ts:31-39 | no phone is kept exactly when no line is a `TEL` line with a non-blank part after its last colon |
| WhatsAppImport.PhoneFromLast | app/api/whatsapp/import/route.ts:31-39 | a kept phone comes from the last `TEL` line that gives one |
| WhatsAppImport.NameAfterLast | app/api/whatsapp/import/route.ts:24-26 | the name is empty without an `FN:` line and otherwise comes from the last one |
| WhatsAppImport.NoPhoneLineNoContact | app/api/whatsapp/import/route.ts:31-48 | a card without any `TEL` line yields null |
| WhatsAppImport.ContactShape | app/api/whatsapp/import/route.ts:42-45 | a contact's phone is all digits, is the digits of the last phone-giving line, and its name is the `FN:` name or, when that is empty, the raw phone |
| WhatsAppImport.ExpandYear | app/api/whatsapp/import/route.ts:346-352 | a year is absent exactly when it was absent, and only a two-character year is changed |
| WhatsAppImport.TwoDigitYear | app/api/whatsapp/import/route.ts:348-352 | a two-digit year becomes four digits ending in it: 19YY above 50 (1951..1999), 20YY otherwise (2000..2050) |
| WhatsAppImport.ActivityScore | app/api/whatsapp/import/route.ts:543-545 | the score lies in 0..100, is 100 exactly from 50 messages on, and is twice the count below that |
| WhatsAppImport.ActivityScoreMonotone | app/api/whatsapp/import/route.ts:545 | more messages never give a lower score |
| RichEditor.BreakLinesNoNewline | components/ui/telegram-rich-editor.tsx:51-54 | after single newlines become `<br>` a paragraph holds no newline |
| RichEditor.ParagraphsNoNewline | components/ui/telegram-rich-editor.tsx:51-56 | the converted paragraphs hold no newline at all |
| RichEditor.TiptapParagraphs | components/ui/telegram-rich-editor.tsx:47-57 | empty input gives `<p></p>`; otherwise each double-newline-separated block becomes one `<p>` paragraph; the result always starts with `<p>`, ends with `</p>` and holds no newline |
| RichEditor.SpacesEnd | components/ui/telegram-rich-editor.tsx:70 | the end of a `\s*` run lies at or after its start, and the character there is not white space |
| RichEditor.SpacesEndSkipsSpaces | components/ui/telegram-rich-editor.tsx:70 | every character a `\s*` run skips is white space |
| RichEditor.NewlinesEnd | components/ui/telegram-rich-editor.tsx:82 | the end of a run of newlines: everything skipped is a newline and the next character is not |
| RichEditor.MatchLen | components/ui/telegram-rich-editor.tsx:69-79 | a pattern match at a position never runs past the end of the text |
| RichEditor.CollapseFrom | components/ui/telegram-rich-editor.tsx:82 | collapsing newline runs of three or more to two leaves no triple newline |
| RichEditor.TelegramTextShape | components/ui/telegram-rich-editor.tsx:62-89 | empty input gives empty output; the result holds no three newlines in a row and neither starts nor ends with white space |
| RichEditor.ReplaceKeepsAlternating | components/ui/telegram-rich-editor.tsx:69-76 | replacing tag patterns by bracket-free text keeps the angle brackets alternating |
| RichEditor.StripLeavesNoTags | components/ui/telegram-rich-editor.tsx:79 | removing `<p>` and `</p>` from text whose angle brackets alternate leaves no paragraph tag |
| RichEditor.CollapseKeepsTagFree | components/ui/telegram-rich-editor.tsx:82 | collapsing newlines creates no paragraph tag |
| RichEditor.UnwrappedTagFree | components/ui/telegram-rich-editor.tsx:69-79 | after steps 1 to 4 no `<p>` or `</p>` is left when the input's angle brackets alternate |
| RichEditor.TelegramTextTagFree | components/ui/telegram-rich-editor.tsx:62-89 | the Telegram text holds no `<p>` or `</p>` when the input's angle brackets alternate |
| RichEditor.StrayTagSurvives | components/ui/telegram-rich-editor.tsx:79 | a nested tag such as `<<p>p>` comes out of the single removal pass as `<p>`, so the removal alone does not guarantee tag-free text |
| RichEditor.BreakLinesShape | components/ui/telegram-rich-editor.tsx:51-54 | a bracket-free paragraph with `<br>` put in holds no bracket other than those of its `<br>` tags |
| RichEditor.PlainKeepsBlankRemovals | components/ui/telegram-rich-editor.tsx:69-70 | a plain paragraph is not removed as an empty one |
| RichEditor.PlainBreaksBack | components/ui/telegram-rich-editor.tsx:73 | the `<br>` tags of a plain paragraph turn back into its newlines |
| RichEditor.PlainUnwraps | components/ui/telegram-rich-editor.tsx:76-79 | a single paragraph has no boundary, and removing its tags leaves its text |
| RichEditor.PlainKeepsNewlines | components/ui/telegram-rich-editor.tsx:82 | a plain paragraph has no newline run to collapse |
| RichEditor.PlainIsOneBlock | components/ui/telegram-rich-editor.tsx:51 | a plain paragraph is a single double-newline block |
| RichEditor.PlainParagraphRoundTrip | components/ui/telegram-rich-editor.tsx:47-89 | a plain paragraph (bracket-free, no blank line, no surrounding white space) survives the trip to the editor and back unchanged |
| RichEditor.NoBracketNotHtml | components/ui/telegram-rich-editor.tsx:39-41 | text without a `<` is never taken for HTML |
| RichEditor.BoldTagLooksLikeHtml | components/ui/telegram-rich-editor.tsx:39-41 | text holding `<b>` or `<B>` is taken for HTML |
| RichEditor.PrepareContentForEditor | components/ui/telegram-rich-editor.tsx:94-104 | empty input gives `<p></p>`, and HTML input is converted straight to editor paragraphs |
| RichEditor.EditorGetsParagraphs | components/ui/telegram-rich-editor.tsx:94-104 | whatever the input, the editor gets text that starts with `<p>`, ends with `</p>` and holds no newline |
| AiConstructor.ValidateAppConfig | lib/services/aiConstructorService.ts:369-413 | the validation built step by step is exactly the one the config determines: errors in the order the checks run, or the TypeError a null entry raises |
| AiConstructor.CheckCollections | lib/services/aiConstructorService.ts:395-407 | the loop over the collections appends each entry's errors in order, and stops with the TypeError exactly when some entry is null or undefined |
| AiConstructor.CheckApp | lib/services/aiConstructorService.ts:377-389 | the app checks add their errors in the order the code makes them |
| AiConstructor.PushEntryErrors | lib/services/aiConstructorService.ts:396-406 | one entry's checks append its messages in order, each naming `collections[i]` |
| AiConstructor.PushUnless | lib/services/aiConstructorService.ts:377-406 | a failed check appends its one message and a passed one appends nothing |
| AiConstructor.ItemsErrorsStep | lib/services/aiConstructorService.ts:395-407 | the errors of the first i+1 entries are those of the first i followed by entry i's |
| AiConstructor.NotAnObjectOneError | lib/services/aiConstructorService.ts:372-374 | a config that is not an object is invalid with the single error `Config must be an object` |
| AiConstructor.AppErrorsIff | lib/services/aiConstructorService.ts:377-389 | `Missing app object` appears exactly when app is not an object and is then the only app error; each missing field has its message exactly when it is missing; no app error speaks of collections |
| AiConstructor.EntryErrorsIff | lib/services/aiConstructorService.ts:396-406 | each of the five entry messages appears exactly when its field fails, an entry has no error exactly when all five hold, and there are at most five |
| AiConstructor.EntryErrorsNotNoCollections | lib/services/aiConstructorService.ts:396-406 | an entry error never reads as the missing-collections error |
| AiConstructor.ItemsErrorsEmptyIff | lib/services/aiConstructorService.ts:395-407 | the collections give no error exactly when every entry is well formed |
| AiConstructor.ItemsThrowIff | lib/services/aiConstructorService.ts:395-407 | the loop throws exactly when some entry is null or undefined |
| AiConstructor.ItemsErrorsNotNoCollections | lib/services/aiConstructorService.ts:395-407 | no entry error reads as the missing-collections error |
| AiConstructor.NoCollectionsIff | lib/services/aiConstructorService.ts:392-393 | for an object config, `collections must be a non-empty array` appears exactly when collections is not a non-empty array |
| AiConstructor.ValidIffWellFormed | lib/services/aiConstructorService.ts:369-413 | valid is true exactly when the error list is empty, and exactly when the config is well formed |
| AiConstructor.AppEmptyIff | lib/services/aiConstructorService.ts:377-389 | the app gives no error exactly when it is an object with a name, a description and an app_type |
| AiConstructor.AllGoodIff | lib/services/aiConstructorService.ts:395-407 | with no null entry, the entries give no error exactly when each one is well formed |
| AiConstructor.ThrowsIff | lib/services/aiConstructorService.ts:369-413 | validation throws exactly when the config is an object whose collections is a non-empty array holding a null or undefined entry |
| Billing.CeilDivBounds | lib/services/billingService.ts:211 | the rounded-up day count q of a span x satisfies (q - 1) days < x <= q days |
| Billing.CeilDivUnique | lib/services/billingService.ts:211 | that count is the only whole number with the bound |
| Billing.MapPlanDefaults | lib/services/billingService.ts:383-392 | a plan row without limits gets 1000 participants, no AI requests and no custom rules, the defaults of the free plan; the code is kept and absent features become empty |
| Billing.GetPlans | lib/services/billingService.ts:63-81 | when the query fails the three default plans take its place; otherwise one mapped plan per row, in the query's order |
| Billing.FindPlan | lib/services/billingService.ts:85-199 | `find` gives nothing exactly when no plan has the code, and otherwise a plan of the catalogue with that code |
| Billing.FindPlanFirst | lib/services/billingService.ts:85-199 | the plan found is the first one with the code |
| Billing.GetPlanByCode | lib/services/billingService.ts:83-86 | a code in the catalogue gives its plan; any other code gives the first default plan, the free one |
| Billing.Subscription.constructor | lib/services/billingService.ts:24-35 | the subscription object holds exactly the fields of the stored row |
| Billing.GetOrgBillingStatus | lib/services/billingService.ts:172-237 | the subscription object is left as the auto-trial step makes it, and the status returned is the one that object determines |
| Billing.TrialFields | lib/services/billingService.ts:208-214 | during a trial the days left are never negative and are the span rounded up to whole days; expired exactly when the end is reached, 0 days exactly when expired, a warning exactly when at most three days remain |
| Billing.NoTrialNoTrialFields | lib/services/billingService.ts:203-208 | outside a trial, or without an end date, the trial fields are 0, false, false |
| Billing.OverLimitIff | lib/services/billingService.ts:216-226 | during a trial over the limit means the trial expired; otherwise it means more participants than a positive limit; a limit of -1 is reported as unlimited and never exceeded; the grace period expires exactly with an expired trial |
| Billing.FreshTrial | lib/services/billingService.ts:181-214 | an organisation that qualifies becomes Pro on trial with fourteen days left, not expired, no warning and not over the limit |
| Billing.AutoTrialOnce | lib/services/billingService.ts:181-197 | a subscription that does not qualify is left as it was, and the trial never starts a second time |
| Billing.FeatureAccessIff | lib/services/billingService.ts:241-261 | a feature is allowed exactly during a running trial or when the plan enables AI; a refusal always carries the one reason; the payment link is the status's |
| Billing.DaysToAddRounds | lib/services/billingService.ts:296 | the days bought are the amount over 1500 times 30, rounded to the nearest whole day |
| Billing.DaysToAddUnique | lib/services/billingService.ts:296 | that day count is the only one within half a day of the exact value |
| Billing.DaysToAddPositiveIff | lib/services/billingService.ts:296-300 | a payment buys at least one day exactly when it is at least 25 roubles |
| Billing.MonthsToDays | lib/services/billingService.ts:296 | n monthly prices buy exactly 30 n days |
| Billing.PaymentSucceedsIff | lib/services/billingService.ts:287-359 | a payment goes through exactly when it buys a day and the subscription write succeeds; a failed invoice insert does not change that |
| Billing.PaidPeriod | lib/services/billingService.ts:302-349 | the period starts at the current end of a running Pro period and otherwise now, lasts the days bought and ends in the future; the row becomes active Pro until then, keeps its start date only for an already active Pro, and the invoice records the amount and the period |
| Billing.PaymentsAccumulate | lib/services/billingService.ts:306-318 | a second payment before the first period ends starts where it ended, so the two buy their days back to back |
| Billing.ActivateProMonths | lib/services/billingService.ts:361-364 | activating for months succeeds exactly for one month or more when the write succeeds, and then buys thirty days per month |
| Billing.CancelEndsPro | lib/services/billingService.ts:366-379 | after cancelling, the status shows the free plan and no trial, the expiry reminders no longer pick the subscription, and the auto-trial applies again exactly above a positive free limit |
| Billing.SelectedDaysLeft | lib/services/billingService.ts:436-457 | every subscription the expiry query selects has at most seven days left |
| Billing.NotifyWindows | lib/services/billingService.ts:457-459 | a reminder goes out exactly when at most one day remains, or between two and three days, or between six and seven days |
| Billing.DedupKeysDistinct | lib/services/billingService.ts:463 | two reminders for one organisation share a dedup key only for the same day count or when both are expired |
| Announcements.ResultOf | lib/services/announcementService.ts:117-143 | a group's result is a success exactly when Telegram delivered the message |
| Announcements.GroupOutcomeIff | lib/services/announcementService.ts:66-145 | a group succeeds exactly when it has a chat id and the last reply was a delivery; a failure always carries an error; a parse error in the first reply leads to one resend without Markdown |
| Announcements.Successes | lib/services/announcementService.ts:66-160 | the successes never outnumber the groups |
| Announcements.SendToGroups | lib/services/announcementService.ts:62-160 | the loop counts exactly the groups that succeed, counts every other group as a failure, and records each group's result under its chat id |
| Announcements.AllDeliveredIff | lib/services/announcementService.ts:66-160 | every group counts as a success exactly when each one succeeds, and none does exactly when each one fails |
| Announcements.ResultsKeys | lib/services/announcementService.ts:66-160 | the results hold exactly one entry per distinct chat id of the groups |
| Announcements.ResultsLast | lib/services/announcementService.ts:66-160 | the entry of a chat id is the outcome of its last group |
| Announcements.FinalStatusIff | lib/services/announcementService.ts:162-196 | sent exactly when nothing failed or something got through; scheduled exactly when nothing got through with fewer than three retries; failed otherwise; the retry count grows only on rescheduling, the send time is set exactly when the status is final, and the per-group results are stored |
| Announcements.ExceptionLikeTotalFailure | lib/services/announcementService.ts:211-230 | a thrown error has the same status, send time and retry count as a pass in which no group got the message, except that a final failure keeps the retry count |
| Announcements.RetriesBounded | lib/services/announcementService.ts:163-222 | starting from at most three retries, no path records more than three |
| Announcements.SendAnnouncementToGroups | lib/services/announcementService.ts:27-232 | the counters returned and the two updates written are exactly those the read, the Telegram replies and the clock determine |
| Announcements.SentMeansDelivered | lib/services/announcementService.ts:27-232 | the status goes to sending first; a final sent status means the groups were read and some got the message; a retry follows only a pass with no delivery; a failed or empty read fails at once with nothing delivered |
| Announcements.ShortDescription | lib/services/announcementService.ts:268 | a description over 200 characters is cut to its first 200 and marked with an ellipsis; a shorter one is kept |
| Announcements.CreateEventReminders | lib/services/announcementService.ts:237-321 | the reminders built are exactly those due for the event at that moment |
| Announcements.RemindersAhead | lib/services/announcementService.ts:293-321 | at most two reminders, both scheduled in the future and before the event, a day before and an hour before; both when the event is more than a day away, only the hour-before one when it is between an hour and a day away, none when it is at most an hour away, the day-before one first |
| PostgresClient.PlaceholderInjective | lib/db/postgres-client.ts:131-133 | two counter values give the same placeholder exactly when they are equal |
| PostgresClient.Placeholders | lib/db/postgres-client.ts:131-133 | n placeholders issued from a counter are `$start`, `$start+1`, … in order |
| PostgresClient.QuoteAll | lib/db/postgres-client.ts:316-368 | every column name is double-quoted, in order |
| PostgresClient.Sqls | lib/db/postgres-client.ts:288-294 | one SQL fragment per condition, in order |
| PostgresClient.ValuesAppend | lib/db/postgres-client.ts:288-294 | the values of the conditions with one more added are the old ones followed by its own |
| PostgresClient.ValuesAt | lib/db/postgres-client.ts:288-294 | value j of condition k sits in the flattened list just after the values of the conditions before k |
| PostgresClient.NumberedAppend | lib/db/postgres-client.ts:131-256 | a condition numbered at the current counter keeps every condition's numbers matching its place in the value list |
| PostgresClient.ConditionsBind | lib/db/postgres-client.ts:278-410 | in a select or delete, every placeholder of every condition is bound to the value given for it |
| PostgresClient.SelectColumnsShape | lib/db/postgres-client.ts:419-435 | `*` passes through, and a column list without parentheses becomes its trimmed columns, each quoted, joined by commas |
| PostgresClient.SingleColumnQuoted | lib/db/postgres-client.ts:419-435 | a single plain column becomes that column, trimmed and quoted |
| PostgresClient.Keys | lib/db/postgres-client.ts:314-366 | `Object.keys` lists the row's property names in order |
| PostgresClient.RowValues | lib/db/postgres-client.ts:331-350 | a row's values for the columns in column order, undefined where the row lacks one |
| PostgresClient.Tuples | lib/db/postgres-client.ts:338-381 | one `($a, …)` tuple per row, each taking the next `width` numbers |
| PostgresClient.RowMajorAt | lib/db/postgres-client.ts:331-378 | the value sent for row r and column c sits at r * width + c |
| PostgresClient.RowMajorLength | lib/db/postgres-client.ts:331-378 | a write sends exactly rows × columns values |
| PostgresClient.RowsBind | lib/db/postgres-client.ts:312-344 | in an insert, the placeholder of row r and column c is bound to that row's value for that column |
| PostgresClient.ExcludedSetsMembers | lib/db/postgres-client.ts:383-387 | an upsert updates exactly the columns other than the conflict target |
| PostgresClient.SetParts | lib/db/postgres-client.ts:347-351 | one `"col" = $n` per column of the update, numbered on from the counter |
| PostgresClient.UpdateMisbinds | lib/db/postgres-client.ts:346-365 | `update({name: 'x'}).eq('id', 5)` reads `SET "name" = $2 WHERE "id" = $1` but sends `['x', 5]`, so `$1` is bound to `'x'` and `$2` to 5 |
| PostgresClient.UpdateBinds | lib/db/postgres-client.ts:346-365 | with the condition values sent first, every `SET` placeholder and every condition placeholder of the update is bound to its own value |
| PostgresClient.TransformResult | lib/db/postgres-client.ts:73-91 | no result gives null data; otherwise the row count is kept, all rows are returned, and single mode gives the first row or null |
| PostgresClient.QueryBuilder.constructor | lib/db/postgres-client.ts:108-129 | a new builder selects `*` from the table with no data, no condition, no order, no limit and the counter at 1 |
| PostgresClient.QueryBuilder.NextParam | lib/db/postgres-client.ts:131-133 | the placeholder of the current counter is issued and the counter moves on by one; nothing else changes |
| PostgresClient.QueryBuilder.NextParams | lib/db/postgres-client.ts:216-225 | n placeholders in a row, the counter moving on by n |
| PostgresClient.QueryBuilder.AddCondition | lib/db/postgres-client.ts:167-256 | the condition is appended and numbered where the counter stood, keeping the builder valid |
| PostgresClient.QueryBuilder.SelectColumns | lib/db/postgres-client.ts:135-140 | the operation becomes select, the columns those given or `*`, and the count exact only when asked |
| PostgresClient.QueryBuilder.InsertRows | lib/db/postgres-client.ts:142-146 | the operation becomes insert with the rows given |
| PostgresClient.QueryBuilder.UpdateRow | lib/db/postgres-client.ts:148-152 | the operation becomes update with the values given |
| PostgresClient.QueryBuilder.UpsertRows | lib/db/postgres-client.ts:154-159 | the operation becomes upsert with the rows and the conflict column given |
| PostgresClient.QueryBuilder.DeleteRows | lib/db/postgres-client.ts:161-164 | the operation becomes delete |
| PostgresClient.QueryBuilder.Compare | lib/db/postgres-client.ts:167-236 | `eq` … `ilike`, `contains` and `containedBy` append `"col" op $n` with the one value, taking the next number; for `contains` and `containedBy` that value is the `JSON.stringify` text the caller passes |
| PostgresClient.QueryBuilder.Filter | lib/db/postgres-client.ts:251-254 | `filter` appends `"col" operator $n` with the one value |
| PostgresClient.QueryBuilder.Not | lib/db/postgres-client.ts:238-241 | `not` appends `NOT ("col" operator $n)` with the one value |
| PostgresClient.QueryBuilder.Is | lib/db/postgres-client.ts:207-214 | `is` appends `IS NULL`, `IS TRUE` or `IS FALSE` and takes no number |
| PostgresClient.QueryBuilder.In | lib/db/postgres-client.ts:216-225 | an empty list appends `1 = 0`; otherwise `"col" IN (…)` with one placeholder per value, the counter moving on by their number |
| PostgresClient.QueryBuilder.Or | lib/db/postgres-client.ts:243-249 | `or` appends the filter text in parentheses with dots turned into spaces, taking no number |
| PostgresClient.QueryBuilder.Order | lib/db/postgres-client.ts:257-262 | appends `"col" ASC` or `DESC` (descending only when asked) with `NULLS FIRST` or `NULLS LAST` |
| PostgresClient.QueryBuilder.Limit | lib/db/postgres-client.ts:264-267 | sets the limit |
| PostgresClient.QueryBuilder.Range | lib/db/postgres-client.ts:269-273 | sets both ends of the range |
| PostgresClient.QueryBuilder.BuildQuery | lib/db/postgres-client.ts:278-416 | the statement and the values returned are those the builder's state determines; an insert restarts the counter at 1 and a write moves it past its row placeholders; a write with no rows throws |
| PostgresClient.QueryBuilder.NextTuples | lib/db/postgres-client.ts:338-381 | the tuples of a write, the counter moving on by rows × columns |
| PostgresClient.DotsToSpaces | lib/db/postgres-client.ts:246 | the text with every dot replaced by a space and nothing else changed |
| PostgresClient.ConditionValues | lib/db/postgres-client.ts:288-294 | the loop collects the values of all conditions, in order |
| PostgresClient.CollectRows | lib/db/postgres-client.ts:331-378 | the nested loop collects every row's values for the columns, row after row |
| TelegramMarkdown.FindUnescaped | lib/utils/telegramMarkdown.tsx:205-212 | the first position from the start holding the character not preceded by a backslash, or -1 exactly when there is none |
| TelegramMarkdown.FindUnescapedLoop | lib/utils/telegramMarkdown.tsx:205-212 | the for loop returns the position `findUnescaped` specifies |
| TelegramMarkdown.PlainEnd | lib/utils/telegramMarkdown.tsx:163-179 | plain text runs up to the first character that can open a format (`*`, `_`, `~`, backquote, `[`, or a doubled marker) or to the end |
| TelegramMarkdown.Step | lib/utils/telegramMarkdown.tsx:45-195 | each pass of the loop consumes at least one character and never runs past the end |
| TelegramMarkdown.Paired | lib/utils/telegramMarkdown.tsx:50-131 | a doubled marker that closes consumes both markers and the content between |
| TelegramMarkdown.Single | lib/utils/telegramMarkdown.tsx:65-105 | a single marker closes only after a non-empty content |
| TelegramMarkdown.Delimited | lib/utils/telegramMarkdown.tsx:47-161 | a format node ends within the text, past its opening |
| TelegramMarkdown.CodeAt | lib/utils/telegramMarkdown.tsx:132-143 | inline code ends within the text, past its backquote |
| TelegramMarkdown.LinkAt | lib/utils/telegramMarkdown.tsx:144-161 | a link ends within the text, past its bracket |
| TelegramMarkdown.PairedLoop | lib/utils/telegramMarkdown.tsx:50-131 | the imperative branch for a doubled marker pushes the node the specification gives and moves to the same place |
| TelegramMarkdown.SingleLoop | lib/utils/telegramMarkdown.tsx:65-105 | the same for a single `*` or `_` |
| TelegramMarkdown.CodeLoop | lib/utils/telegramMarkdown.tsx:132-143 | the same for inline code |
| TelegramMarkdown.LinkLoop | lib/utils/telegramMarkdown.tsx:144-161 | the same for a link |
| TelegramMarkdown.DelimitedLoop | lib/utils/telegramMarkdown.tsx:47-161 | the chain of format branches gives the node and position the specification gives, or falls through exactly when it does |
| TelegramMarkdown.PlainLoop | lib/utils/telegramMarkdown.tsx:163-195 | the text branch pushes the plain run, or the single character when no run starts here |
| TelegramMarkdown.ParseTelegramMarkdown | lib/utils/telegramMarkdown.tsx:39-197 | the while loop returns exactly the node list the pass-by-pass specification gives, empty text giving no nodes |
| TelegramMarkdown.ParseWellFormed | lib/utils/telegramMarkdown.tsx:39-197 | every node of the parse is well formed, at every depth: links and only links carry a URL, code and links have no children, every other format node carries the parse of its content |
| TelegramMarkdown.DelimitedShape | lib/utils/telegramMarkdown.tsx:47-161 | a format node is never plain text, carries a URL exactly when it is a link, has children exactly when it is not code or a link, and those children are the parse of its shorter content |
| TelegramMarkdown.ParseAtLength | lib/utils/telegramMarkdown.tsx:45-195 | the parse has at most as many nodes as the text has characters |
| TelegramMarkdown.PlainTextPassesThrough | lib/utils/telegramMarkdown.tsx:39-187 | text with no formatting character becomes one text node holding all of it, and empty text no node |
| TelegramMarkdown.SingleStarBold | lib/utils/telegramMarkdown.tsx:47-76 | a single `*` opens bold up to the next unescaped `*` when the content is not empty, and is otherwise kept as a plain `*` |
| TelegramMarkdown.DoubleStarBold | lib/utils/telegramMarkdown.tsx:47-63 | `**` opens bold up to the next `**`; an unclosed one is kept as one plain `*` and the scan moves on by one |
| TelegramMarkdown.LinkNode | lib/utils/telegramMarkdown.tsx:144-161 | `[text](url)` becomes a link node with that text and that URL |
| TelegramJsonParser.Validate | lib/services/telegramJsonParser.ts:78-108 | an export is valid exactly when there is no error, and exactly when it parses and passes every check; a parse failure reports its message, a root that is not an object the root error, and a named export without a messages array the messages error |
| TelegramJsonParser.FirstWordThenDigit | lib/services/telegramJsonParser.ts:195-203 | the search finds the first place where the word is followed by a digit, or reports that there is none |
| TelegramJsonParser.UserFromId | lib/services/telegramJsonParser.ts:195-198 | `user<digits>` gives the user id of those digits |
| TelegramJsonParser.ChannelFromId | lib/services/telegramJsonParser.ts:199-203 | `channel<digits>` gives the negated id of those digits |
| TelegramJsonParser.OtherFromId | lib/services/telegramJsonParser.ts:194-204 | an id with neither pattern gives no author id |
| TelegramJsonParser.LinkEnd | lib/services/telegramJsonParser.ts:258 | a link match is empty or at least as long as `http://` plus one character |
| TelegramJsonParser.ParseMessage | lib/services/telegramJsonParser.ts:183-272 | a kept message is of type `message`; its text is the trimmed raw text, non-empty, and its character count is that length; the author name is the `from` value of any type when truthy and "Unknown" otherwise; a truthy `from_id` that is not a string skips the message, a string one gives the parsed author id and a falsy one none; the time value is that of the date; the message keeps its id and its position |
| TelegramJsonParser.EntityText | lib/services/telegramJsonParser.ts:246-250 | a null entity has no text (reading it throws); a falsy `text` gives the empty string and a string one itself |
| TelegramJsonParser.EntityArrayText | lib/services/telegramJsonParser.ts:246-250 | an entity whose `text` is an array of two strings contributes them joined by a comma, as `join` turns an array into a string |
| TelegramJsonParser.BlankMessageSkipped | lib/services/telegramJsonParser.ts:252-255 | a message whose text is only white space is skipped, at any position |
| TelegramJsonParser.RecordAuthor | lib/services/telegramJsonParser.ts:125-149 | one message updates the author map as the tally specifies: a new author starts at one message, a known one gains one and widens its date range |
| TelegramJsonParser.ParseExport | lib/services/telegramJsonParser.ts:113-178 | a null or undefined entry makes the whole parse fail, exactly then, with the TypeError of reading `id` of the first such entry; otherwise the messages kept are exactly those `parseMessage` keeps, in order; the authors are their tally; the counts are the numbers of messages and authors; the date range runs from the earliest to the latest message, or is now for an export with none |
| TelegramJsonParser.KeptStep | lib/services/telegramJsonParser.ts:118-123 | one more message extends the kept list exactly when it parses |
| TelegramJsonParser.TallyStep | lib/services/telegramJsonParser.ts:125-149 | the tally of one more message is the tally updated by it |
| TelegramJsonParser.TallyCounts | lib/services/telegramJsonParser.ts:125-172 | the tally has one entry per distinct author key and each entry counts exactly that author's messages |
| TelegramJsonParser.ObjectAuthorsApart | lib/services/telegramJsonParser.ts:125-149 | two messages without author id or username whose `from` is an object or array are counted as two authors, since the map keys objects by identity |
| TelegramJsonParser.NumberAuthorKey | lib/services/telegramJsonParser.ts:125-149 | a numeric `from` is a map key of its own, apart from the string of its digits |
| TelegramJsonParser.TallyDates | lib/services/telegramJsonParser.ts:133-146 | an author's first and last dates bound all its messages and are the dates of some of them |
| TelegramJsonParser.TallyAbsent | lib/services/telegramJsonParser.ts:125-149 | a key not in the tally belongs to no message |
| TelegramJsonParser.StampBounds | lib/services/telegramJsonParser.ts:160-164 | the start and end of the range bound every message and are the dates of some message |
| TelegramJsonParser.IsBot | lib/services/telegramJsonParser.ts:277-294 | a username ending in `bot` in either case makes a bot; otherwise a string name is tested for the known bot words after lower-casing and trimming, and a name of any other type throws |
| TelegramJsonParser.KnownWordMakesBot | lib/services/telegramJsonParser.ts:283-291 | a string name whose lower-cased, trimmed form contains any of "orbo", "bot", "telegram" or "channel" makes a bot |
| TelegramJsonParser.IsBotIgnoresCase | lib/services/telegramJsonParser.ts:286-288 | for a string name, whether an author is a bot does not depend on the case of the name |
| ParticipantMatcher.NormalizePhone | lib/services/participants/matcher.ts:35-49 | no phone exactly when the input is absent or has no digit; otherwise `+` followed by digits only |
| ParticipantMatcher.NormalizePhoneIdempotent | lib/services/participants/matcher.ts:35-49 | normalising a normalised phone changes nothing |
| ParticipantMatcher.RussianSpellingsAgree | lib/services/participants/matcher.ts:39-47 | a ten-digit number and its `8…` and `7…` eleven-digit spellings all normalise to `+7` and the ten digits |
| ParticipantMatcher.NormalizeEmail | lib/services/participants/matcher.ts:51-53 | no e-mail exactly when the input is absent or empty; otherwise trimmed and lower-case |
| ParticipantMatcher.NormalizeEmailIdempotent | lib/services/participants/matcher.ts:51-53 | normalising a normalised e-mail changes nothing |
| ParticipantMatcher.NormalizeUsername | lib/services/participants/matcher.ts:72 | a username is non-empty and is the trimmed input, with at most one leading `@` removed |
| ParticipantMatcher.UsernameAtSign | lib/services/participants/matcher.ts:72 | `@name` and `name` give the same username |
| ParticipantMatcher.NameParts | lib/services/participants/matcher.ts:56 | only the non-empty first and last names are kept |
| ParticipantMatcher.BuildFullName | lib/services/participants/matcher.ts:55-61 | a full name is trimmed; there is none exactly when neither part is given and the fallback is absent or blank; without parts it is the trimmed fallback |
| ParticipantMatcher.FullNameOfBoth | lib/services/participants/matcher.ts:56-58 | a first and a last name give `first last` |
| ParticipantMatcher.LabelsDistinct | lib/services/participants/matcher.ts:135-161 | the five reasons carry five different labels |
| ParticipantMatcher.Weight | lib/services/participants/matcher.ts:89-161 | every reason weighs something positive |
| ParticipantMatcher.FuzzyEvents | lib/services/participants/matcher.ts:160-162 | every row of the name search adds the similar-name reason |
| ParticipantMatcher.Slot | lib/services/participants/matcher.ts:85-111 | the place of a candidate id in the table, or -1 exactly when the id is absent |
| ParticipantMatcher.Results | lib/services/participants/matcher.ts:165-169 | one result per candidate, in the order candidates were first seen |
| ParticipantMatcher.AddRowReasons | lib/services/participants/matcher.ts:134-139 | the four checks on one exact row add the reasons the specification gives, in order |
| ParticipantMatcher.AddExactRows | lib/services/participants/matcher.ts:134-139 | the loop over the exact rows adds their reasons in row order |
| ParticipantMatcher.AddFuzzyRows | lib/services/participants/matcher.ts:160-162 | the loop over the name-search rows adds one similar-name reason per row |
| ParticipantMatcher.CollectReasons | lib/services/participants/matcher.ts:134-162 | the reason table after both loops is the one the exact events followed by the name-search events build from empty |
| ParticipantMatcher.FindMatches | lib/services/participants/matcher.ts:68-174 | the candidates returned are exactly the matches the two query results determine |
| ParticipantMatcher.RunHit | lib/services/participants/matcher.ts:135-138 | a check adds its reason exactly when it hits |
| ParticipantMatcher.RunAppend | lib/services/participants/matcher.ts:114-163 | adding two lists of reasons is adding one after the other |
| ParticipantMatcher.AddIds | lib/services/participants/matcher.ts:89-111 | adding a reason adds its participant to the candidates and never duplicates one |
| ParticipantMatcher.AddScored | lib/services/participants/matcher.ts:89-95 | after each reason the score of a candidate is the sum of the weights of its reasons |
| ParticipantMatcher.RunConsistent | lib/services/participants/matcher.ts:89-111 | the reasons, scores and candidates stay consistent over any number of reasons |
| ParticipantMatcher.RunIds | lib/services/participants/matcher.ts:89-111 | the candidates are exactly the participants some reason was added for |
| ParticipantMatcher.RunReasons | lib/services/participants/matcher.ts:89-93 | a candidate's reasons are those added for it, in order |
| ParticipantMatcher.WeightSumPositive | lib/services/participants/matcher.ts:89-95 | a candidate with a reason has a positive score |
| ParticipantMatcher.ResultOfTable | lib/services/participants/matcher.ts:165-169 | each result carries its candidate's reasons, which are never empty, and its score capped at 100 |
| ParticipantMatcher.MatchesOrdered | lib/services/participants/matcher.ts:165-170 | the results are ordered by score, highest first, and are a permutation of the candidates |
| ParticipantMatcher.MatchScores | lib/services/participants/matcher.ts:165-170 | a returned candidate carries the reasons added for it and the capped sum of their weights, a score in 1..100 |
| ParticipantMatcher.SameElementsIds | lib/services/participants/matcher.ts:165-170 | reordering the results keeps the same participants |
| ParticipantMatcher.ResultsIds | lib/services/participants/matcher.ts:165-169 | a participant is among the results exactly when it is a candidate |
| ParticipantMatcher.MatchedIds | lib/services/participants/matcher.ts:68-174 | a participant is returned exactly when some reason was added for it |
| ParticipantMatcher.HitReasons | lib/services/participants/matcher.ts:135-138 | a check gives its reason for the row's participant exactly when it hits |
| ParticipantMatcher.RowReason | lib/services/participants/matcher.ts:134-139 | one exact row gives a reason to a participant exactly when it is that participant's row and the check hits |
| ParticipantMatcher.ExactReason | lib/services/participants/matcher.ts:134-139 | the exact rows give a reason to a participant exactly when one of its rows hits that check |
| ParticipantMatcher.FuzzyReason | lib/services/participants/matcher.ts:160-162 | the name-search rows give only the similar-name reason, and give it to exactly the participants among them |
| ParticipantMatcher.ReasonIff | lib/services/participants/matcher.ts:114-170 | a returned candidate has a contact reason exactly when one of its exact rows matches on that contact, and the similar-name reason exactly when the name search ran and returned it |
| GetCourse.TrimString | lib/services/integrations/getcourse.ts:106 | a string of at most 500 characters is kept; a longer one becomes its first 500 followed by an ellipsis |
| GetCourse.Sanitize | lib/services/integrations/getcourse.ts:108-125 | strings are clipped; an array keeps its first five items, each sanitized in turn, and an object its first twenty entries in order, each value sanitized under its own key; every other value is kept |
| GetCourse.SanitizeBounded | lib/services/integrations/getcourse.ts:103-128 | after clipping, no string at any depth is longer than 501 characters, no array holds more than five items and no object more than twenty keys |
| GetCourse.SanitizeKeepsSmall | lib/services/integrations/getcourse.ts:103-128 | a payload already within the bounds is kept unchanged |
| GetCourse.SanitizeIdempotent | lib/services/integrations/getcourse.ts:103-128 | clipping a clipped payload changes nothing |
| GetCourse.UserSources | lib/services/integrations/getcourse.ts:134-138 | the five places a user list may sit, in the order they are tried |
| GetCourse.ExtractUsers | lib/services/integrations/getcourse.ts:131-141 | the users are the first of the five places that holds an array, and none when the payload is empty or none does |
| GetCourse.PageSources | lib/services/integrations/getcourse.ts:146-148 | the three places a pagination block may sit, in the order they are tried |
| GetCourse.ExtractPagination | lib/services/integrations/getcourse.ts:143-151 | the pagination block is the first of the three places that holds an object, and an empty object when there is none |
| GetCourse.NormalizeNumber | lib/services/integrations/getcourse.ts:182-191 | a number is kept, a string is read as a number or gives null, anything else gives null |
| GetCourse.NormalizeNumberString | lib/services/integrations/getcourse.ts:182-191 | the decimal text of an integer reads back as that integer |
| GetCourse.FirstDefined | lib/services/integrations/getcourse.ts:158-161 | the first of the alternative keys that is neither null nor undefined gives the value, and null when all are |
| GetCourse.EvaluatePagination | lib/services/integrations/getcourse.ts:153-180 | the total is reported as given; a positive page count decides by the page number, else a total with a positive page size decides whether the pages seen cover it, and with no information at all another page follows exactly when a non-empty multiple of 100 users arrived |
| GetCourse.HasMoreMonotone | lib/services/integrations/getcourse.ts:153-180 | if a later page still has more, so does every earlier one |
| GetCourse.LastPageEnds | lib/services/integrations/getcourse.ts:163-165 | with a page count, paging stops at the last page and not one page earlier |
| GetCourse.NormalizePhone | lib/services/integrations/getcourse.ts:193-216 | no phone exactly when the input is absent or has no digit |
| GetCourse.PhoneNormalisersAgree | lib/services/integrations/getcourse.ts:193-216 | the connector's phone normaliser gives the same result as the participant matcher's, although it tests the cases in another order |
| AnalyticsData.PickLatest | app/api/telegram/analytics/data/route.ts:7-23 | the result is absent, the current or the incoming timestamp; an empty current gives the incoming one, an empty incoming keeps the current one, and when both parse the later wins with ties going to the incoming one |
| AnalyticsData.PickLatestIsMax | app/api/telegram/analytics/data/route.ts:7-23 | when both timestamps parse, the kept one parses and is no earlier than either |
| AnalyticsData.PickLatestPrefersValid | app/api/telegram/analytics/data/route.ts:14-20 | when exactly one of the two parses, that one is kept |
| AnalyticsData.PickLatestThree | app/api/telegram/analytics/data/route.ts:7-23 | folding three parsable timestamps in either grouping reaches the same instant, so the order in which rows arrive does not change the last activity |
| AnalyticsData.RiskOfDays | app/api/telegram/analytics/data/route.ts:38-43 | the score is one of the six ladder values 5, 15, 35, 60, 80, 95 |
| AnalyticsData.RiskScore | app/api/telegram/analytics/data/route.ts:25-44 | a missing or unparsable last activity gives the numeric fallback or 90; otherwise the ladder value for the whole days elapsed, never negative |
| AnalyticsData.RiskOfDaysMonotone | app/api/telegram/analytics/data/route.ts:38-43 | more idle days never lower the risk |
| AnalyticsData.RiskMonotone | app/api/telegram/analytics/data/route.ts:34-43 | a later last activity never gives a higher risk at the same now |
| AnalyticsData.RecentActivityLowRisk | app/api/telegram/analytics/data/route.ts:34-38 | activity less than four days ago, or in the future, gives the lowest risk 5 |
| AnalyticsData.NormalizeUsername | app/api/telegram/analytics/data/route.ts:54-59 | the result is absent exactly when the username is missing or blank, and a present result has no upper-case letter |
| AnalyticsData.UsernameForms | app/api/telegram/analytics/data/route.ts:54-59 | a trimmed name with or without a leading @ normalises to the same lower-cased name |
| AnalyticsData.Merge | app/api/telegram/analytics/data/route.ts:145-166 | the id and counters are kept; a username or full name is filled only when the record has none; the last activity is the later of the two; given scores replace the old ones; the membership flag is only ever set |
| AnalyticsData.MergeIdempotent | app/api/telegram/analytics/data/route.ts:145-166 | applying the same options twice gives the same record as once, when the timestamps parse |
| AnalyticsData.Aggregator.constructor | app/api/telegram/analytics/data/route.ts:100-101 | both maps start empty and the aggregator invariant holds |
| AnalyticsData.Aggregator.AddOrUpdate | app/api/telegram/analytics/data/route.ts:109-172 | a missing id, a service account id or a bot username leaves both maps alone and gives null; otherwise the stored (or fresh) record is merged and stored under its id, a normalised username that is not blank maps to the id (a username of `@` alone is not recorded), and the invariant that no service account is stored and every recorded username is non-empty and points to a record is kept |
| AnalyticsData.Aggregator.ResolveUserId | app/api/telegram/analytics/data/route.ts:174-178 | a result is a stored participant that is not a service account, and a username that normalises to the empty string (such as `@`) resolves to nothing |
| AnalyticsData.AtSignAloneIsBlank | app/api/telegram/analytics/data/route.ts:54-59 | a username of `@` alone normalises to the empty string, which the aggregator treats as no username |
| MembersFilters.CategoryOf | components/members/members-filters-sidebar.tsx:58-91 | the category is never "all", and it is "silent" exactly when no activity for more than 30 days, or no activity date and a join more than 7 days ago |
| MembersFilters.CategoryLadder | components/members/members-filters-sidebar.tsx:74-90 | past the silence test, a join under 30 days ago gives "newcomer", then a score of at least 60 "core", at least 30 "experienced", else "other" |
| MembersFilters.NoDatesIsSilent | components/members/members-filters-sidebar.tsx:64-71 | a participant without any join or activity date counts 999 days and is silent |
| MembersFilters.RecentJoinerIsNewcomer | components/members/members-filters-sidebar.tsx:70-77 | one who joined and was active just now is a newcomer whatever the score |
| MembersFilters.CategoryCounts | components/members/members-filters-sidebar.tsx:94-115 | the loop's counts equal the per-category tally of the participants with "all" set to their number |
| MembersFilters.CountsPartition | components/members/members-filters-sidebar.tsx:94-115 | "all" is the number of participants and the five category counts add up to it |
| MembersFilters.RolesPartition | components/members/members-filters-sidebar.tsx:117-123 | owners, admins who are not owners and the rest add up to the number of participants |
| MembersFilters.Without | components/members/members-filters-sidebar.tsx:128 | the value no longer occurs, every other value keeps its membership, and a list without the value is unchanged |
| MembersFilters.WithoutOnce | components/members/members-filters-sidebar.tsx:128 | removing a present value from a list without repeats shortens it by one and keeps it without repeats |
| MembersFilters.ToggleFlips | components/members/members-filters-sidebar.tsx:125-135 | toggling flips whether the value is selected and leaves every other value, every other list and the period as they were |
| MembersFilters.ToggleTwiceUnselected | components/members/members-filters-sidebar.tsx:125-135 | toggling an unselected value twice restores the filters exactly |
| MembersFilters.ToggleTwiceSameSelection | components/members/members-filters-sidebar.tsx:125-135 | toggling any value twice restores which values are selected |
| MembersFilters.ToggleTwiceReorders | components/members/members-filters-sidebar.tsx:125-135 | toggling a selected value twice can move it: "a" in ["a", "b"] ends up after "b" |
| MembersFilters.CountZeroIffClear | components/members/members-filters-sidebar.tsx:137-152 | the cleared filters count zero, and the count is zero exactly when every list is empty and no period is set |
| MembersFilters.ToggleCount | components/members/members-filters-sidebar.tsx:125-152 | selecting a value adds one to the count and deselecting takes one off, on lists without repeats, which toggling keeps |
| WebhookRecovery.Within | lib/services/webhookRecoveryService.ts:38 | the kept attempts are exactly those of the list that are younger than the window, and there are no more of them than before |
| WebhookRecovery.WithinChronological | lib/services/webhookRecoveryService.ts:38 | pruning a chronological list leaves it chronological |
| WebhookRecovery.WithinLatest | lib/services/webhookRecoveryService.ts:38-49 | in a chronological list, an attempt inside the window keeps the pruned list non-empty and is no later than its last element, the one the cooldown test reads |
| WebhookRecovery.AllowedMeansQuiet | lib/services/webhookRecoveryService.ts:33-56 | on a chronological list, recovery is allowed exactly when fewer than three attempts lie in the last hour and none lies in the last twenty minutes |
| WebhookRecovery.RecoverKeepsChronological | lib/services/webhookRecoveryService.ts:61-70 | recording an attempt no earlier than the check, after an allowed check, keeps the pruned list chronological |
| WebhookRecovery.RecoveryService.constructor | lib/services/webhookRecoveryService.ts:17-21 | no bot has any attempts, and every list holds only its own bot's attempts |
| WebhookRecovery.RecoveryService.CanAttemptRecovery | lib/services/webhookRecoveryService.ts:33-56 | the bot's list is replaced by its last-hour part and the answer is the limit test on that part; other bots' lists are unchanged |
| WebhookRecovery.RecoveryService.RecordAttempt | lib/services/webhookRecoveryService.ts:61-70 | exactly one attempt, with the bot, time, success and error given, is appended to that bot's list |
| WebhookRecovery.RecoveryService.RecoverWebhook | lib/services/webhookRecoveryService.ts:75-139 | a blocked recovery only prunes the list and gives false; an allowed one also appends one attempt whose success is that of the webhook call, and the result is true exactly when allowed and successful |
| WebhookRecovery.RecoveryService.RecoveryStats | lib/services/webhookRecoveryService.ts:168-174 | the same bots, each with exactly its attempts of the last 24 hours |
| ErrorLogging.NullIfEmpty | lib/services/errorLoggingService.ts:122-127 | a falsy value (empty string, zero, false, null, undefined) is stored as null and any other value is stored as it is, whatever its type |
| ErrorLogging.ToInt32 | lib/services/errorLoggingService.ts:150-151 | the result is a 32-bit signed value congruent to the input modulo 2^32 |
| ErrorLogging.HashStepTimes31 | lib/services/errorLoggingService.ts:150-151 | on a 32-bit hash, shifting left by five, subtracting the hash and adding the character multiplies by 31 and adds, modulo 2^32 |
| ErrorLogging.HashIsPolynomial | lib/services/errorLoggingService.ts:144-154 | the loop's hash is the polynomial string hash with multiplier 31 wrapped to 32 bits, and stays a 32-bit value |
| ErrorLogging.GenerateFingerprint | lib/services/errorLoggingService.ts:144-154 | the loop computes the hexadecimal hash of "level:message:code", with the message and a truthy code of any type written as `String` writes them, and an empty code for a falsy one |
| ErrorLogging.FingerprintTracksHash | lib/services/errorLoggingService.ts:144-154 | two entries share a fingerprint exactly when their bases hash alike, and entries with the same level, the same message text and the same code text always share one |
| ErrorLogging.DedupCorrect | lib/services/errorLoggingService.ts:92-98 | the deduplicated batch has pairwise distinct fingerprints, covers every fingerprint of the batch, and holds only entries of the batch |
| ErrorLogging.DedupKeepsFirst | lib/services/errorLoggingService.ts:92-98 | the first entry with each fingerprint is the one kept |
| ErrorLogging.CutOrNull | lib/services/errorLoggingService.ts:124-128 | a present result comes from a non-empty value and is a prefix of it no longer than the limit |
| ErrorLogging.RowOf | lib/services/errorLoggingService.ts:119-131 | a row is built exactly when the message is a string and the user agent a string or absent (otherwise `substring` throws and the entry is skipped); the stored message is a prefix of at most 1000 characters, the stack trace at most 5000, the user agent at most 500; the code, organisation, user and request id are stored as they are when truthy and as null otherwise; the row carries the fingerprint and the insertion time |
| ErrorLogging.StoreCorrect | lib/services/errorLoggingService.ts:104-135 | storing only appends, at most one row per entry, and afterwards every fingerprint of an entry whose row builds has a row from the last hour |
| ErrorLogging.StoreDistinctBatch | lib/services/errorLoggingService.ts:104-135 | a batch of distinct fingerprints none of which was stored in the last hour, all of whose rows build, adds exactly one row per entry |
| ErrorLogging.StoreLeavesOthers | lib/services/errorLoggingService.ts:104-135 | a fingerprint absent from the batch and from the last hour's rows is still absent afterwards |
| ErrorLogging.ErrorLogService.constructor | lib/services/errorLoggingService.ts:22-23 | the queue starts empty with no flush scheduled, over the given table |
| ErrorLogging.ErrorLogService.EntryFingerprint | lib/services/errorLoggingService.ts:94 | an entry's own non-empty fingerprint is used, else the generated one |
| ErrorLogging.ErrorLogService.UniqueEntries | lib/services/errorLoggingService.ts:92-98 | the seen-set filter returns the deduplicated batch |
| ErrorLogging.ErrorLogService.InsertEntries | lib/services/errorLoggingService.ts:104-135 | the table becomes the result of storing the unique entries, and the queue and timer are unchanged |
| ErrorLogging.ErrorLogService.Flush | lib/services/errorLoggingService.ts:73-139 | the queue is emptied and the timer cleared; an empty queue or a missing client leaves the table, otherwise the deduplicated batch is stored |
| ErrorLogging.ErrorLogService.LogErrorToDb | lib/services/errorLoggingService.ts:50-68 | in a browser nothing changes; otherwise the entry is queued with a flush scheduled, or, when that makes fifty, the whole queue is flushed; the queue stays under fifty entries |
| ErrorLogging.ErrorLogService.LogFromPino | lib/services/errorLoggingService.ts:159-207 | info and below change nothing, and neither does a warn or error record in a browser; otherwise the entry built from the pino record is queued with a flush scheduled, or, when it is the fiftieth, the queue is emptied, the timer cleared and, with a database client, the deduplicated queue including the entry is stored |
| ErrorLogging.PinoLevel | lib/services/errorLoggingService.ts:164-172 | 50 and above is error, 40 to 49 warn, below 40 info |
| ErrorLogging.PinoMessage | lib/services/errorLoggingService.ts:177 | the message is truthy: the given non-empty one, else the record's `msg` of any type when truthy, else "Unknown error" |
| ErrorLogging.ContextOf | lib/services/errorLoggingService.ts:181-186 | the context holds exactly the record's pairs whose key is not one of msg, level, time, pid, hostname, error, stack |
| ErrorLogging.ExtractContext | lib/services/errorLoggingService.ts:181-186 | the loop builds that context |
| ErrorLogging.PinoEntry | lib/services/errorLoggingService.ts:159-207 | no entry below level 40; otherwise the level is error from 50 and warn below, the message is truthy, the code is `error_code` or else `code`, the organisation and user ids are the record's, the request id and user agent come from the camel-case key or else the snake-case one, all of any type; the stack trace is the record's only when a string; a present context is non-empty and holds exactly the kept pairs; no fingerprint is set |
| ErrorLogging.StackOf | lib/services/errorLoggingService.ts:188-193 | the stack trace is taken exactly when the record's `stack` is a string |
| ErrorLogging.NumericErrorCodeKept | lib/services/errorLoggingService.ts:143-154 | a numeric `error_code` is written into the fingerprint base in decimal and stored as the number itself |
| ReactionAnalyzer.Clean | lib/services/enrichment/reactionAnalyzer.ts:160 | the length is kept, every character the pattern keeps stays and every other becomes a space |
| ReactionAnalyzer.Words | lib/services/enrichment/reactionAnalyzer.ts:161 | the pieces are non-empty and made only of non-space characters of the text |
| ReactionAnalyzer.KeepWords | lib/services/enrichment/reactionAnalyzer.ts:162 | exactly the words longer than three characters that are not stop words are kept |
| ReactionAnalyzer.Distinct | lib/services/enrichment/reactionAnalyzer.ts:165 | the same words, each once |
| Text.Take | lib/services/enrichment/reactionAnalyzer.ts:74 | the first n elements, or all of them when there are fewer |
| ReactionAnalyzer.KeywordsCorrect | lib/services/enrichment/reactionAnalyzer.ts:148-166 | at most ten keywords, no repeats, each a lower-case run of kept characters longer than three that is not a stop word; with fewer than ten distinct such words every one of them is returned |
| ReactionAnalyzer.CleanedChars | lib/services/enrichment/reactionAnalyzer.ts:158-160 | after lower-casing and cleaning only kept, non-upper-case characters remain |
| ReactionAnalyzer.TalliesPartition | lib/services/enrichment/reactionAnalyzer.ts:77-86 | every reaction with an emoji is counted exactly once as positive, negative or neutral |
| ReactionAnalyzer.UniformSentiment | lib/services/enrichment/reactionAnalyzer.ts:88-90 | a non-empty list of only positive emojis is positive, and one of only negative emojis is negative |
| ReactionAnalyzer.UniformTallies | lib/services/enrichment/reactionAnalyzer.ts:77-86 | only positive emojis count all as positive, only negative ones all as negative |
| ReactionAnalyzer.NoEmojiBoth | lib/services/enrichment/reactionAnalyzer.ts:39-43 | no emoji is both positive and negative |
| ReactionAnalyzer.EarlyReturnAgrees | lib/services/enrichment/reactionAnalyzer.ts:52-61 | the early return for no reactions gives what the general computation gives on an empty list |
| ReactionAnalyzer.PatternsCorrect | lib/services/enrichment/reactionAnalyzer.ts:48-142 | the total is the number of reactions; the favourites are at most five distinct emojis, most used first, each with its true positive count, and no emoji left out was used more often than a favourite; at most ten topics and five authors are kept |
| ReactionAnalyzer.FavoritesCorrect | lib/services/enrichment/reactionAnalyzer.ts:71-74 | the favourites of any emoji list have the properties above |
| ReactionAnalyzer.EmojiStep | lib/services/enrichment/reactionAnalyzer.ts:65-69 | one more reaction bumps its emoji's count when it has one and changes nothing otherwise |
| ReactionAnalyzer.TopicStep | lib/services/enrichment/reactionAnalyzer.ts:94-102 | one more reaction adds the keywords of its message, in order |
| ReactionAnalyzer.UserStep | lib/services/enrichment/reactionAnalyzer.ts:111-118 | one more reaction bumps its author's count, keeping the name of the author's first reaction, when the author id is non-zero |
| ReactionAnalyzer.CountEmojis | lib/services/enrichment/reactionAnalyzer.ts:64-69 | the loop builds the emoji tally of the reactions |
| ReactionAnalyzer.CountSentiment | lib/services/enrichment/reactionAnalyzer.ts:77-86 | the loop builds the sentiment counters |
| ReactionAnalyzer.CountTopics | lib/services/enrichment/reactionAnalyzer.ts:93-102 | the loop builds the keyword tally |
| ReactionAnalyzer.CountKeywords | lib/services/enrichment/reactionAnalyzer.ts:98-100 | the inner loop adds one message's keywords to the tally |
| ReactionAnalyzer.CountUsers | lib/services/enrichment/reactionAnalyzer.ts:110-118 | the loop builds the author tally |
| ReactionAnalyzer.AnalyzeReactionPatterns | lib/services/enrichment/reactionAnalyzer.ts:48-142 | the result is the patterns of the reactions, as specified above |
| Tally.TallyCorrect | lib/services/enrichment/reactionAnalyzer.ts:64-69 | the slots hold each distinct key once, in order of first appearance, with its exact number of occurrences and the payload of its first one |
| Tally.TallyAppend | lib/services/enrichment/reactionAnalyzer.ts:67 | counting one more item bumps its slot or appends a new one |
| Tally.TopSlotsCorrect | lib/services/enrichment/reactionAnalyzer.ts:71-74 | the top n are min(n, size) slots of the tally, sorted by count descending, and no slot left out has a higher count than one kept |
| Tally.TopCounts | lib/services/enrichment/reactionAnalyzer.ts:71-74 | each kept slot has its key's true, positive count |
| Tally.TopKeysDistinct | lib/services/enrichment/reactionAnalyzer.ts:71-74 | the kept keys are distinct |
| Tally.TopLeftOut | lib/services/enrichment/reactionAnalyzer.ts:71-74 | a key that was not kept occurs no more often than any kept one |
| Sorting.SortDescCorrect | lib/services/enrichment/reactionAnalyzer.ts:73 | the sort returns a permutation of its input, sorted by key descending |
| Sorting.SortDescStable | lib/services/enrichment/reactionAnalyzer.ts:73 | the sort is stable: the elements of any one key come out in their input order |
| Qualification.QuestionIds | lib/qualification/config.ts:121-123 | one id per question, in question order |
| Qualification.QuestionIdsMembers | lib/qualification/config.ts:121-123 | an id is listed exactly when some question of the step has it |
| Qualification.AllQuestionIdsMembers | lib/qualification/config.ts:120-124 | an id is listed exactly when some question of some step has it |
| Qualification.MissingInMembers | lib/qualification/config.ts:134-141 | an id is missing in a step exactly when a required question of the step has it and its answer is falsy or an empty array |
| Qualification.MissingRequiredMembers | lib/qualification/config.ts:127-148 | an id is reported exactly when a required question has it and its answer is falsy or an empty array |
| Qualification.MissingInIgnores | lib/qualification/config.ts:134-141 | changing the answer to a key no required question of the step uses changes nothing in that step |
| Qualification.MissingRequiredIgnores | lib/qualification/config.ts:127-148 | changing the answer to a key no required question uses changes nothing in the report |
| Qualification.PainPointsOptional | lib/qualification/config.ts:84-88 | whatever is answered for the optional pain points, the report does not change |
| Qualification.QuestionnaireShape | lib/qualification/config.ts:28-100 | the questionnaire's ids are role, community type, team size and pain points, and with no answers the three required ones are reported |
| Qualification.ValidIffAllAnswered | lib/qualification/config.ts:127-148 | nothing is reported exactly when every required question has an answer |
| Qualification.ValidateResponses | lib/qualification/config.ts:127-148 | the loops report the missing required ids in order, and the result is valid exactly when the report is empty, that is when every required question is answered |
| QualificationForm.Selection | components/onboarding/qualification-form.tsx:45 | an array answer reads as its strings in order, anything falsy as no choice |
| QualificationForm.Choices | components/onboarding/qualification-form.tsx:48-55 | a list of strings stored as an answer reads back as the same list |
| QualificationForm.Remove | components/onboarding/qualification-form.tsx:48 | the value is gone, every other choice keeps its membership, and the list does not grow |
| QualificationForm.HandleSelect | components/onboarding/qualification-form.tsx:42-60 | only the clicked question's answer is set; a single-select answer becomes the clicked value and a multi-select answer stays a list of strings |
| QualificationForm.MultiSelectToggles | components/onboarding/qualification-form.tsx:46-55 | a click on a selected option deselects it and keeps the others; a click on another appends it last |
| QualificationForm.MultiSelectBounded | components/onboarding/qualification-form.tsx:51-53 | with a positive limit a selection within it stays within it, and at the limit the oldest choice makes room for the new one |
| QualificationForm.AnsweredIffNotMissing | components/onboarding/qualification-form.tsx:33-40 | the form's answered test is the exact negation of the validator's missing test |
| QualificationForm.StepCompleteIffNoneMissing | components/onboarding/qualification-form.tsx:33-40 | a step is complete exactly when the validator reports nothing missing in it |
| QualificationForm.SingleSelectAnswers | components/onboarding/qualification-form.tsx:57-58 | a single-select click with a non-empty value answers its question |

## Findings

| source | as written | input that shows it | evidently intended | confidence | as-written member | corrected member |
|---|---|---|---|---|---|---|
| lib/db/postgres-client.ts:346-365 | `buildQuery` for an update numbers the `SET` placeholders after the condition placeholders, which the filters already numbered, but pushes the `SET` values first | `update({name: 'x'}).eq('id', 5)` yields `SET "name" = $2 WHERE "id" = $1` with values `['x', 5]`, so the id is compared with `'x'` | the condition values come first, so every `$n` is bound to its own value | high, not executed | PostgresClient.UpdateAsWritten, PostgresClient.UpdateMisbinds | PostgresClient.UpdateQuery, PostgresClient.UpdateBinds |
| lib/services/notificationRulesService.ts:459-461 | `isWithinWorkHours` shifts the UTC hour by the zone offset but takes the weekday from `getUTCDay()`, so the day is the UTC one, not the local one | a Monday-only rule in Europe/Moscow at Sunday 21:30 UTC, which is Monday 00:30 local time, inside a window that holds 00:30 | the weekday, hour and minute all come from the local wall clock | high, not executed | NotificationRules.IsWithinWorkHoursAsWritten, NotificationRules.WeekdayFromUtc | NotificationRules.IsWithinWorkHours, NotificationRules.LocalCheckFollowsWallClock |

The corrected definitions are the ones the rest of the model uses: `BuildQuery` emits `UpdateQuery`, and the corrected work-hours check `IsWithinWorkHours` is the one `LocalCheckFollowsWallClock` and `SameDayAgrees` reason about. `processRule`, which calls the check, is not modelled (see "## Left out").

## Left out

General:
- `JSON.parse`, `new Date(...)` parsing and `toISOString`: these become parameters (`timeOf`, `dateOf`) or parsed values handed in.
- Floating point: numbers are integers; NaN is None where it matters; amounts are whole roubles; an invalid date is None.
- Strings are sequences of Unicode scalar values, not UTF-16 code units, so `length` and `slice` count code points.
- Case folding covers ASCII and Cyrillic only.
- Regular expressions are modelled as the fixed character classes and literal patterns the code uses, not as a general engine.
- Asynchronous code (`await`, `Promise.all`, `setTimeout`) runs as one sequential step per call.
- Timers are flags, such as the error queue's scheduled flush.
- Logging (pino, `console`) is left out.
- The module-level singletons are left out (`getInstance`, `createPostgresClient`, the `beforeExit` flush hook).
- Database, Telegram, e-mail and OpenAI calls are left out. Their results are parameters or fields.

Materials tree:
- The React components, `flattenTree` and the handlers for create, rename, delete and cancel are left out. They render or call the API.
- After a drop, the tree is saved with `fetch('/api/materials/move')` and restored when that fails. This is I/O and is left out. `DragEnd` returns the renumbered tree and the move that would be sent.

Telegram Markdown:
- `renderTelegramMarkdown` and `renderTelegramMarkdownText` turn nodes into React elements and are left out.

Postgres client:
- The connection pool, `query`, `transformError`, `rpc`, `raw` and `transaction` are I/O and are left out.
- An upsert issued after filters continues the counter the filters advanced. This is modelled as written, and placeholder numbering is proved only for an upsert built without filters.

Notification rules:
- `processRule`'s AI analysis is left out, together with its database reads and writes, its Telegram messages, cost accounting and `formatNotificationMessage`. Only the severity threshold and the interval skip are modelled.
- NotificationRules.TzOffset: only the zone names the code knows are modelled, which is Moscow at +3 and every other zone at 0.
- NotificationRules.ClockParses: the minute parts are read with `Number` on integer forms only. A fractional or exponent form such as "9.5:00" is None here.

Billing:
- Period arithmetic is in days of 24 hours (`setDate(d + n)` is `+ n` days), and one `now` stands for every clock read in a call.
- The plans cache, `ensureSubscription`, `getOrgParticipantCount` and the database write of `startProTrial` are I/O and are left out.
- The in-memory auto-trial updates the subscription object but not its `started_at`; this is modelled as written.
- Billing.DaysToAdd: the day count is computed in exact arithmetic. In floating point, 3075 / 1500 * 30 is 61.49999999999999 and rounds to 61, where the model gives 62.
- `calculatePaymentPeriod` uses `setMonth`, which is calendar-dependent, and is left out. `getOrgInvoices` is a query and is left out.
- `processExpiringSubscriptions` is modelled only as its choice of subscriptions, the days left, the notify rule and the deduplication key. The loop's messages and the e-mail template are left out.

Announcements:
- The 100 ms delay between groups is left out.
- A failing final database update, and the message-id fallback of the Telegram reply, are left out.
- `formatDateTime` is a parameter.
- The outcome of the reminder insert is not modelled; `createEventReminders` returns the rows it would insert.
- `deleteEventReminders` is a single delete query and is left out.

Rich editor:
- `telegramMarkdownToHtml` is not part of this model. `prepareContentForEditor` receives it as a parameter.
- RichEditor.TelegramTextTagFree: freedom from `<p>` tags is proved only for inputs whose angle brackets alternate. `StrayTagSurvives` shows that a nested `<<p>p>` keeps a tag.
- RichEditor.PlainParagraphRoundTrip: the round trip is proved for one plain paragraph only, not for every paragraph list.

Telegram export parser:
- An object or array used as an author key is identified by the position of its message. Two messages never share one parsed `from` object, so this is the identity the `Map` compares.
- `String` of a number is its decimal digits, since numbers are integers here.
- The chat `name` and `type` are passed through as JSON values; only `validate` checks that `name` is a string.

Participant matcher:
- The text of the database filters and name terms is left out. The rows the queries return are parameters.

WhatsApp import:
- Only `parseVCF`, the year expansion and the activity score are modelled. The rest of the route is line parsing with regular expressions plus database writes, and is left out.

AI constructor:
- AiConstructor.ThrowsIff: a `TypeError` from reading a property of a null or undefined collection entry is modelled as `Err("TypeError")`, without the engine's message text.

Members sidebar:
- MembersFilters.ToggleTwiceUnselected: toggling a value twice restores the filters only when the value was unselected. For a selected value, only the selection is restored (`ToggleTwiceSameSelection`), and its position moves to the end (`ToggleTwiceReorders`).

Analytics endpoint:
- `Number.isFinite` on the Telegram id is modelled by an absent id. Ids are integers.
- The endpoint's queries and the member, message and event passes that call `addOrUpdateParticipant` are left out.

Webhook recovery:
- `notifyRecovery` is left out. It sends a Telegram message and swallows its errors.
- The secrets, URLs and `setWebhookAdvanced` are left out. Their outcome is the parameter `failure`.

Reaction analyzer:
- `engagement_rate` is a floating-point ratio and is left out.
- `formatReactionPatternsForUI` only formats text and is left out.

Error logging:
- A stack trace from an `Error` instance (`obj.error.stack`) is left out. Only a string `stack` property is read.
- A database error on the insert of one row is not modelled. A row that cannot be built (a `substring` call on a value that is not a string) is skipped, as the catch block does.

GetCourse:
- GetCourse.NormalizeNumber: a numeric string is read with `Number` on integer forms only. Other numeric spellings give None.
- The HTTP client and the import job are I/O and are left out.

Qualification form:
- QualificationForm.HandleSelect: a multi-select answer must already be absent or a list of strings, as the code's `as string[]` cast assumes.
- The form's navigation, saving and rendering are left out.
