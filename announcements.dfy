/**
 * The announcement sender of `lib/services/announcementService.ts`: one pass
 * over the target groups counting deliveries and failures, the status the
 * announcement is left in (sent, rescheduled for a retry, or failed), and the
 * reminders created for an event. Telegram is a function from a request to
 * its reply, the database read of the groups is a parameter, and the writes
 * are returned as the list of updates made to the announcement row.
 */
module Announcements {
  import opened Wrappers
  import opened Text

  const MaxRetries := 3
  const HourMs := 3600000

  // ---------------------------------------------------------------- one group

  datatype Announcement = Announcement(id: string, orgId: string, title: string, content: string,
                                       targetGroups: seq<string>, status: string,
                                       imageUrl: Option<string>, retryCount: Option<int>)

  /** A row of `telegram_groups`; the chat id may be missing. */
  datatype Group = Group(chatId: Option<string>, title: Option<string>)

  /** What the bot is asked to send: a photo with a caption when there is an image, a message otherwise. */
  datatype Request = Request(chatId: string, photo: Option<string>, text: string, markdown: bool)

  /** A reply of the Bot API client: delivered, refused with `ok: false`, or thrown. */
  datatype Reply =
    | Delivered(messageId: Option<int>)
    | Refused(description: Option<string>)
    | Raised(message: Option<string>)

  /** The entry of `results` for one group. */
  datatype GroupResult = GroupResult(success: bool, messageId: Option<int>, error: Option<string>)

  predicate Truthy(s: Option<string>) {
    s.Some? && s.value != ""
  }

  /** The key of a group's entry: `String(tg_chat_id)`, so `"null"` for a missing id. */
  function KeyOf(g: Group): string {
    if g.chatId.Some? then g.chatId.value else "null"
  }

  /** A refusal because Telegram could not parse the Markdown. */
  predicate IsParseError(r: Reply) {
    r.Refused? && r.description.Some? && Contains(r.description.value, "can't parse entities")
  }

  function RequestFor(a: Announcement, chatId: string, markdown: bool): Request {
    Request(chatId, if Truthy(a.imageUrl) then a.imageUrl else None, a.content, markdown)
  }

  /** The result of a reply that is final. */
  function ResultOf(r: Reply): (g: GroupResult)
    ensures g.success <==> r.Delivered?
  {
    match r
    case Delivered(id) => GroupResult(true, id, None)
    case Refused(d) => GroupResult(false, None, Some(if Truthy(d) then d.value else "Unknown Telegram API error"))
    case Raised(m) => GroupResult(false, None, Some(if m.Some? then m.value else "Unknown error"))
  }

  /**
   * The reply that counts for a chat: the announcement is sent with Markdown
   * and, when Telegram cannot parse it, sent again as plain text.
   */
  function LastReply(a: Announcement, chatId: string, telegram: Request -> Reply): Reply {
    var first := telegram(RequestFor(a, chatId, true));
    if IsParseError(first) then telegram(RequestFor(a, chatId, false)) else first
  }

  /** One group: no chat id is a failure, otherwise the result of the reply that counts. */
  function GroupOutcome(a: Announcement, g: Group, telegram: Request -> Reply): GroupResult {
    if !Truthy(g.chatId) then GroupResult(false, None, Some("No chat_id"))
    else ResultOf(LastReply(a, g.chatId.value, telegram))
  }

  /**
   * A group counts as delivered exactly when it has a chat id and the reply
   * that counts delivered the message; a failure always carries an error; the
   * plain-text resend happens exactly after a Markdown parse error.
   */
  lemma GroupOutcomeIff(a: Announcement, g: Group, telegram: Request -> Reply)
    ensures GroupOutcome(a, g, telegram).success
            <==> Truthy(g.chatId) && LastReply(a, g.chatId.value, telegram).Delivered?
    ensures !GroupOutcome(a, g, telegram).success ==> GroupOutcome(a, g, telegram).error.Some?
    ensures Truthy(g.chatId) ==>
              var first := telegram(RequestFor(a, g.chatId.value, true));
              LastReply(a, g.chatId.value, telegram)
              == (if IsParseError(first) then telegram(RequestFor(a, g.chatId.value, false)) else first)
  {
  }

  // ---------------------------------------------------------------- the pass over the groups

  /** The number of groups that got the message. */
  function Successes(a: Announcement, groups: seq<Group>, telegram: Request -> Reply): (n: nat)
    ensures n <= |groups|
  {
    if groups == [] then 0
    else Successes(a, groups[..|groups| - 1], telegram)
         + (if GroupOutcome(a, groups[|groups| - 1], telegram).success then 1 else 0)
  }

  /** `results` after the pass: each group's entry under its key, a later group overwriting an earlier one. */
  function ResultsOf(a: Announcement, groups: seq<Group>, telegram: Request -> Reply): map<string, GroupResult> {
    if groups == [] then map[]
    else
      var g := groups[|groups| - 1];
      ResultsOf(a, groups[..|groups| - 1], telegram)[KeyOf(g) := GroupOutcome(a, g, telegram)]
  }

  /** The loop of `sendAnnouncementToGroups`: every group counts once, as a success or a failure. */
  method SendToGroups(a: Announcement, groups: seq<Group>, telegram: Request -> Reply)
    returns (successCount: nat, failCount: nat, results: map<string, GroupResult>)
    ensures successCount == Successes(a, groups, telegram)
    ensures successCount + failCount == |groups|
    ensures results == ResultsOf(a, groups, telegram)
  {
    successCount, failCount, results := 0, 0, map[];
    for i := 0 to |groups|
      invariant successCount == Successes(a, groups[..i], telegram)
      invariant successCount + failCount == i
      invariant results == ResultsOf(a, groups[..i], telegram)
    {
      var g := groups[i];
      assert groups[..i + 1][..i] == groups[..i];
      var outcome: GroupResult;
      if !Truthy(g.chatId) {
        outcome := GroupResult(false, None, Some("No chat_id"));
      } else {
        var chatId := g.chatId.value;
        var reply := telegram(RequestFor(a, chatId, true));
        if IsParseError(reply) {
          reply := telegram(RequestFor(a, chatId, false));
        }
        outcome := ResultOf(reply);
      }
      results := results[KeyOf(g) := outcome];
      if outcome.success {
        successCount := successCount + 1;
      } else {
        failCount := failCount + 1;
      }
    }
    assert groups[..|groups|] == groups;
  }

  /** Every group was reached exactly when all of them got the message. */
  lemma {:induction false} AllDeliveredIff(a: Announcement, groups: seq<Group>, telegram: Request -> Reply)
    ensures Successes(a, groups, telegram) == |groups|
            <==> forall i :: 0 <= i < |groups| ==> GroupOutcome(a, groups[i], telegram).success
    ensures Successes(a, groups, telegram) == 0
            <==> forall i :: 0 <= i < |groups| ==> !GroupOutcome(a, groups[i], telegram).success
  {
    if groups != [] {
      var init := groups[..|groups| - 1];
      AllDeliveredIff(a, init, telegram);
      assert forall i :: 0 <= i < |init| ==> init[i] == groups[i];
    }
  }

  /** The entries are keyed by the groups' keys, and by nothing else. */
  lemma {:induction false} ResultsKeys(a: Announcement, groups: seq<Group>, telegram: Request -> Reply)
    ensures ResultsOf(a, groups, telegram).Keys == set i | 0 <= i < |groups| :: KeyOf(groups[i])
  {
    if groups != [] {
      var init := groups[..|groups| - 1];
      ResultsKeys(a, init, telegram);
      var all := set i | 0 <= i < |groups| :: KeyOf(groups[i]);
      var before := set i | 0 <= i < |init| :: KeyOf(init[i]);
      forall k | k in all
        ensures k in before + {KeyOf(groups[|groups| - 1])}
      {
        var i :| 0 <= i < |groups| && KeyOf(groups[i]) == k;
        if i < |init| {
          assert KeyOf(init[i]) == k;
        }
      }
      forall k | k in before
        ensures k in all
      {
        var i :| 0 <= i < |init| && KeyOf(init[i]) == k;
        assert KeyOf(groups[i]) == k;
      }
      assert all == before + {KeyOf(groups[|groups| - 1])};
    }
  }

  /** A group's entry holds its outcome unless a later group has the same key. */
  lemma {:induction false} ResultsLast(a: Announcement, groups: seq<Group>, telegram: Request -> Reply, i: nat)
    requires i < |groups| && forall j :: i < j < |groups| ==> KeyOf(groups[j]) != KeyOf(groups[i])
    ensures KeyOf(groups[i]) in ResultsOf(a, groups, telegram)
    ensures ResultsOf(a, groups, telegram)[KeyOf(groups[i])] == GroupOutcome(a, groups[i], telegram)
  {
    var init := groups[..|groups| - 1];
    if i < |init| {
      assert init[i] == groups[i];
      forall j | i < j < |init|
        ensures KeyOf(init[j]) != KeyOf(init[i])
      {
        assert init[j] == groups[j];
      }
      ResultsLast(a, init, telegram, i);
    }
  }

  // ---------------------------------------------------------------- the status left behind

  /** What the results column holds: the per-group entries, or a single error. */
  datatype SendResults = PerGroup(entries: map<string, GroupResult>) | ErrorNote(error: string)

  /** A write to the announcement row; a field that is `None` is not written. */
  datatype AnnouncementUpdate = AnnouncementUpdate(status: string, retryCount: Option<int>,
                                                   sendResults: Option<SendResults>, sentAt: Option<int>)

  const Sending := AnnouncementUpdate("sending", None, None, None)

  /** `announcement.retry_count || 0`. */
  function RetryCountOf(a: Announcement): int {
    a.retryCount.GetOr(0)
  }

  /**
   * After the pass: all delivered is sent; nothing delivered with retries left
   * is scheduled again with one more retry; some delivered is sent; otherwise failed.
   */
  function FinalUpdate(successCount: nat, failCount: nat, retryCount: int, results: map<string, GroupResult>, now: int)
    : AnnouncementUpdate
  {
    if failCount == 0 then AnnouncementUpdate("sent", None, Some(PerGroup(results)), Some(now))
    else if successCount == 0 && retryCount < MaxRetries then
      AnnouncementUpdate("scheduled", Some(retryCount + 1), Some(PerGroup(results)), None)
    else if successCount > 0 then AnnouncementUpdate("sent", None, Some(PerGroup(results)), Some(now))
    else AnnouncementUpdate("failed", None, Some(PerGroup(results)), Some(now))
  }

  /**
   * The status decision: sent exactly when nothing failed or something got
   * through, scheduled exactly when nothing got through and fewer than three
   * retries were made, failed otherwise; the retry count grows only with a
   * rescheduling, and the send time is stamped exactly when the status is final.
   */
  lemma FinalStatusIff(successCount: nat, failCount: nat, retryCount: int, results: map<string, GroupResult>, now: int)
    ensures var u := FinalUpdate(successCount, failCount, retryCount, results, now);
            (u.status == "sent" <==> failCount == 0 || successCount > 0)
            && (u.status == "scheduled" <==> failCount > 0 && successCount == 0 && retryCount < MaxRetries)
            && (u.status == "failed" <==> failCount > 0 && successCount == 0 && retryCount >= MaxRetries)
            && (u.status == "sent" || u.status == "scheduled" || u.status == "failed")
            && (u.retryCount.Some? <==> u.status == "scheduled")
            && (u.retryCount.Some? ==> u.retryCount.value == retryCount + 1 <= MaxRetries)
            && (u.sentAt.Some? <==> u.status != "scheduled")
            && u.sendResults == Some(PerGroup(results))
  {
  }

  /** The outer `catch`: reschedule with one more retry while retries remain, otherwise fail. */
  function ExceptionUpdate(retryCount: int, errorMessage: string, now: int): AnnouncementUpdate {
    var canRetry := retryCount < MaxRetries;
    AnnouncementUpdate(if canRetry then "scheduled" else "failed",
                       Some(if canRetry then retryCount + 1 else retryCount),
                       Some(ErrorNote(errorMessage)), if canRetry then None else Some(now))
  }

  /** A thrown error is handled like a pass in which no group got the message. */
  lemma ExceptionLikeTotalFailure(retryCount: int, failCount: nat, results: map<string, GroupResult>,
                                  errorMessage: string, now: int)
    requires failCount > 0
    ensures var e := ExceptionUpdate(retryCount, errorMessage, now);
            var f := FinalUpdate(0, failCount, retryCount, results, now);
            e.status == f.status && e.sentAt == f.sentAt
            && (e.status == "scheduled" ==> e.retryCount == f.retryCount)
            && (e.status == "failed" ==> e.retryCount == Some(retryCount))
  {
  }

  /** Starting from at most three retries, neither path ever records more than three. */
  lemma RetriesBounded(successCount: nat, failCount: nat, retryCount: int, results: map<string, GroupResult>,
                       errorMessage: string, now: int)
    requires retryCount <= MaxRetries
    ensures var u := FinalUpdate(successCount, failCount, retryCount, results, now);
            u.retryCount.Some? ==> u.retryCount.value <= MaxRetries
    ensures ExceptionUpdate(retryCount, errorMessage, now).retryCount.value <= MaxRetries
  {
  }

  // ---------------------------------------------------------------- the whole send

  /** The read of the target groups: rows, a failed or empty read, or a thrown error. */
  datatype GroupsRead = Rows(groups: seq<Group>) | ReadFailed | ReadThrew(message: Option<string>)

  datatype SendResult = SendResult(successCount: nat, failCount: nat, results: map<string, GroupResult>)

  const NoValidGroups := "No valid target groups"

  /** `sendAnnouncementToGroups`: the counters it returns and the updates it writes, in order. */
  function SendOutcome(a: Announcement, read: GroupsRead, telegram: Request -> Reply, now: int)
    : (SendResult, seq<AnnouncementUpdate>)
  {
    match read
    case ReadThrew(m) =>
      (SendResult(0, 0, map[]),
       [Sending, ExceptionUpdate(RetryCountOf(a), if m.Some? then m.value else "Unknown error", now)])
    case ReadFailed =>
      (SendResult(0, |a.targetGroups|, map[]),
       [Sending, AnnouncementUpdate("failed", None, Some(ErrorNote(NoValidGroups)), Some(now))])
    case Rows(groups) =>
      if groups == [] then
        (SendResult(0, |a.targetGroups|, map[]),
         [Sending, AnnouncementUpdate("failed", None, Some(ErrorNote(NoValidGroups)), Some(now))])
      else
        var s := Successes(a, groups, telegram);
        var f := |groups| - s;
        var results := ResultsOf(a, groups, telegram);
        (SendResult(s, f, results), [Sending, FinalUpdate(s, f, RetryCountOf(a), results, now)])
  }

  /** `sendAnnouncementToGroups`. */
  method SendAnnouncementToGroups(a: Announcement, read: GroupsRead, telegram: Request -> Reply, now: int)
    returns (result: SendResult, updates: seq<AnnouncementUpdate>)
    ensures (result, updates) == SendOutcome(a, read, telegram, now)
  {
    updates := [Sending];
    if read.ReadThrew? {
      var message := if read.message.Some? then read.message.value else "Unknown error";
      updates := updates + [ExceptionUpdate(RetryCountOf(a), message, now)];
      assert updates == [Sending, ExceptionUpdate(RetryCountOf(a), message, now)];
      return SendResult(0, 0, map[]), updates;
    }
    if read.ReadFailed? || read.groups == [] {
      updates := updates + [AnnouncementUpdate("failed", None, Some(ErrorNote(NoValidGroups)), Some(now))];
      assert updates == [Sending, AnnouncementUpdate("failed", None, Some(ErrorNote(NoValidGroups)), Some(now))];
      return SendResult(0, |a.targetGroups|, map[]), updates;
    }
    var successCount, failCount, results := SendToGroups(a, read.groups, telegram);
    updates := updates + [FinalUpdate(successCount, failCount, RetryCountOf(a), results, now)];
    assert updates == [Sending, FinalUpdate(successCount, failCount, RetryCountOf(a), results, now)];
    result := SendResult(successCount, failCount, results);
  }

  /**
   * The announcement is marked sent only when at least one group got it, and
   * rescheduled only when there were groups and none got it; a read with no
   * groups fails at once, whatever the retry count.
   */
  lemma SentMeansDelivered(a: Announcement, read: GroupsRead, telegram: Request -> Reply, now: int)
    ensures var (r, u) := SendOutcome(a, read, telegram, now);
            |u| == 2 && u[0] == Sending
            && (u[1].status == "sent" ==> read.Rows? && r.successCount > 0 && r.successCount + r.failCount == |read.groups|)
            && (u[1].status == "scheduled" ==> r.successCount == 0 && RetryCountOf(a) < MaxRetries
                                               && u[1].retryCount == Some(RetryCountOf(a) + 1))
            && (read.ReadFailed? || read == Rows([]) ==> u[1].status == "failed" && r.successCount == 0)
  {
    if read.Rows? && read.groups != [] {
      var groups := read.groups;
      var s := Successes(a, groups, telegram);
      AllDeliveredIff(a, groups, telegram);
      FinalStatusIff(s, |groups| - s, RetryCountOf(a), ResultsOf(a, groups, telegram), now);
      if s == 0 {
        assert !GroupOutcome(a, groups[0], telegram).success;
      }
    }
  }

  // ---------------------------------------------------------------- event reminders

  /** An announcement row created as a reminder. */
  datatype Reminder = Reminder(orgId: string, title: string, content: string, eventId: string, reminderType: string,
                               targetGroups: seq<string>, scheduledAt: int, createdByName: string)

  /** The link in a reminder: the Mini App, or the web page under the configured base address. */
  function EventUrl(eventId: string, useMiniAppLink: bool, appUrl: Option<string>): string {
    if useMiniAppLink then "https://t.me/orbo_event_bot/events?startapp=e-" + eventId
    else (if Truthy(appUrl) then appUrl.value else "https://my.orbo.ru") + "/e/" + eventId
  }

  /** A description over 200 characters is cut to 200 and marked with an ellipsis. */
  function ShortDescription(d: string): (r: string)
    ensures |r| <= 203
    ensures |d| <= 200 ==> r == d
    ensures |d| > 200 ==> r == d[..200] + "..."
  {
    if |d| > 200 then d[..200] + "..." else d
  }

  function LocationLine(location: Option<string>): string {
    if Truthy(location) then "📍 " + location.value + "\n" else ""
  }

  /** The day-before text; `formatted` is the start time as Moscow-local `dd.mm.yyyy, hh:mm`. */
  function Content24h(title: string, formatted: string, location: Option<string>, description: Option<string>,
                      url: string): string {
    "🗓 *Напоминание: " + title + "*\n\n" + "📅 Завтра, " + formatted + "\n" + LocationLine(location)
    + (if Truthy(description) then "\n" + ShortDescription(description.value) + "\n" else "")
    + "\n🔗 [Подробнее и регистрация](" + url + ")"
  }

  /** The hour-before text, giving only the part of `formatted` after its last `", "`. */
  function Content1h(title: string, formatted: string, location: Option<string>, url: string): string {
    var parts := Split(formatted, ", ");
    "⏰ *Через час начинается: " + title + "*\n\n" + "🕐 Начало в " + parts[|parts| - 1] + "\n"
    + LocationLine(location) + "\n🔗 [Подробнее](" + url + ")"
  }

  /** The reminder of one kind, `ahead` milliseconds before the start. */
  function ReminderOf(orgId: string, eventId: string, eventTitle: string, kind: string, content: string,
                      targetGroups: seq<string>, at: int): Reminder {
    Reminder(orgId, "Напоминание за " + (if kind == "24h" then "24ч" else "1ч") + ": " + eventTitle, content, eventId,
             kind, targetGroups, at, "автоматически")
  }

  /** The reminders `createEventReminders` inserts: a day before and an hour before, those still ahead. */
  function DueReminders(eventId: string, orgId: string, eventTitle: string, eventDescription: Option<string>,
                        eventStart: int, eventLocation: Option<string>, targetGroups: seq<string>,
                        useMiniAppLink: bool, appUrl: Option<string>, formatted: string, now: int): seq<Reminder> {
    var url := EventUrl(eventId, useMiniAppLink, appUrl);
    var dayBefore := eventStart - 24 * HourMs;
    var hourBefore := eventStart - HourMs;
    (if dayBefore > now then
       [ReminderOf(orgId, eventId, eventTitle, "24h", Content24h(eventTitle, formatted, eventLocation, eventDescription, url),
                   targetGroups, dayBefore)]
     else [])
    + (if hourBefore > now then
         [ReminderOf(orgId, eventId, eventTitle, "1h", Content1h(eventTitle, formatted, eventLocation, url),
                     targetGroups, hourBefore)]
       else [])
  }

  /** `createEventReminders` up to the insert, whose outcome is only logged. */
  method CreateEventReminders(eventId: string, orgId: string, eventTitle: string, eventDescription: Option<string>,
                              eventStart: int, eventLocation: Option<string>, targetGroups: seq<string>,
                              useMiniAppLink: bool, appUrl: Option<string>, formatted: string, now: int)
    returns (reminders: seq<Reminder>)
    ensures reminders == DueReminders(eventId, orgId, eventTitle, eventDescription, eventStart, eventLocation,
                                      targetGroups, useMiniAppLink, appUrl, formatted, now)
  {
    var url := EventUrl(eventId, useMiniAppLink, appUrl);
    var content24h := Content24h(eventTitle, formatted, eventLocation, eventDescription, url);
    var content1h := Content1h(eventTitle, formatted, eventLocation, url);
    reminders := [];
    var reminder24h := eventStart - 24 * HourMs;
    if reminder24h > now {
      reminders := reminders + [ReminderOf(orgId, eventId, eventTitle, "24h", content24h, targetGroups, reminder24h)];
    }
    var reminder1h := eventStart - HourMs;
    if reminder1h > now {
      reminders := reminders + [ReminderOf(orgId, eventId, eventTitle, "1h", content1h, targetGroups, reminder1h)];
    }
  }

  /**
   * Reminders lie in the future: both when the event is more than a day
   * away, only the hour-before one when it is between an hour and a day away,
   * none when it is less than an hour away; the day-before one comes first.
   */
  lemma RemindersAhead(eventId: string, orgId: string, eventTitle: string, eventDescription: Option<string>,
                       eventStart: int, eventLocation: Option<string>, targetGroups: seq<string>,
                       useMiniAppLink: bool, appUrl: Option<string>, formatted: string, now: int)
    ensures var rs := DueReminders(eventId, orgId, eventTitle, eventDescription, eventStart, eventLocation,
                                   targetGroups, useMiniAppLink, appUrl, formatted, now);
            |rs| <= 2
            && (forall i :: 0 <= i < |rs| ==> rs[i].scheduledAt > now && rs[i].scheduledAt < eventStart
                                              && rs[i].eventId == eventId && rs[i].targetGroups == targetGroups)
            && (forall i :: 0 <= i < |rs| ==> (rs[i].reminderType == "24h" && rs[i].scheduledAt == eventStart - 24 * HourMs)
                                              || (rs[i].reminderType == "1h" && rs[i].scheduledAt == eventStart - HourMs))
            && (|rs| == 2 <==> eventStart > now + 24 * HourMs)
            && (|rs| == 2 ==> rs[0].reminderType == "24h" && rs[1].reminderType == "1h")
            && (|rs| == 1 <==> now + HourMs < eventStart <= now + 24 * HourMs)
            && (|rs| == 1 ==> rs[0].reminderType == "1h")
            && (rs == [] <==> eventStart <= now + HourMs)
  {
  }
}
