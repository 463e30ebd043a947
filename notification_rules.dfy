/**
 * The pure decisions of the notification rules service
 * (`lib/services/notificationRulesService.ts`): the work-hours window, the
 * Telegram link to a message, the severity threshold of a negative-discussion
 * rule and the check-interval skip of `processRule`. The clock is the
 * parameter `nowMs` (milliseconds since the epoch); the database, the
 * Telegram and AI calls of `processRule` are not modelled.
 */
module NotificationRules {
  import opened Wrappers
  import opened Text
  import opened Arithmetic

  const MinuteMs := 60000
  const HourMs := 3600000
  const DayMs := 86400000

  // ---------------------------------------------------------------- the clock

  /** `getUTCHours()`. */
  function UtcHours(ms: int): (h: int)
    ensures 0 <= h < 24
  {
    (ms % 86400000) / 3600000
  }

  /** `getUTCMinutes()`. */
  function UtcMinutes(ms: int): (m: int)
    ensures 0 <= m < 60
  {
    (ms % 3600000) / 60000
  }

  /** `getUTCDay()`: 0 is Sunday; 1 January 1970 was a Thursday. */
  function UtcDay(ms: int): (d: int)
    ensures 0 <= d < 7
  {
    (ms / 86400000 + 4) % 7
  }

  /** The fixed offset of the time zone, in hours: three for Moscow, none for any other zone. */
  function TzOffset(timezone: string): (h: int)
    ensures h == 0 || h == 3
    ensures h == 3 <==> timezone == "Europe/Moscow"
  {
    if timezone == "Europe/Moscow" then 3 else 0
  }

  /** The instant whose UTC wall clock reads the local time of the zone. */
  function LocalMs(ms: int, timezone: string): int {
    if TzOffset(timezone) == 3 then ms + 10800000 else ms
  }

  // ---------------------------------------------------------------- work hours

  /**
   * `const [h, m] = s.split(':').map(Number)` and `h * 60 + m`: None stands for
   * NaN (a part that is not a number, or no minutes part).
   */
  function ClockMinutes(s: string): Option<int> {
    PartsMinutes(Split(s, ":"))
  }

  /** `h * 60 + m` over the first two pieces. */
  function PartsMinutes(parts: seq<string>): Option<int> {
    if |parts| < 2 then None
    else
      var h := StringToNumber(parts[0]);
      var m := StringToNumber(parts[1]);
      if h.Some? && m.Some? then Some(h.value * 60 + m.value) else None
  }

  /**
   * The test after the day check: the current minute lies in the inclusive
   * window; a window that does not parse compares false.
   */
  predicate InWindow(workStart: string, workEnd: string, currentMinutes: int) {
    var start := ClockMinutes(workStart);
    var end := ClockMinutes(workEnd);
    start.Some? && end.Some? && start.value <= currentMinutes <= end.value
  }

  /** A wall-clock reading: weekday (0 is Sunday), hour and minute. */
  datatype Clock = Clock(day: int, hour: int, minute: int)

  /** The UTC wall clock at `ms`. */
  function UtcClock(ms: int): (c: Clock)
    ensures 0 <= c.day < 7 && 0 <= c.hour < 24 && 0 <= c.minute < 60
  {
    Clock(UtcDay(ms), UtcHours(ms), UtcMinutes(ms))
  }

  /** The reading of the code as written: the hour shifted by the zone offset, the weekday and minute of UTC. */
  function WrittenClock(nowMs: int, timezone: string): (c: Clock)
    ensures 0 <= c.day < 7 && 0 <= c.hour < 24 && 0 <= c.minute < 60
  {
    Clock(UtcDay(nowMs), (UtcHours(nowMs) + TzOffset(timezone)) % 24, UtcMinutes(nowMs))
  }

  /** The common part of the check once the day, hour and minute are known. */
  predicate WorkHoursAt(workStart: Option<string>, workEnd: Option<string>, workDays: Option<seq<int>>, c: Clock) {
    if workStart.None? || workStart.value == [] || workEnd.None? || workEnd.value == [] then true
    else if workDays.Some? && |workDays.value| > 0 && c.day !in workDays.value then false
    else InWindow(workStart.value, workEnd.value, c.hour * 60 + c.minute)
  }

  /**
   * `isWithinWorkHours` as written: the hour is shifted by the zone offset,
   * but the weekday is the UTC one.
   */
  predicate IsWithinWorkHoursAsWritten(workStart: Option<string>, workEnd: Option<string>, workDays: Option<seq<int>>,
                                       timezone: string, nowMs: int) {
    WorkHoursAt(workStart, workEnd, workDays, WrittenClock(nowMs, timezone))
  }

  /** `isWithinWorkHours` reading the weekday, hour and minute all from the local time. */
  predicate IsWithinWorkHours(workStart: Option<string>, workEnd: Option<string>, workDays: Option<seq<int>>,
                              timezone: string, nowMs: int) {
    WorkHoursAt(workStart, workEnd, workDays, UtcClock(LocalMs(nowMs, timezone)))
  }

  /** Without both ends of the window, there is no restriction. */
  lemma NoWindowNoRestriction(workStart: Option<string>, workEnd: Option<string>, workDays: Option<seq<int>>,
                              timezone: string, nowMs: int)
    requires workStart.None? || workStart.value == [] || workEnd.None? || workEnd.value == []
    ensures IsWithinWorkHours(workStart, workEnd, workDays, timezone, nowMs)
    ensures IsWithinWorkHoursAsWritten(workStart, workEnd, workDays, timezone, nowMs)
  {
  }

  /**
   * With a window set: outside a non-empty list of work days the answer is
   * no; otherwise it is whether the current local minute is inside the window,
   * both ends included.
   */
  lemma WorkHoursCases(start: string, end: string, workDays: Option<seq<int>>, timezone: string, nowMs: int)
    requires start != [] && end != []
    ensures var local := UtcClock(LocalMs(nowMs, timezone));
            IsWithinWorkHours(Some(start), Some(end), workDays, timezone, nowMs)
            <==> (workDays.None? || |workDays.value| == 0 || local.day in workDays.value)
                 && ClockMinutes(start).Some? && ClockMinutes(end).Some?
                 && ClockMinutes(start).value <= local.hour * 60 + local.minute <= ClockMinutes(end).value
  {
  }

  /** The index of the first colon, when every character before it is not one. */
  lemma {:induction false} ColonAt(s: string, from: nat, k: nat)
    requires from <= k < |s| && s[k] == ':'
    requires forall i :: from <= i < k ==> s[i] != ':'
    ensures IndexOf(s, ":", from) == k
    decreases k - from
  {
    assert s[from..from + 1] == [s[from]];
    if from < k {
      ColonAt(s, from + 1, k);
    }
  }

  /** A string without a colon has none to find. */
  lemma {:induction false} NoColon(s: string, from: nat)
    requires forall i :: from <= i < |s| ==> s[i] != ':'
    ensures IndexOf(s, ":", from) == -1
    decreases |s| - from
  {
    if from + 1 <= |s| {
      assert s[from..from + 1] == [s[from]];
      NoColon(s, from + 1);
    }
  }

  /** The first colon splits `H:M` into its two pieces. */
  lemma SplitAtColon(h: string, m: string)
    requires forall k :: 0 <= k < |h| ==> h[k] != ':'
    requires forall k :: 0 <= k < |m| ==> m[k] != ':'
    ensures Split(h + ":" + m, ":") == [h, m]
  {
    var s := h + ":" + m;
    forall i | 0 <= i < |h|
      ensures s[i] != ':'
    {
      assert s[i] == h[i];
    }
    ColonAt(s, 0, |h|);
    assert s[..|h|] == h;
    assert s[|h| + 1..] == m;
    NoColon(m, 0);
    assert Split(m, ":") == [m];
  }

  lemma PartsRead(parts: seq<string>, a: int, b: int)
    requires |parts| >= 2 && StringToNumber(parts[0]) == Some(a) && StringToNumber(parts[1]) == Some(b)
    ensures PartsMinutes(parts) == Some(a * 60 + b)
  {
  }

  /** A window end `H:M` whose pieces are numbers is read as `H * 60 + M` minutes. */
  lemma ClockParses(h: string, m: string, a: int, b: int)
    requires forall k :: 0 <= k < |h| ==> h[k] != ':'
    requires forall k :: 0 <= k < |m| ==> m[k] != ':'
    requires StringToNumber(h) == Some(a) && StringToNumber(m) == Some(b)
    ensures ClockMinutes(h + ":" + m) == Some(a * 60 + b)
  {
    SplitAtColon(h, m);
    PartsRead([h, m], a, b);
  }

  /** In particular, a window end written in decimal as `H:M` is `H * 60 + M` minutes. */
  lemma DecimalClockParses(h: nat, m: nat)
    ensures ClockMinutes(NatToString(h) + ":" + NatToString(m)) == Some(h * 60 + m)
  {
    DecimalReads(h);
    DecimalReads(m);
    ClockParses(NatToString(h), NatToString(m), h, m);
  }

  /** The decimal digits of `n` hold no colon and read back as `n`. */
  lemma DecimalReads(n: nat)
    ensures forall k :: 0 <= k < |NatToString(n)| ==> NatToString(n)[k] != ':'
    ensures StringToNumber(NatToString(n)) == Some(n)
  {
    NatToStringDigits(n);
    NatToStringValue(n);
    DigitsParse(NatToString(n));
  }

  /** A window without a minutes part compares false. */
  lemma HourOnlyFails(h: string)
    requires forall k :: 0 <= k < |h| ==> h[k] != ':'
    ensures ClockMinutes(h) == None
  {
    NoColon(h, 0);
  }

  /** The code as written reads the local hour and minute; only its weekday may differ from the local one. */
  lemma ShiftedHourIsLocal(nowMs: int, timezone: string)
    ensures WrittenClock(nowMs, timezone) == UtcClock(LocalMs(nowMs, timezone)).(day := UtcDay(nowMs))
  {
    if TzOffset(timezone) == 3 {
      var s := nowMs + 10800000;
      var q := nowMs / 86400000;
      var r := nowMs % 86400000;
      var h := r / 3600000;
      var rest := r % 3600000;
      if r < 75600000 {
        DivModUnique(s, 86400000, q, r + 10800000);
        DivModUnique(r + 10800000, 3600000, h + 3, rest);
      } else {
        DivModUnique(s, 86400000, q + 1, r - 75600000);
        DivModUnique(r - 75600000, 3600000, h - 21, rest);
      }
      DivModUnique(s, 3600000, nowMs / 3600000 + 3, nowMs % 3600000);
    }
  }

  /** When the shift does not cross midnight UTC, both readings are the same clock. */
  lemma ClocksAgree(nowMs: int, timezone: string)
    requires UtcHours(nowMs) + TzOffset(timezone) < 24
    ensures WrittenClock(nowMs, timezone) == UtcClock(LocalMs(nowMs, timezone))
  {
    ShiftedHourIsLocal(nowMs, timezone);
    if TzOffset(timezone) == 3 {
      var q := nowMs / 86400000;
      var r := nowMs % 86400000;
      DivModUnique(nowMs + 10800000, 86400000, q, r + 10800000);
    }
  }

  /** So both checks agree whenever the shift does not cross midnight UTC. */
  lemma SameDayAgrees(workStart: Option<string>, workEnd: Option<string>, workDays: Option<seq<int>>,
                      timezone: string, nowMs: int)
    requires UtcHours(nowMs) + TzOffset(timezone) < 24
    ensures IsWithinWorkHoursAsWritten(workStart, workEnd, workDays, timezone, nowMs)
            == IsWithinWorkHours(workStart, workEnd, workDays, timezone, nowMs)
  {
    ClocksAgree(nowMs, timezone);
  }

  /** Sunday 21:30 UTC, which is Monday 00:30 in Moscow. */
  const SundayEveningUtc := 336600000

  /** The two readings of Sunday 21:30 UTC in Moscow. */
  lemma SundayEveningClocks()
    ensures WrittenClock(SundayEveningUtc, "Europe/Moscow") == Clock(0, 0, 30)
    ensures UtcClock(LocalMs(SundayEveningUtc, "Europe/Moscow")) == Clock(1, 0, 30)
  {
    assert LocalMs(SundayEveningUtc, "Europe/Moscow") == 347400000;
  }

  /**
   * In Moscow, with Monday a work day and Sunday not, and a window that
   * takes in 00:30: at 00:30 on Monday local time the code as written sees
   * the UTC day, Sunday, and says no; read locally, the rule is within
   * work hours. `0:0`-`23:59` is such a window (`DecimalClockParses`).
   */
  lemma WeekdayFromUtc(start: string, end: string, workDays: seq<int>)
    requires 1 in workDays && 0 !in workDays
    requires ClockMinutes(start).Some? && ClockMinutes(end).Some?
    requires ClockMinutes(start).value <= 30 <= ClockMinutes(end).value
    ensures !IsWithinWorkHoursAsWritten(Some(start), Some(end), Some(workDays), "Europe/Moscow", SundayEveningUtc)
    ensures IsWithinWorkHours(Some(start), Some(end), Some(workDays), "Europe/Moscow", SundayEveningUtc)
  {
    WindowNotEmpty(start);
    WindowNotEmpty(end);
    SundayEveningClocks();
    MondayInWindow(start, end, workDays, Clock(1, 0, 30));
  }

  /** A window end that parses is not empty. */
  lemma WindowNotEmpty(s: string)
    requires ClockMinutes(s).Some?
    ensures s != []
  {
  }

  /** On a work day, a clock inside the window is within work hours. */
  lemma MondayInWindow(start: string, end: string, workDays: seq<int>, c: Clock)
    requires start != [] && end != [] && c.day in workDays
    requires ClockMinutes(start).Some? && ClockMinutes(end).Some?
    requires ClockMinutes(start).value <= c.hour * 60 + c.minute <= ClockMinutes(end).value
    ensures WorkHoursAt(Some(start), Some(end), Some(workDays), c)
  {
  }

  /** The local-time check depends on the wall clock of the zone only. */
  lemma LocalCheckFollowsWallClock(workStart: Option<string>, workEnd: Option<string>, workDays: Option<seq<int>>,
                                   timezone: string, nowMs: int)
    ensures IsWithinWorkHours(workStart, workEnd, workDays, timezone, nowMs)
            == IsWithinWorkHours(workStart, workEnd, workDays, "UTC", LocalMs(nowMs, timezone))
  {
    assert "UTC" != "Europe/Moscow" by { assert "UTC"[0] != "Europe/Moscow"[0]; }
  }

  // ---------------------------------------------------------------- message links

  /** The chat id of the private link: without a leading `-100`, else without a leading `-`. */
  function LinkChatId(chatId: string): (r: string)
    ensures StartsWith(chatId, "-100") ==> r == chatId[4..]
    ensures !StartsWith(chatId, "-100") && StartsWith(chatId, "-") ==> r == chatId[1..]
    ensures !StartsWith(chatId, "-") ==> r == chatId
  {
    if StartsWith(chatId, "-100") then chatId[4..]
    else if StartsWith(chatId, "-") then chatId[1..]
    else chatId
  }

  /** `getTelegramMessageLink`: none without a (truthy) message id. */
  function TelegramMessageLink(chatId: string, messageId: Option<int>): (link: Option<string>)
    ensures link.None? <==> messageId.None? || messageId.value == 0
    ensures link.Some? ==> link.value == "https://t.me/c/" + LinkChatId(chatId) + "/" + IntToString(messageId.value)
  {
    if messageId.None? || messageId.value == 0 then None
    else Some("https://t.me/c/" + LinkChatId(chatId) + "/" + IntToString(messageId.value))
  }

  /** A supergroup id `-100N` links as `t.me/c/N/…`; a group id `-N` (not starting `100`) as `t.me/c/N/…`. */
  lemma SupergroupLink(n: nat, messageId: int)
    requires messageId != 0
    ensures TelegramMessageLink("-100" + NatToString(n), Some(messageId))
            == Some("https://t.me/c/" + NatToString(n) + "/" + IntToString(messageId))
    ensures !StartsWith(NatToString(n), "100") ==>
              TelegramMessageLink("-" + NatToString(n), Some(messageId))
              == Some("https://t.me/c/" + NatToString(n) + "/" + IntToString(messageId))
  {
    var d := NatToString(n);
    assert ("-100" + d)[..4] == "-100";
    assert ("-100" + d)[4..] == d;
    var g := "-" + d;
    assert g[..1] == "-";
    assert g[1..] == d;
    if !StartsWith(d, "100") && |g| >= 4 {
      assert g[..4][1..] == d[..3];
      assert "-100"[1..] == "100";
    }
  }

  // ---------------------------------------------------------------- negative-discussion threshold

  /** `severityOrder[s]`: low 1, medium 2, high 3; any other string has no rank (`undefined`). */
  function SeverityRank(s: string): Option<int> {
    if s == "low" then Some(1) else if s == "medium" then Some(2) else if s == "high" then Some(3) else None
  }

  /** `rule.config.severity_threshold || 'medium'`. */
  function ThresholdOf(configured: Option<string>): string {
    if configured.Some? && configured.value != "" then configured.value else "medium"
  }

  /** `analysis.has_negative && detected >= threshold`; a comparison with `undefined` is false. */
  predicate SeverityTriggers(hasNegative: bool, detected: string, configured: Option<string>) {
    var threshold := SeverityRank(ThresholdOf(configured));
    var rank := SeverityRank(detected);
    hasNegative && threshold.Some? && rank.Some? && rank.value >= threshold.value
  }

  /**
   * A negative analysis triggers exactly when both severities are known and
   * the detected one is at least the threshold; the default threshold is medium.
   */
  lemma ThresholdLadder(hasNegative: bool, detected: string, configured: Option<string>)
    ensures SeverityTriggers(hasNegative, detected, None) <==> hasNegative && (detected == "medium" || detected == "high")
    ensures SeverityTriggers(hasNegative, detected, Some("low")) <==> hasNegative && SeverityRank(detected).Some?
    ensures SeverityTriggers(hasNegative, detected, Some("high")) <==> hasNegative && detected == "high"
    ensures !hasNegative ==> !SeverityTriggers(hasNegative, detected, configured)
  {
  }

  /** Lowering the threshold never silences a rule that fired. */
  lemma ThresholdMonotone(detected: string, stricter: string, looser: string)
    requires SeverityRank(stricter).Some? && SeverityRank(looser).Some?
    requires SeverityRank(looser).value <= SeverityRank(stricter).value
    requires SeverityTriggers(true, detected, Some(stricter))
    ensures SeverityTriggers(true, detected, Some(looser))
  {
  }

  // ---------------------------------------------------------------- check interval

  /** `(rule.config.check_interval_minutes as number) || 60`. */
  function IntervalOf(configured: Option<int>): (m: int)
    ensures m != 0
    ensures configured.None? || configured.value == 0 ==> m == 60
    ensures configured.Some? && configured.value != 0 ==> m == configured.value
  {
    if configured.Some? && configured.value != 0 then configured.value else 60
  }

  /** `Math.floor((Date.now() - lastCheck) / 60000)`. */
  function MinutesSince(nowMs: int, lastCheckMs: int): int {
    (nowMs - lastCheckMs) / MinuteMs
  }

  /**
   * The early return of `processRule`: a rule checked before (at a valid
   * time) is skipped while fewer whole minutes than the interval have passed.
   */
  predicate SkipRule(lastCheckMs: Option<int>, configured: Option<int>, nowMs: int) {
    lastCheckMs.Some? && MinutesSince(nowMs, lastCheckMs.value) < IntervalOf(configured)
  }

  /** A rule is skipped exactly while less than the interval, in milliseconds, has passed. */
  lemma SkipIffWithinInterval(lastCheckMs: int, configured: Option<int>, nowMs: int)
    ensures SkipRule(Some(lastCheckMs), configured, nowMs) <==> nowMs - lastCheckMs < IntervalOf(configured) * MinuteMs
  {
    var d := nowMs - lastCheckMs;
    var q := d / MinuteMs;
    assert d == q * MinuteMs + d % MinuteMs;
    var i := IntervalOf(configured);
    if q < i {
      assert q * MinuteMs <= (i - 1) * MinuteMs;
    } else {
      assert q * MinuteMs >= i * MinuteMs;
    }
  }

  /** Once a rule is due, it stays due as time goes on, and a never-checked rule is never skipped. */
  lemma SkipMonotone(lastCheckMs: Option<int>, configured: Option<int>, nowMs: int, laterMs: int)
    requires nowMs <= laterMs && !SkipRule(lastCheckMs, configured, nowMs)
    ensures !SkipRule(lastCheckMs, configured, laterMs)
    ensures lastCheckMs.None? ==> !SkipRule(lastCheckMs, configured, nowMs)
  {
    if lastCheckMs.Some? {
      SkipIffWithinInterval(lastCheckMs.value, configured, nowMs);
      SkipIffWithinInterval(lastCheckMs.value, configured, laterMs);
    }
  }

  /** The window a negative-discussion check reads: the interval, cut to the time since the last check plus five minutes. */
  function EffectiveInterval(lastCheckMs: Option<int>, configured: Option<int>, nowMs: int): (m: int)
    ensures m <= IntervalOf(configured)
    ensures lastCheckMs.None? ==> m == IntervalOf(configured)
    ensures lastCheckMs.Some? ==> m <= MinutesSince(nowMs, lastCheckMs.value) + 5
  {
    var interval := IntervalOf(configured);
    if lastCheckMs.Some? then
      var since := MinutesSince(nowMs, lastCheckMs.value) + 5;
      if interval <= since then interval else since
    else interval
  }
}
