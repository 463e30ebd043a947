/**
 * The helpers of the group analytics endpoint
 * (`app/api/telegram/analytics/data/route.ts`): choosing the later of two
 * activity timestamps, the risk score from the days since the last activity,
 * the username normaliser, and the per-user aggregate that the endpoint keeps
 * in a map while it reads members and events.
 *
 * Date parsing is the parameter `timeOf` (milliseconds since the epoch, None
 * for an invalid date) and the clock is the parameter `now`.
 */
module AnalyticsData {
  import opened Wrappers
  import opened Text

  /** A timestamp that parses. */
  predicate Parses(o: Option<string>, timeOf: string -> Option<int>) {
    Filled(o) && timeOf(o.value).Some?
  }

  // ---------------------------------------------------------------- pickLatestTimestamp

  /**
   * `pickLatestTimestamp`: with one side missing the other; an unparsable side
   * loses to a parsable one (both unparsable is `null`); otherwise the later,
   * `incoming` on a tie.
   */
  function PickLatest(current: Option<string>, incoming: Option<string>, timeOf: string -> Option<int>): (r: Option<string>)
    ensures r == None || r == current || r == incoming
    ensures !Filled(current) ==> r == incoming
    ensures Filled(current) && !Filled(incoming) ==> r == current
    ensures Parses(current, timeOf) && Parses(incoming, timeOf) ==>
      r == (if timeOf(incoming.value).value >= timeOf(current.value).value then incoming else current)
  {
    if !Filled(current) then incoming
    else if !Filled(incoming) then current
    else
      var c := timeOf(current.value);
      var i := timeOf(incoming.value);
      if c.None? then (if i.None? then None else incoming)
      else if i.None? then current
      else if i.value >= c.value then incoming else current
  }

  /** The instant of a valid timestamp. */
  function Instant(o: Option<string>, timeOf: string -> Option<int>): int
    requires Parses(o, timeOf)
  {
    timeOf(o.value).value
  }

  /** Of two valid timestamps the later one is kept, so the result is valid and no earlier than either. */
  lemma PickLatestIsMax(current: Option<string>, incoming: Option<string>, timeOf: string -> Option<int>)
    requires Parses(current, timeOf) && Parses(incoming, timeOf)
    ensures Parses(PickLatest(current, incoming, timeOf), timeOf)
    ensures Instant(PickLatest(current, incoming, timeOf), timeOf) >= Instant(current, timeOf)
    ensures Instant(PickLatest(current, incoming, timeOf), timeOf) >= Instant(incoming, timeOf)
  {
  }

  /** A valid timestamp beats a missing or unparsable one, on either side. */
  lemma PickLatestPrefersValid(current: Option<string>, incoming: Option<string>, timeOf: string -> Option<int>)
    requires Parses(current, timeOf) != Parses(incoming, timeOf)
    ensures PickLatest(current, incoming, timeOf) == (if Parses(current, timeOf) then current else incoming)
  {
  }

  /** Picking the latest of three valid timestamps does not depend on the order they arrive in. */
  lemma PickLatestThree(a: Option<string>, b: Option<string>, c: Option<string>, timeOf: string -> Option<int>)
    requires Parses(a, timeOf) && Parses(b, timeOf) && Parses(c, timeOf)
    ensures Instant(PickLatest(PickLatest(a, b, timeOf), c, timeOf), timeOf)
         == Instant(PickLatest(a, PickLatest(b, c, timeOf), timeOf), timeOf)
  {
    PickLatestIsMax(a, b, timeOf);
    PickLatestIsMax(b, c, timeOf);
  }

  // ---------------------------------------------------------------- calculateRiskScore

  const DayMs := 1000 * 60 * 60 * 24
  const NoActivityRisk := 90

  /** The risk ladder: at most 3 days 5, 7 days 15, 14 days 35, 30 days 60, 60 days 80, else 95. */
  function RiskOfDays(days: nat): (r: int)
    ensures r in {5, 15, 35, 60, 80, 95}
  {
    if days <= 3 then 5
    else if days <= 7 then 15
    else if days <= 14 then 35
    else if days <= 30 then 60
    else if days <= 60 then 80
    else 95
  }

  /** Whole days since `last`, never negative (`Math.max(0, Math.floor(diff / day))`). */
  function DaysSince(now: int, last: int): nat {
    var d := (now - last) / DayMs;
    if d < 0 then 0 else d
  }

  /** `calculateRiskScore`: the ladder for a parsable last activity, else the numeric fallback or 90. */
  function RiskScore(lastActivity: Option<string>, fallback: Option<int>, now: int, timeOf: string -> Option<int>): (r: int)
    ensures !Parses(lastActivity, timeOf) ==> r == fallback.GetOr(NoActivityRisk)
    ensures Parses(lastActivity, timeOf) ==> r == RiskOfDays(DaysSince(now, timeOf(lastActivity.value).value))
  {
    if !Filled(lastActivity) then fallback.GetOr(NoActivityRisk)
    else
      var t := timeOf(lastActivity.value);
      if t.None? then fallback.GetOr(NoActivityRisk)
      else RiskOfDays(DaysSince(now, t.value))
  }

  /** More idle days never lower the risk. */
  lemma RiskOfDaysMonotone(d1: nat, d2: nat)
    requires d1 <= d2
    ensures RiskOfDays(d1) <= RiskOfDays(d2)
  {
  }

  /** An earlier last activity never gives a lower risk. */
  lemma RiskMonotone(now: int, earlier: int, later: int)
    requires earlier <= later
    ensures RiskOfDays(DaysSince(now, later)) <= RiskOfDays(DaysSince(now, earlier))
  {
    DivMonotone(now - later, now - earlier, DayMs);
    RiskOfDaysMonotone(DaysSince(now, later), DaysSince(now, earlier));
  }

  lemma DivMonotone(a: int, b: int, d: int)
    requires a <= b && d > 0
    ensures a / d <= b / d
  {
    var x := a / d - b / d;
    assert d * x == d * (a / d) - d * (b / d);
    assert d * x < d;
    AtLeastOneTimes(x, d);
  }

  lemma AtLeastOneTimes(x: int, d: int)
    requires d > 0
    ensures x >= 1 ==> d * x >= d
  {
    if x >= 1 {
      assert d * x == d + d * (x - 1);
    }
  }

  /** Activity within the last three days is the lowest risk; a future timestamp counts as zero days. */
  lemma RecentActivityLowRisk(now: int, last: int)
    requires last <= now < last + 4 * DayMs || now < last
    ensures RiskOfDays(DaysSince(now, last)) == 5
  {
    if now >= last {
      DivMonotone(now - last, 4 * DayMs - 1, DayMs);
    }
  }

  // ---------------------------------------------------------------- normalizeUsername

  /** `normalizeUsername`: trimmed, one leading `@` dropped, lower-cased; nothing or blank is `null`. */
  function NormalizeUsername(username: Option<string>): (r: Option<string>)
    ensures r.None? <==> !Filled(username) || Trim(username.value) == []
    ensures r.Some? ==> forall k :: 0 <= k < |r.value| ==> !IsUpper(r.value[k])
  {
    if !Filled(username) then None
    else
      var t := Trim(username.value);
      if t == [] then None
      else if t[0] == '@' then Some(Lower(t[1..]))
      else Some(Lower(t))
  }

  /** `@Name`, `@name` and `name` all give `name`. */
  lemma UsernameForms(n: string)
    requires n != [] && Trim(n) == n && n[0] != '@'
    ensures NormalizeUsername(Some("@" + n)) == Some(Lower(n))
    ensures NormalizeUsername(Some(n)) == Some(Lower(n))
  {
    var a := "@" + n;
    assert a[0] == '@' && a[|a| - 1] == n[|n| - 1];
    assert !IsSpace(n[|n| - 1]);
    TrimNoSpace(a);
    assert a[1..] == n;
  }

  /** A lone `@` normalises to the empty name, which is falsy, so neither map step uses it. */
  lemma AtSignAloneIsBlank(at: string)
    requires |at| == 1 && at[0] == '@'
    ensures NormalizeUsername(Some(at)) == Some([])
    ensures !Filled(NormalizeUsername(Some(at)))
  {
    assert !IsSpace(at[0]);
    TrimNoSpace(at);
    assert NormalizeUsername(Some(at)) == Some(Lower(at[1..]));
    LowerEmpty(at[1..]);
  }

  lemma LowerEmpty(s: string)
    requires |s| == 0
    ensures Lower(s) == []
  {
  }

  // ---------------------------------------------------------------- addOrUpdateParticipant

  /** The service accounts the endpoint hides: anonymous group admin, service notifications, @Channel_Bot. */
  const BotUserIds: set<int> := {1087968824, 777000, 136817688}
  const BotUsernames: set<string> := {"groupanonymousbot", "orbo_community_bot", "orbocommunitybot", "channel_bot"}

  /** `ParticipantAggregate`. */
  datatype Aggregate = Aggregate(
    tgUserId: int, username: Option<string>, fullName: Option<string>,
    messageCount: int, joinCount: int, leaveCount: int,
    lastActivity: Option<string>, activityScore: Option<int>, riskScore: Option<int>, fromMembership: bool)

  /** The options of one `addOrUpdateParticipant` call. */
  datatype Update = Update(
    username: Option<string>, fullName: Option<string>, lastActivity: Option<string>,
    activityScore: Option<int>, riskScore: Option<int>, fromMembership: bool)

  function Fresh(tgUserId: int): Aggregate {
    Aggregate(tgUserId, None, None, 0, 0, 0, None, None, None, false)
  }

  /** Whether the call is for a hidden service account, by id or by normalised username. */
  predicate IsBotCall(tgUserId: int, u: Update) {
    tgUserId in BotUserIds || (Filled(NormalizeUsername(u.username)) && NormalizeUsername(u.username).value in BotUsernames)
  }

  /**
   * How one call changes a record: username and full name are filled only
   * while empty, the last activity is the later one, scores are replaced when
   * given, and the membership flag is only ever raised. Counters stay.
   */
  function Merge(rec: Aggregate, u: Update, timeOf: string -> Option<int>): (r: Aggregate)
    ensures r.tgUserId == rec.tgUserId
    ensures r.messageCount == rec.messageCount && r.joinCount == rec.joinCount && r.leaveCount == rec.leaveCount
    ensures Filled(rec.username) ==> r.username == rec.username
    ensures !Filled(rec.username) && Filled(u.username) ==> r.username == u.username
    ensures Filled(rec.fullName) ==> r.fullName == rec.fullName
    ensures !Filled(rec.fullName) && Filled(u.fullName) ==> r.fullName == u.fullName
    ensures r.lastActivity == PickLatest(rec.lastActivity, u.lastActivity, timeOf)
    ensures r.activityScore == if u.activityScore.Some? then u.activityScore else rec.activityScore
    ensures r.riskScore == if u.riskScore.Some? then u.riskScore else rec.riskScore
    ensures r.fromMembership == (rec.fromMembership || u.fromMembership)
  {
    rec.(username := if Filled(u.username) && !Filled(rec.username) then u.username else rec.username,
         fullName := if Filled(u.fullName) && !Filled(rec.fullName) then u.fullName else rec.fullName,
         lastActivity := PickLatest(rec.lastActivity, u.lastActivity, timeOf),
         activityScore := if u.activityScore.Some? then u.activityScore else rec.activityScore,
         riskScore := if u.riskScore.Some? then u.riskScore else rec.riskScore,
         fromMembership := rec.fromMembership || u.fromMembership)
  }

  /** A timestamp that is absent or parses. */
  predicate Sound(o: Option<string>, timeOf: string -> Option<int>) {
    o.None? || Parses(o, timeOf)
  }

  /** Repeating a call with timestamps that parse changes nothing more. */
  lemma MergeIdempotent(rec: Aggregate, u: Update, timeOf: string -> Option<int>)
    requires Sound(rec.lastActivity, timeOf) && Sound(u.lastActivity, timeOf)
    ensures Merge(Merge(rec, u, timeOf), u, timeOf) == Merge(rec, u, timeOf)
  {
  }

  /** No service account is ever recorded, each record is filed under its own id, and non-empty usernames point at records. */
  ghost predicate MapsValid(participants: map<int, Aggregate>, usernameToUserId: map<string, int>) {
    (forall id :: id in participants ==> id !in BotUserIds && participants[id].tgUserId == id)
    && (forall name :: name in usernameToUserId ==> name != [] && name !in BotUsernames && usernameToUserId[name] in participants)
  }

  /** The endpoint's two maps: aggregates by Telegram id and the id each normalised username was last seen with. */
  class Aggregator {
    var participants: map<int, Aggregate>
    var usernameToUserId: map<string, int>

    /** The two maps keep `MapsValid`. */
    ghost predicate Valid()
      reads this
    {
      MapsValid(participants, usernameToUserId)
    }

    constructor ()
      ensures participants == map[] && usernameToUserId == map[]
      ensures Valid()
    {
      participants := map[];
      usernameToUserId := map[];
    }

    /**
     * `addOrUpdateParticipant`: a missing id or a service account changes
     * nothing and gives `null`; otherwise the record (fresh when new) is
     * merged with the call's options and its normalised username is mapped to
     * the id.
     */
    method AddOrUpdate(tgUserId: Option<int>, u: Update, timeOf: string -> Option<int>) returns (r: Option<Aggregate>)
      requires Valid()
      modifies this
      ensures Valid()
      ensures tgUserId.None? || IsBotCall(tgUserId.value, u) ==>
        r.None? && participants == old(participants) && usernameToUserId == old(usernameToUserId)
      ensures tgUserId.Some? && !IsBotCall(tgUserId.value, u) ==>
        var id := tgUserId.value;
        var rec := if id in old(participants) then old(participants)[id] else Fresh(id);
        r == Some(Merge(rec, u, timeOf))
        && participants == old(participants)[id := Merge(rec, u, timeOf)]
        && usernameToUserId == (if Filled(NormalizeUsername(u.username))
                                then old(usernameToUserId)[NormalizeUsername(u.username).value := id]
                                else old(usernameToUserId))
    {
      if tgUserId.None? {
        return None;
      }
      var id := tgUserId.value;
      if id in BotUserIds {
        return None;
      }
      var normalized := NormalizeUsername(u.username);
      if Filled(normalized) && normalized.value in BotUsernames {
        return None;
      }
      var rec := if id in participants then participants[id] else Fresh(id);
      rec := Merge(rec, u, timeOf);
      participants := participants[id := rec];
      if Filled(normalized) {
        usernameToUserId := usernameToUserId[normalized.value := id];
      }
      r := Some(rec);
    }

    /** `resolveUserIdFromUsername`: the id last seen with the normalised username. */
    function ResolveUserId(username: Option<string>): (r: Option<int>)
      reads this
      requires Valid()
      ensures r.Some? ==> r.value in participants && r.value !in BotUserIds
      ensures !Filled(NormalizeUsername(username)) ==> r.None?
    {
      var n := NormalizeUsername(username);
      if Filled(n) && n.value in usernameToUserId then Some(usernameToUserId[n.value]) else None
    }
  }
}
