/**
 * The webhook recovery rate limiter (`lib/services/webhookRecoveryService.ts`):
 * per bot, the list of recovery attempts; a new attempt is allowed when fewer
 * than three happened in the last hour and the latest is at least twenty
 * minutes old. `Date.now()` is the parameter `now`; the Telegram call that
 * re-registers the webhook is its outcome, passed in.
 */
module WebhookRecovery {
  import opened Wrappers

  datatype BotType = Main | Notifications

  datatype Attempt = Attempt(timestamp: int, botType: BotType, success: bool, error: Option<string>)

  const MaxAttemptsPerHour := 3
  const CooldownMs := 20 * 60 * 1000
  const HourMs := 60 * 60 * 1000
  const DayMs := 24 * 60 * 60 * 1000

  /** `attempts.filter(a => now - a.timestamp < window)`. */
  function Within(xs: seq<Attempt>, now: int, window: int): (r: seq<Attempt>)
    ensures |r| <= |xs|
    ensures forall a :: a in r <==> a in xs && now - a.timestamp < window
  {
    if xs == [] then []
    else (if now - xs[0].timestamp < window then [xs[0]] else []) + Within(xs[1..], now, window)
  }

  /** The rate-limit test on the pruned list. */
  predicate Allowed(recent: seq<Attempt>, now: int) {
    |recent| < MaxAttemptsPerHour
    && (recent == [] || now - recent[|recent| - 1].timestamp >= CooldownMs)
  }

  /** Attempts in the order of a clock that never goes back. */
  predicate Chronological(xs: seq<Attempt>) {
    forall i, j :: 0 <= i < j < |xs| ==> xs[i].timestamp <= xs[j].timestamp
  }

  lemma {:induction false} WithinChronological(xs: seq<Attempt>, now: int, window: int)
    requires Chronological(xs)
    ensures Chronological(Within(xs, now, window))
  {
    if xs != [] {
      var rest := Within(xs[1..], now, window);
      ChronologicalTail(xs);
      WithinChronological(xs[1..], now, window);
      if now - xs[0].timestamp < window {
        forall z | z in rest ensures xs[0].timestamp <= z.timestamp {
          HeadEarliest(xs, z);
        }
        ChronologicalCons(xs[0], rest);
      }
    }
  }

  lemma ChronologicalTail(xs: seq<Attempt>)
    requires Chronological(xs) && xs != []
    ensures Chronological(xs[1..])
  {
    forall i, j | 0 <= i < j < |xs[1..]| ensures xs[1..][i].timestamp <= xs[1..][j].timestamp {
      assert xs[1..][i] == xs[i + 1] && xs[1..][j] == xs[j + 1];
    }
  }

  lemma HeadEarliest(xs: seq<Attempt>, z: Attempt)
    requires Chronological(xs) && xs != [] && z in xs[1..]
    ensures xs[0].timestamp <= z.timestamp
  {
    var k :| 0 <= k < |xs[1..]| && xs[1..][k] == z;
    assert xs[k + 1] == z;
  }

  lemma ChronologicalCons(h: Attempt, rest: seq<Attempt>)
    requires Chronological(rest) && forall z :: z in rest ==> h.timestamp <= z.timestamp
    ensures Chronological([h] + rest)
  {
    var r := [h] + rest;
    forall i, j | 0 <= i < j < |r| ensures r[i].timestamp <= r[j].timestamp {
      assert r[j] == rest[j - 1];
      if i > 0 {
        assert r[i] == rest[i - 1];
      }
    }
  }

  /** In a chronological list, the last attempt kept by the filter is the latest one it keeps. */
  lemma {:induction false} WithinLatest(xs: seq<Attempt>, now: int, window: int, a: Attempt)
    requires Chronological(xs) && a in xs && now - a.timestamp < window
    ensures Within(xs, now, window) != []
    ensures a.timestamp <= Within(xs, now, window)[|Within(xs, now, window)| - 1].timestamp
  {
    var rest := Within(xs[1..], now, window);
    ChronologicalTail(xs);
    if a != xs[0] {
      assert a in xs[1..];
      WithinLatest(xs[1..], now, window, a);
    } else if rest != [] {
      HeadEarliest(xs, rest[|rest| - 1]);
      assert Within(xs, now, window) == [xs[0]] + rest;
    } else {
      assert Within(xs, now, window) == [xs[0]];
    }
  }

  /**
   * On a chronological list a recovery is allowed exactly when fewer than three
   * attempts lie in the last hour and none lies in the last twenty minutes.
   */
  lemma AllowedMeansQuiet(xs: seq<Attempt>, now: int)
    requires Chronological(xs)
    ensures Allowed(Within(xs, now, HourMs), now) <==>
              (|Within(xs, now, HourMs)| < MaxAttemptsPerHour
               && forall a :: a in xs ==> now - a.timestamp >= CooldownMs)
  {
    var recent := Within(xs, now, HourMs);
    if recent != [] {
      assert recent[|recent| - 1] in xs;
      forall a | a in xs ensures Allowed(recent, now) ==> now - a.timestamp >= CooldownMs {
        if now - a.timestamp < HourMs {
          WithinLatest(xs, now, HourMs, a);
        }
      }
    }
  }

  class RecoveryService {
    /** `recoveryAttempts`, keyed by bot. */
    var attempts: map<BotType, seq<Attempt>>

    /** Every list holds only attempts of its own bot. */
    ghost predicate Valid()
      reads this
    {
      forall b :: b in attempts ==> forall a :: a in attempts[b] ==> a.botType == b
    }

    constructor ()
      ensures attempts == map[]
      ensures Valid()
    {
      attempts := map[];
    }

    /** `recoveryAttempts.get(botType) || []`. */
    function AttemptsOf(b: BotType): seq<Attempt>
      reads this
    {
      if b in attempts then attempts[b] else []
    }

    /** `canAttemptRecovery`: prunes the bot's list to the last hour, then applies the limit. */
    method CanAttemptRecovery(b: BotType, now: int) returns (ok: bool)
      requires Valid()
      modifies this
      ensures attempts == old(attempts)[b := Within(old(AttemptsOf(b)), now, HourMs)]
      ensures ok == Allowed(Within(old(AttemptsOf(b)), now, HourMs), now)
      ensures Valid()
    {
      var recent := Within(AttemptsOf(b), now, HourMs);
      attempts := attempts[b := recent];
      if |recent| >= MaxAttemptsPerHour {
        return false;
      }
      if recent != [] && now - recent[|recent| - 1].timestamp < CooldownMs {
        return false;
      }
      return true;
    }

    /** `recordAttempt`: appends one attempt to the bot's list. */
    method RecordAttempt(b: BotType, success: bool, error: Option<string>, now: int)
      requires Valid()
      modifies this
      ensures attempts == old(attempts)[b := old(AttemptsOf(b)) + [Attempt(now, b, success, error)]]
      ensures Valid()
    {
      attempts := attempts[b := AttemptsOf(b) + [Attempt(now, b, success, error)]];
    }

    /**
     * `recoverWebhook`: blocked by the limiter, or one attempt recorded at
     * `recordedAt` whose success is that of the webhook call (`failure` is the
     * error message of a missing secret or a refused call).
     */
    method RecoverWebhook(b: BotType, now: int, recordedAt: int, failure: Option<string>) returns (recovered: bool)
      requires Valid()
      modifies this
      ensures var recent := Within(old(AttemptsOf(b)), now, HourMs);
              attempts == old(attempts)[b := if Allowed(recent, now)
                                             then recent + [Attempt(recordedAt, b, failure.None?, failure)]
                                             else recent]
      ensures recovered <==> Allowed(Within(old(AttemptsOf(b)), now, HourMs), now) && failure.None?
      ensures Valid()
    {
      var ok := CanAttemptRecovery(b, now);
      if !ok {
        return false;
      }
      RecordAttempt(b, failure.None?, failure, recordedAt);
      recovered := failure.None?;
    }

    /** `getRecoveryStats`: each bot's attempts of the last 24 hours. */
    function RecoveryStats(now: int): (stats: map<BotType, seq<Attempt>>)
      reads this
      ensures stats.Keys == attempts.Keys
      ensures forall b :: b in stats ==> forall a :: a in stats[b] <==> a in attempts[b] && now - a.timestamp < DayMs
    {
      map b | b in attempts :: Within(attempts[b], now, DayMs)
    }
  }

  /**
   * With a clock that never goes back, the limiter keeps every list
   * chronological, so `AllowedMeansQuiet` applies at the next check.
   */
  lemma RecoverKeepsChronological(xs: seq<Attempt>, now: int, a: Attempt)
    requires Chronological(xs) && a.timestamp >= now && Allowed(Within(xs, now, HourMs), now)
    ensures Chronological(Within(xs, now, HourMs) + [a])
  {
    WithinChronological(xs, now, HourMs);
    AppendLater(Within(xs, now, HourMs), now, a);
  }

  lemma AppendLater(recent: seq<Attempt>, now: int, a: Attempt)
    requires Chronological(recent) && a.timestamp >= now && Allowed(recent, now)
    ensures Chronological(recent + [a])
  {
    var r := recent + [a];
    forall i, j | 0 <= i < j < |r| ensures r[i].timestamp <= r[j].timestamp {
      assert r[i] == recent[i];
      if j < |recent| {
        assert r[j] == recent[j];
      } else {
        assert recent[i].timestamp <= recent[|recent| - 1].timestamp;
      }
    }
  }
}
