/**
 * The error log batching service (`lib/services/errorLoggingService.ts`):
 * entries are queued, flushed when the queue reaches 50 entries or when the
 * flush timer fires, deduplicated by fingerprint within a batch and stored in
 * the `error_logs` table unless a row with the same fingerprint was stored in
 * the last hour. The table is a field of the service; the clock is `now`, the
 * availability of the database client and the browser test are parameters.
 */
module ErrorLogging {
  import opened Wrappers
  import opened Text
  import opened JsValues

  datatype Level = Error | Warn | Info

  function LevelName(l: Level): string {
    match l
    case Error => "error"
    case Warn => "warn"
    case Info => "info"
  }

  /**
   * `ErrorLogEntry`. The fields `logFromPino` fills from the pino record with
   * `as string` casts hold whatever value the record has, so they are
   * JavaScript values (`Undefined` when absent).
   */
  datatype Entry = Entry(
    level: Level, message: JsValue, errorCode: JsValue, context: Option<seq<(string, JsValue)>>,
    stackTrace: Option<string>, orgId: JsValue, userId: JsValue, requestId: JsValue,
    userAgent: JsValue, fingerprint: Option<string>)

  /** A stored `error_logs` row; `Null` is SQL null. */
  datatype Row = Row(
    level: Level, message: string, errorCode: JsValue, context: Option<seq<(string, JsValue)>>,
    stackTrace: Option<string>, orgId: JsValue, userId: JsValue, requestId: JsValue,
    userAgent: Option<string>, fingerprint: string, createdAt: int)

  const MaxQueueSize := 50
  const HourMs := 60 * 60 * 1000
  const MaxMessage := 1000
  const MaxStackTrace := 5000
  const MaxUserAgent := 500

  /** `x || y`. */
  function OrElse(x: JsValue, y: JsValue): (r: JsValue)
    ensures Truthy(x) ==> r == x
    ensures !Truthy(x) ==> r == y
  {
    if Truthy(x) then x else y
  }

  /** `x || null`: a falsy value is stored as null, any other value as it is. */
  function NullIfEmpty(x: JsValue): (r: JsValue)
    ensures r == Null <==> !Truthy(x)
    ensures r != Null ==> r == x
  {
    if Truthy(x) then x else Null
  }

  /** `${x || ''}`: the string a template literal makes of an optional value. */
  function TextOrEmpty(x: JsValue): string {
    if Truthy(x) then ToStr(x) else ""
  }

  // ---------------------------------------------------------------- generateFingerprint

  const TwoTo32 := 0x1_0000_0000
  const TwoTo31 := 0x8000_0000

  predicate IsInt32(x: int) {
    -TwoTo31 <= x < TwoTo31
  }

  /** ECMAScript ToInt32: the 32-bit two's complement value congruent to `x`. */
  function ToInt32(x: int): (r: int)
    ensures IsInt32(r)
    ensures (r - x) % TwoTo32 == 0
  {
    var m := x % TwoTo32;
    if m >= TwoTo31 then m - TwoTo32 else m
  }

  predicate Congruent(a: int, b: int) {
    (a - b) % TwoTo32 == 0
  }

  lemma CongruentToInt32(a: int, b: int)
    requires Congruent(a, b)
    ensures ToInt32(a) == ToInt32(b)
  {
    var k := (a - b) / TwoTo32;
    assert a == b + k * TwoTo32;
    assert a % TwoTo32 == b % TwoTo32;
  }

  lemma CongruentLinear(a: int, b: int, m: int, c: int)
    requires Congruent(a, b)
    ensures Congruent(m * a + c, m * b + c)
  {
    var k := (a - b) / TwoTo32;
    assert a - b == k * TwoTo32;
    assert (m * a + c) - (m * b + c) == m * (a - b);
    assert m * (a - b) == (m * k) * TwoTo32;
  }

  /** `base` of `generateFingerprint`: level, message and error code joined by colons. */
  function FingerprintBase(e: Entry): string {
    LevelName(e.level) + ":" + ToStr(e.message) + ":" + TextOrEmpty(e.errorCode)
  }

  /** One step of the loop: `hash = ((hash << 5) - hash) + char; hash = hash & hash`. */
  function HashStep(h: int, c: char): int {
    ToInt32(ToInt32(ToInt32(h) * 32) - h + c as int)
  }

  /** The hash of `s`, step by step. */
  function Hash(s: string): int {
    if s == [] then 0 else HashStep(Hash(s[..|s| - 1]), s[|s| - 1])
  }

  /** The textbook polynomial string hash with multiplier 31, unbounded. */
  function Polynomial(s: string): int {
    if s == [] then 0 else 31 * Polynomial(s[..|s| - 1]) + s[|s| - 1] as int
  }

  /** ToInt32 leaves a 32-bit value as it is. */
  lemma Int32Fixed(h: int)
    requires IsInt32(h)
    ensures ToInt32(h) == h
  {
    if h >= 0 {
      assert h % TwoTo32 == h;
    } else {
      assert h % TwoTo32 == h + TwoTo32;
    }
  }

  /** On 32-bit values the shift-and-subtract step multiplies by 31 modulo 2^32. */
  lemma HashStepTimes31(h: int, c: char)
    requires IsInt32(h)
    ensures HashStep(h, c) == ToInt32(31 * h + c as int)
  {
    Int32Fixed(h);
    var s := ToInt32(h * 32);
    assert Congruent(s, h * 32);
    CongruentLinear(s, h * 32, 1, -h + c as int);
    CongruentToInt32(s - h + c as int, 31 * h + c as int);
  }

  /** The fingerprint hash is the polynomial hash with 32-bit wrap-around. */
  lemma {:induction false} HashIsPolynomial(s: string)
    ensures Hash(s) == ToInt32(Polynomial(s))
    ensures IsInt32(Hash(s))
  {
    if s == [] {
      assert ToInt32(0) == 0;
    } else {
      var p := s[..|s| - 1];
      var c := s[|s| - 1];
      HashIsPolynomial(p);
      HashStepTimes31(Hash(p), c);
      CongruentLinear(Hash(p), Polynomial(p), 31, c as int);
      CongruentToInt32(31 * Hash(p) + c as int, 31 * Polynomial(p) + c as int);
    }
  }

  /** `hash.toString(16)` of the hash of the base. */
  function FingerprintOf(e: Entry): string {
    IntToHex(Hash(FingerprintBase(e)))
  }

  /** `generateFingerprint`. */
  method GenerateFingerprint(e: Entry) returns (fp: string)
    ensures fp == FingerprintOf(e)
  {
    var base := LevelName(e.level) + ":" + ToStr(e.message) + ":" + TextOrEmpty(e.errorCode);
    var hash := 0;
    for i := 0 to |base|
      invariant hash == Hash(base[..i])
    {
      assert base[..i + 1][..i] == base[..i];
      hash := ToInt32(ToInt32(hash) * 32) - hash + base[i] as int;
      hash := ToInt32(hash);
    }
    assert base[..|base|] == base;
    fp := IntToHex(hash);
  }

  /**
   * Two entries get the same fingerprint exactly when their bases hash alike;
   * entries agreeing on level, message and code (a missing code counting as
   * empty) always do, whatever their other fields.
   */
  lemma FingerprintTracksHash(a: Entry, b: Entry)
    ensures FingerprintOf(a) == FingerprintOf(b) <==> Hash(FingerprintBase(a)) == Hash(FingerprintBase(b))
    ensures a.level == b.level && ToStr(a.message) == ToStr(b.message) && TextOrEmpty(a.errorCode) == TextOrEmpty(b.errorCode)
            ==> FingerprintOf(a) == FingerprintOf(b)
  {
    if FingerprintOf(a) == FingerprintOf(b) {
      IntToHexInjective(Hash(FingerprintBase(a)), Hash(FingerprintBase(b)));
    }
  }

  // ---------------------------------------------------------------- batch deduplication and storage

  /** `entry.fingerprint || generateFingerprint(entry)`. */
  function FpOf(e: Entry): string {
    if Filled(e.fingerprint) then e.fingerprint.value else FingerprintOf(e)
  }

  function FpsOf(es: seq<Entry>): set<string> {
    set e | e in es :: FpOf(e)
  }

  /** The `seen`-set filter: the first entry of the batch per fingerprint. */
  function Dedup(es: seq<Entry>): seq<Entry> {
    if es == [] then []
    else
      var p := es[..|es| - 1];
      Dedup(p) + (if FpOf(es[|es| - 1]) in FpsOf(p) then [] else [es[|es| - 1]])
  }

  /** No earlier entry of the batch has the fingerprint of entry `i`. */
  predicate IsFirst(es: seq<Entry>, i: int)
    requires 0 <= i < |es|
  {
    forall j :: 0 <= j < i ==> FpOf(es[j]) != FpOf(es[i])
  }

  lemma FpsOfAppend(es: seq<Entry>, e: Entry)
    ensures FpsOf(es + [e]) == FpsOf(es) + {FpOf(e)}
  {
    assert forall x :: x in es + [e] <==> x in es || x == e;
  }

  lemma NotFirstIn(es: seq<Entry>)
    requires es != []
    ensures FpOf(es[|es| - 1]) in FpsOf(es[..|es| - 1]) <==> !IsFirst(es, |es| - 1)
  {
    var p := es[..|es| - 1];
    if FpOf(es[|es| - 1]) in FpsOf(p) {
      var x :| x in p && FpOf(x) == FpOf(es[|es| - 1]);
      var j :| 0 <= j < |p| && p[j] == x;
      assert es[j] == x;
    }
    if !IsFirst(es, |es| - 1) {
      var j :| 0 <= j < |es| - 1 && FpOf(es[j]) == FpOf(es[|es| - 1]);
      assert p[j] == es[j];
    }
  }

  /**
   * The deduplicated batch holds one entry per fingerprint of the batch: the
   * fingerprints are pairwise distinct, every fingerprint of the batch is
   * represented, and only entries of the batch appear.
   */
  lemma {:induction false} DedupCorrect(es: seq<Entry>)
    ensures FpsOf(Dedup(es)) == FpsOf(es)
    ensures forall i, j :: 0 <= i < j < |Dedup(es)| ==> FpOf(Dedup(es)[i]) != FpOf(Dedup(es)[j])
    ensures forall x :: x in Dedup(es) ==> x in es
  {
    if es != [] {
      var p := es[..|es| - 1];
      var e := es[|es| - 1];
      assert es == p + [e];
      DedupCorrect(p);
      FpsOfAppend(p, e);
      if FpOf(e) !in FpsOf(p) {
        var d := Dedup(p);
        FpsOfAppend(d, e);
        forall i, j | 0 <= i < j < |d + [e]| ensures FpOf((d + [e])[i]) != FpOf((d + [e])[j]) {
          assert (d + [e])[i] == d[i];
          if j == |d| {
            assert d[i] in d;
          } else {
            assert (d + [e])[j] == d[j];
          }
        }
      }
    }
  }

  /** Every entry that is the first of its fingerprint in the batch is kept. */
  lemma {:induction false} DedupKeepsFirst(es: seq<Entry>, i: int)
    requires 0 <= i < |es| && IsFirst(es, i)
    ensures es[i] in Dedup(es)
  {
    var p := es[..|es| - 1];
    if i == |es| - 1 {
      NotFirstIn(es);
    } else {
      assert IsFirst(p, i) by {
        forall j | 0 <= j < i ensures FpOf(p[j]) != FpOf(p[i]) {
          assert p[j] == es[j] && p[i] == es[i];
        }
      }
      DedupKeepsFirst(p, i);
    }
  }

  /** `x?.substring(0, n) || null`. */
  function CutOrNull(x: Option<string>, n: nat): (r: Option<string>)
    requires n > 0
    ensures r.Some? <==> Filled(x)
    ensures r.Some? ==> |r.value| <= n && r.value <= x.value
  {
    if Filled(x) then Some(Take(x.value, n)) else None
  }

  /**
   * An entry whose row can be built: `message.substring` and
   * `user_agent?.substring` need a string message and a user agent that is a
   * string or absent; on anything else they throw, and the insert is skipped.
   */
  predicate RowBuilds(e: Entry) {
    e.message.Str? && (IsNullish(e.userAgent) || e.userAgent.Str?)
  }

  /** The row inserted for an entry: the long texts cut to 1000, 5000 and 500 characters, falsy values as null. */
  function RowOf(e: Entry, fp: string, now: int): (r: Option<Row>)
    ensures r.Some? <==> RowBuilds(e)
    ensures r.Some? ==> |r.value.message| <= MaxMessage && r.value.message <= e.message.s
    ensures r.Some? ==> r.value.stackTrace.Some? ==> |r.value.stackTrace.value| <= MaxStackTrace
    ensures r.Some? ==> r.value.userAgent.Some? ==> |r.value.userAgent.value| <= MaxUserAgent
    ensures r.Some? ==> r.value.errorCode == NullIfEmpty(e.errorCode) && r.value.orgId == NullIfEmpty(e.orgId)
                        && r.value.userId == NullIfEmpty(e.userId) && r.value.requestId == NullIfEmpty(e.requestId)
    ensures r.Some? ==> r.value.fingerprint == fp && r.value.createdAt == now
  {
    if !RowBuilds(e) then None
    else
      var agent := if e.userAgent.Str? then Some(e.userAgent.s) else None;
      Some(Row(e.level, Take(e.message.s, MaxMessage), NullIfEmpty(e.errorCode), e.context,
               CutOrNull(e.stackTrace, MaxStackTrace), NullIfEmpty(e.orgId), NullIfEmpty(e.userId),
               NullIfEmpty(e.requestId), CutOrNull(agent, MaxUserAgent), fp, now))
  }

  /** The database check: a row with this fingerprint created since `since`. */
  predicate HasRecent(table: seq<Row>, fp: string, since: int) {
    exists r :: r in table && r.fingerprint == fp && r.createdAt >= since
  }

  /** The insert loop over the unique entries; an entry whose row does not build is skipped. */
  function Store(table: seq<Row>, es: seq<Entry>, now: int): seq<Row> {
    if es == [] then table
    else
      var t := Store(table, es[..|es| - 1], now);
      var e := es[|es| - 1];
      var row := RowOf(e, FpOf(e), now);
      if HasRecent(t, FpOf(e), now - HourMs) || row.None? then t else t + [row.value]
  }

  /**
   * Storing only appends, at most one row per entry, and afterwards every
   * fingerprint of an entry whose row builds has a row from the last hour.
   */
  lemma {:induction false} StoreCorrect(table: seq<Row>, es: seq<Entry>, now: int)
    ensures table <= Store(table, es, now)
    ensures |Store(table, es, now)| <= |table| + |es|
    ensures forall e :: e in es && RowBuilds(e) ==> HasRecent(Store(table, es, now), FpOf(e), now - HourMs)
  {
    if es != [] {
      var p := es[..|es| - 1];
      var e := es[|es| - 1];
      StoreCorrect(table, p, now);
      var t := Store(table, p, now);
      var t' := Store(table, es, now);
      var row := RowOf(e, FpOf(e), now);
      if !HasRecent(t, FpOf(e), now - HourMs) && row.Some? {
        assert t' == t + [row.value];
        AppendedRowRecent(t, row.value, FpOf(e), now);
      }
      assert t <= t';
      forall x | x in es && RowBuilds(x) ensures HasRecent(t', FpOf(x), now - HourMs) {
        if x != e {
          assert x in p;
          RecentKept(t, t', FpOf(x), now - HourMs);
        } else if HasRecent(t, FpOf(e), now - HourMs) {
          RecentKept(t, t', FpOf(x), now - HourMs);
        }
      }
    }
  }

  /** A row just appended for `fp` is recent. */
  lemma AppendedRowRecent(t: seq<Row>, row: Row, fp: string, now: int)
    requires row.fingerprint == fp && row.createdAt == now
    ensures HasRecent(t + [row], fp, now - HourMs)
  {
    assert (t + [row])[|t|] == row;
  }

  /** Appending rows keeps every recent row. */
  lemma RecentKept(t: seq<Row>, t': seq<Row>, fp: string, since: int)
    requires t <= t' && HasRecent(t, fp, since)
    ensures HasRecent(t', fp, since)
  {
    var r :| r in t && r.fingerprint == fp && r.createdAt >= since;
    assert r in t';
  }

  // ---------------------------------------------------------------- the queue

  class ErrorLogService {
    /** `errorQueue`. */
    var queue: seq<Entry>
    /** Whether `flushTimeout` is set. */
    var flushScheduled: bool
    /** The `error_logs` table. */
    var table: seq<Row>

    /** The queue is always below the size that forces a flush, and a non-empty queue has a flush pending. */
    ghost predicate Valid()
      reads this
    {
      |queue| < MaxQueueSize && (queue != [] ==> flushScheduled)
    }

    constructor (table: seq<Row>)
      ensures this.queue == [] && !this.flushScheduled && this.table == table
      ensures Valid()
    {
      this.queue := [];
      this.flushScheduled := false;
      this.table := table;
    }

    /** The fingerprint of an entry as `flushErrorQueue` computes it. */
    method EntryFingerprint(e: Entry) returns (fp: string)
      ensures fp == FpOf(e)
    {
      if Filled(e.fingerprint) {
        fp := e.fingerprint.value;
      } else {
        fp := GenerateFingerprint(e);
      }
    }

    /** The `seen` filter of `flushErrorQueue`. */
    method UniqueEntries(entries: seq<Entry>) returns (unique: seq<Entry>)
      ensures unique == Dedup(entries)
    {
      var seen: set<string> := {};
      unique := [];
      for i := 0 to |entries|
        invariant unique == Dedup(entries[..i])
        invariant seen == FpsOf(entries[..i])
      {
        var p := entries[..i];
        assert entries[..i + 1] == p + [entries[i]];
        assert entries[..i + 1][..i] == p;
        FpsOfAppend(p, entries[i]);
        var fp := EntryFingerprint(entries[i]);
        if fp !in seen {
          seen := seen + {fp};
          unique := unique + [entries[i]];
        }
      }
      assert entries[..|entries|] == entries;
    }

    /** The insert loop of `flushErrorQueue`. */
    method InsertEntries(unique: seq<Entry>, now: int)
      modifies this
      ensures table == Store(old(table), unique, now)
      ensures queue == old(queue) && flushScheduled == old(flushScheduled)
    {
      var oneHourAgo := now - HourMs;
      for j := 0 to |unique|
        invariant table == Store(old(table), unique[..j], now)
        invariant queue == old(queue) && flushScheduled == old(flushScheduled)
      {
        assert unique[..j + 1][..j] == unique[..j];
        var fp := EntryFingerprint(unique[j]);
        if !HasRecent(table, fp, oneHourAgo) {
          var row := RowOf(unique[j], fp, now);
          if row.Some? {
            table := table + [row.value];
          }
        }
      }
      assert unique[..|unique|] == unique;
    }

    /**
     * `flushErrorQueue`, also run by the timer and before exit: the queue is
     * emptied, and with a database client its deduplicated entries are stored.
     */
    method Flush(clientAvailable: bool, now: int)
      modifies this
      ensures queue == [] && !flushScheduled
      ensures table == if old(queue) == [] || !clientAvailable then old(table)
                       else Store(old(table), Dedup(old(queue)), now)
      ensures Valid()
    {
      flushScheduled := false;
      if queue == [] {
        return;
      }
      var entries := queue;
      queue := [];
      if !clientAvailable {
        return;
      }
      var unique := UniqueEntries(entries);
      InsertEntries(unique, now);
    }

    /**
     * `logErrorToDb`: outside a browser the entry is queued; the 50th entry
     * flushes the queue at once, otherwise a flush is scheduled.
     */
    method LogErrorToDb(entry: Entry, inBrowser: bool, clientAvailable: bool, now: int)
      requires Valid()
      modifies this
      ensures Valid()
      ensures inBrowser ==> queue == old(queue) && flushScheduled == old(flushScheduled) && table == old(table)
      ensures !inBrowser && |old(queue)| + 1 < MaxQueueSize ==>
                queue == old(queue) + [entry] && flushScheduled && table == old(table)
      ensures !inBrowser && |old(queue)| + 1 == MaxQueueSize ==>
                queue == [] && !flushScheduled
                && table == if clientAvailable then Store(old(table), Dedup(old(queue) + [entry]), now) else old(table)
    {
      if inBrowser {
        return;
      }
      queue := queue + [entry];
      if |queue| >= MaxQueueSize {
        Flush(clientAvailable, now);
        return;
      }
      if !flushScheduled {
        flushScheduled := true;
      }
    }

    /** `logFromPino`: the entry built from a pino record is logged unless its level is below warn. */
    method LogFromPino(level: int, obj: seq<(string, JsValue)>, msg: Option<string>, inBrowser: bool,
                       clientAvailable: bool, now: int)
      requires Valid()
      modifies this
      ensures Valid()
      ensures level < 40 ==> queue == old(queue) && flushScheduled == old(flushScheduled) && table == old(table)
      ensures level >= 40 && inBrowser ==> queue == old(queue) && flushScheduled == old(flushScheduled) && table == old(table)
      ensures level >= 40 && !inBrowser && |old(queue)| + 1 < MaxQueueSize ==>
                queue == old(queue) + [PinoEntry(level, obj, msg).value] && flushScheduled && table == old(table)
      ensures level >= 40 && !inBrowser && |old(queue)| + 1 == MaxQueueSize ==>
                queue == [] && !flushScheduled
                && table == if clientAvailable then Store(old(table), Dedup(old(queue) + [PinoEntry(level, obj, msg).value]), now)
                            else old(table)
    {
      if level < 40 {
        return;
      }
      var context := ExtractContext(obj);
      var e := Entry(PinoLevel(level), PinoMessage(obj, msg), OrElse(Lookup(obj, "error_code"), Lookup(obj, "code")),
                     if context != [] then Some(context) else None, StackOf(obj),
                     Lookup(obj, "org_id"), Lookup(obj, "user_id"),
                     OrElse(Lookup(obj, "requestId"), Lookup(obj, "request_id")),
                     OrElse(Lookup(obj, "userAgent"), Lookup(obj, "user_agent")), None);
      LogErrorToDb(e, inBrowser, clientAvailable, now);
    }
  }

  /**
   * Storing a batch of entries that differ from the rows stored in the last
   * hour adds exactly one row per fingerprint of the batch.
   */
  lemma {:induction false} StoreDistinctBatch(table: seq<Row>, es: seq<Entry>, now: int)
    requires forall i, j :: 0 <= i < j < |es| ==> FpOf(es[i]) != FpOf(es[j])
    requires forall e :: e in es ==> !HasRecent(table, FpOf(e), now - HourMs) && RowBuilds(e)
    ensures |Store(table, es, now)| == |table| + |es|
  {
    if es != [] {
      var p := es[..|es| - 1];
      var e := es[|es| - 1];
      StoreDistinctBatch(table, p, now);
      StoreLeavesOthers(table, p, now, FpOf(e));
    }
  }

  /** Storing entries of other fingerprints adds no recent row for `fp`. */
  lemma {:induction false} StoreLeavesOthers(table: seq<Row>, es: seq<Entry>, now: int, fp: string)
    requires !HasRecent(table, fp, now - HourMs)
    requires forall k :: 0 <= k < |es| ==> FpOf(es[k]) != fp
    ensures !HasRecent(Store(table, es, now), fp, now - HourMs)
  {
    if es != [] {
      var p := es[..|es| - 1];
      assert forall k :: 0 <= k < |p| ==> p[k] == es[k];
      StoreLeavesOthers(table, p, now, fp);
    }
  }

  // ---------------------------------------------------------------- logFromPino

  /** Pino levels: 50 and above are errors, 40 and above warnings, the rest info. */
  function PinoLevel(level: int): (l: Level)
    ensures l == Error <==> level >= 50
    ensures l == Warn <==> 40 <= level < 50
    ensures l == Info <==> level < 40
  {
    if level >= 50 then Error else if level >= 40 then Warn else Info
  }

  /** `typeof obj.stack === 'string'`: the stack trace, kept only when it is a string. */
  function StackOf(obj: seq<(string, JsValue)>): (r: Option<string>)
    ensures r.Some? <==> Lookup(obj, "stack").Str?
    ensures r.Some? ==> r.value == Lookup(obj, "stack").s
  {
    match Lookup(obj, "stack")
    case Str(s) => Some(s)
    case _ => None
  }

  /**
   * `msg || obj.msg || 'Unknown error'`: the `as string` cast checks nothing,
   * so a truthy `obj.msg` of any type is the message.
   */
  function PinoMessage(obj: seq<(string, JsValue)>, msg: Option<string>): (m: JsValue)
    ensures Truthy(m)
    ensures Filled(msg) ==> m == Str(msg.value)
    ensures !Filled(msg) && Truthy(Lookup(obj, "msg")) ==> m == Lookup(obj, "msg")
    ensures !Filled(msg) && !Truthy(Lookup(obj, "msg")) ==> m == Str("Unknown error")
  {
    if Filled(msg) then Str(msg.value)
    else OrElse(Lookup(obj, "msg"), Str("Unknown error"))
  }

  const ExcludedKeys: seq<string> := ["msg", "level", "time", "pid", "hostname", "error", "stack"]

  /** The properties of the record that go into the context. */
  function ContextOf(obj: seq<(string, JsValue)>): (c: seq<(string, JsValue)>)
    ensures forall p :: p in c <==> p in obj && p.0 !in ExcludedKeys
  {
    if obj == [] then []
    else ContextOf(obj[..|obj| - 1]) + (if obj[|obj| - 1].0 in ExcludedKeys then [] else [obj[|obj| - 1]])
  }

  /** The context loop of `logFromPino`. */
  method ExtractContext(obj: seq<(string, JsValue)>) returns (context: seq<(string, JsValue)>)
    ensures context == ContextOf(obj)
  {
    context := [];
    for i := 0 to |obj|
      invariant context == ContextOf(obj[..i])
    {
      assert obj[..i + 1][..i] == obj[..i];
      var key := obj[i].0;
      if key !in ["msg", "level", "time", "pid", "hostname", "error", "stack"] {
        context := context + [obj[i]];
      }
    }
    assert obj[..|obj|] == obj;
  }

  /** The entry `logFromPino` logs, or None when the level is below warn. */
  function PinoEntry(level: int, obj: seq<(string, JsValue)>, msg: Option<string>): (r: Option<Entry>)
    ensures r.None? <==> level < 40
    ensures r.Some? ==> r.value.level == (if level >= 50 then Error else Warn) && Truthy(r.value.message)
    ensures r.Some? ==> r.value.errorCode == OrElse(Lookup(obj, "error_code"), Lookup(obj, "code"))
    ensures r.Some? ==> r.value.orgId == Lookup(obj, "org_id") && r.value.userId == Lookup(obj, "user_id")
    ensures r.Some? ==> r.value.requestId == OrElse(Lookup(obj, "requestId"), Lookup(obj, "request_id"))
    ensures r.Some? ==> r.value.userAgent == OrElse(Lookup(obj, "userAgent"), Lookup(obj, "user_agent"))
    ensures r.Some? ==> r.value.stackTrace == StackOf(obj)
    ensures r.Some? && r.value.context.Some? ==>
              r.value.context.value != [] && forall p :: p in r.value.context.value <==> p in obj && p.0 !in ExcludedKeys
    ensures r.Some? ==> r.value.fingerprint.None?
  {
    if level < 40 then None
    else
      var context := ContextOf(obj);
      Some(Entry(PinoLevel(level), PinoMessage(obj, msg), OrElse(Lookup(obj, "error_code"), Lookup(obj, "code")),
                 if context != [] then Some(context) else None, StackOf(obj),
                 Lookup(obj, "org_id"), Lookup(obj, "user_id"),
                 OrElse(Lookup(obj, "requestId"), Lookup(obj, "request_id")),
                 OrElse(Lookup(obj, "userAgent"), Lookup(obj, "user_agent")), None))
  }

  /**
   * A numeric `error_code` is kept as a number: it is written into the
   * fingerprint base through string conversion and stored as it is.
   */
  lemma NumericErrorCodeKept(level: int, obj: seq<(string, JsValue)>, m: string, n: int, fp: string, now: int)
    requires level >= 40 && m != [] && n != 0
    requires Lookup(obj, "error_code") == Num(n)
    ensures FingerprintBase(PinoEntry(level, obj, Some(m)).value)
              == LevelName(PinoLevel(level)) + ":" + m + ":" + IntToString(n)
    ensures RowOf(PinoEntry(level, obj, Some(m)).value, fp, now).Some? ==>
              RowOf(PinoEntry(level, obj, Some(m)).value, fp, now).value.errorCode == Num(n)
  {
    var e := PinoEntry(level, obj, Some(m)).value;
    assert e.message == Str(m) && e.errorCode == Num(n);
    NumericBase(e, m, n);
  }

  /** The fingerprint base of an entry with a string message and a numeric code. */
  lemma NumericBase(e: Entry, m: string, n: int)
    requires e.message == Str(m) && e.errorCode == Num(n) && n != 0
    ensures FingerprintBase(e) == LevelName(e.level) + ":" + m + ":" + IntToString(n)
  {
    assert TextOrEmpty(Num(n)) == IntToString(n);
  }
}
