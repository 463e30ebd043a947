/**
 * The participant matcher (`lib/services/participants/matcher.ts`): it
 * normalises the contact details of an incoming person, collects the
 * organisation's participants that share an e-mail, phone, username or
 * Telegram id with it (and, for a long enough name, those whose name looks
 * alike), scores each with the weights of the reasons it matched for, caps the
 * score at 100 and returns them best first.
 *
 * The two database queries are parameters: `exact` and `fuzzy` are the rows
 * they return (an empty list when a query returns no data).
 */
module ParticipantMatcher {
  import opened Wrappers
  import opened Text
  import Sorting

  // ---------------------------------------------------------------- normalisers

  /** A string of ASCII digits. */
  predicate AllDigits(s: string) {
    forall k :: 0 <= k < |s| ==> IsDigit(s[k])
  }

  /**
   * `normalizePhone`: keep the digits; an 11-digit number starting with 8 and a
   * 10-digit number become `+7` and the ten national digits; anything else is
   * `+` and the digits. No input, or no digit in it, is `null`.
   */
  function NormalizePhone(input: Option<string>): (r: Option<string>)
    ensures r.None? <==> input.None? || DigitsOf(input.value) == []
    ensures r.Some? ==> |r.value| >= 2 && r.value[0] == '+' && AllDigits(r.value[1..])
  {
    if !Filled(input) then None
    else
      var d := DigitsOf(input.value);
      DigitsOfDigits(input.value);
      if d == [] then None
      else if |d| == 11 && d[0] == '8' then Some("+7" + d[1..])
      else if |d| == 10 then Some("+7" + d)
      else if d[0] == '7' && |d| == 11 then Some("+" + d)
      else Some("+" + d)
  }

  /** A normalised phone number normalises to itself. */
  lemma NormalizePhoneIdempotent(input: Option<string>)
    ensures NormalizePhone(NormalizePhone(input)) == NormalizePhone(input)
  {
    var r := NormalizePhone(input);
    if r.Some? {
      var p := r.value;
      assert p == [p[0]] + p[1..];
      DigitsOfDigits(p[1..]);
      assert DigitsOf(p) == DigitsOf(p[1..]) == p[1..];
      DigitsOfDigits(input.value);
      var d := DigitsOf(input.value);
      if |d| == 11 && d[0] == '8' {
        assert p[1..] == "7" + d[1..];
      } else if |d| == 10 {
        assert p[1..] == "7" + d;
      }
    }
  }

  /** The three ways of writing a Russian number (ten digits, `8…`, `7…`) normalise alike. */
  lemma RussianSpellingsAgree(d: string)
    requires |d| == 10 && AllDigits(d)
    ensures NormalizePhone(Some(d)) == Some("+7" + d)
    ensures NormalizePhone(Some("8" + d)) == Some("+7" + d)
    ensures NormalizePhone(Some("7" + d)) == Some("+7" + d)
  {
    assert AllDigits("8" + d) && AllDigits("7" + d);
    DigitsOfDigits(d);
    DigitsOfDigits("8" + d);
    DigitsOfDigits("7" + d);
    assert ("8" + d)[1..] == d;
    assert "+" + ("7" + d) == "+7" + d;
  }

  /** LowerChar neither creates nor removes white space. */
  lemma LowerCharSpace(c: char)
    ensures IsSpace(LowerChar(c)) <==> IsSpace(c)
  {
  }

  /** Lower-casing a trimmed string leaves it trimmed. */
  lemma LowerTrimmed(t: string)
    requires Trim(t) == t
    ensures Trim(Lower(t)) == Lower(t)
    ensures forall k :: 0 <= k < |Lower(t)| ==> !IsUpper(Lower(t)[k])
  {
    if t != [] {
      LowerCharSpace(t[0]);
      LowerCharSpace(t[|t| - 1]);
    }
    TrimNoSpace(Lower(t));
  }

  /** `normalizeEmail`: a non-empty address trimmed and lower-cased, else `null`. */
  function NormalizeEmail(email: Option<string>): (r: Option<string>)
    ensures r.None? <==> !Filled(email)
    ensures r.Some? ==> Trim(r.value) == r.value && forall k :: 0 <= k < |r.value| ==> !IsUpper(r.value[k])
  {
    if Filled(email) then
      TrimIdempotent(email.value);
      LowerTrimmed(Trim(email.value));
      Some(Lower(Trim(email.value)))
    else None
  }

  /** An address that normalises to a non-empty string normalises to itself again. */
  lemma NormalizeEmailIdempotent(email: Option<string>)
    requires Filled(NormalizeEmail(email))
    ensures NormalizeEmail(NormalizeEmail(email)) == NormalizeEmail(email)
  {
    var l := NormalizeEmail(email).value;
    assert Lower(l) == l;
  }

  /** `username?.trim()?.replace(/^@/, '') || null`: trimmed, one leading `@` dropped, empty is `null`. */
  function NormalizeUsername(username: Option<string>): (r: Option<string>)
    ensures r.Some? ==> r.value != []
    ensures r.Some? ==> username.Some? && (r.value == Trim(username.value) || "@" + r.value == Trim(username.value))
  {
    if username.None? then None
    else
      var t := Trim(username.value);
      var u := if t != [] && t[0] == '@' then t[1..] else t;
      assert t != [] && t[0] == '@' ==> t == "@" + u;
      if u == [] then None else Some(u)
  }

  /** `@name` and `name` name the same account. */
  lemma UsernameAtSign(n: string)
    requires n != [] && Trim(n) == n && n[0] != '@'
    ensures NormalizeUsername(Some("@" + n)) == Some(n)
    ensures NormalizeUsername(Some(n)) == Some(n)
  {
    var a := "@" + n;
    assert a[0] == '@' && a[|a| - 1] == n[|n| - 1];
    assert !IsSpace(n[|n| - 1]);
    TrimNoSpace(a);
    assert a[1..] == n;
  }

  /** The truthy names among `[first, last]`, in order. */
  function NameParts(first: Option<string>, last: Option<string>): (parts: seq<string>)
    ensures forall k :: 0 <= k < |parts| ==> parts[k] != []
  {
    (if Filled(first) then [first.value] else []) + (if Filled(last) then [last.value] else [])
  }

  /**
   * `buildFullName`: the truthy parts of first and last name joined by a space
   * and trimmed (which may leave an empty string); without any, the trimmed
   * fallback, or `null` when that is missing or blank.
   */
  function BuildFullName(first: Option<string>, last: Option<string>, fallback: Option<string>): (r: Option<string>)
    ensures r.Some? ==> Trim(r.value) == r.value
    ensures r.None? <==> NameParts(first, last) == [] && (fallback.None? || Trim(fallback.value) == [])
    ensures NameParts(first, last) == [] && r.Some? ==> r == Some(Trim(fallback.value))
  {
    var parts := NameParts(first, last);
    TrimIdempotent(Join(parts, " "));
    if |parts| > 0 then Some(Trim(Join(parts, " ")))
    else if fallback.Some? && Trim(fallback.value) != [] then
      TrimIdempotent(fallback.value);
      Some(Trim(fallback.value))
    else None
  }

  /** Trimmed first and last names give "first last". */
  lemma FullNameOfBoth(f: string, l: string, fallback: Option<string>)
    requires f != [] && Trim(f) == f && l != [] && Trim(l) == l
    ensures BuildFullName(Some(f), Some(l), fallback) == Some(f + " " + l)
  {
    var s := f + " " + l;
    assert NameParts(Some(f), Some(l)) == [f, l];
    assert Join([f, l], " ") == s by {
      assert [f, l][1..] == [l];
    }
    assert s[0] == f[0] && s[|s| - 1] == l[|l| - 1];
    assert !IsSpace(f[0]) && !IsSpace(l[|l| - 1]);
    TrimNoSpace(s);
  }

  // ---------------------------------------------------------------- candidates

  /** What the caller knows about the person to match. */
  datatype Intent = Intent(
    email: Option<string>, phone: Option<string>, username: Option<string>, tgUserId: Option<int>,
    fullName: Option<string>, firstName: Option<string>, lastName: Option<string>)

  /** The normalised search keys `findMatches` derives from the intent. */
  datatype Query = Query(
    email: Option<string>, phone: Option<string>, username: Option<string>, tgUserId: Option<int>,
    fullName: Option<string>)

  function QueryOf(intent: Intent): Query {
    Query(NormalizeEmail(intent.email), NormalizePhone(intent.phone), NormalizeUsername(intent.username),
          intent.tgUserId, BuildFullName(intent.firstName, intent.lastName, intent.fullName))
  }

  /** A participant row as the queries return it. */
  datatype Row = Row(
    id: string, orgId: string, fullName: Option<string>, firstName: Option<string>, lastName: Option<string>,
    email: Option<string>, phone: Option<string>, username: Option<string>, tgUserId: Option<int>,
    source: Option<string>, status: Option<string>, mergedInto: Option<string>)

  /** A returned match: the row, its capped score and the reasons it matched for. */
  datatype Candidate = Candidate(row: Row, matchScore: int, reasons: seq<Reason>)

  /** The reasons `findMatches` records; Label gives the text it stores for each. */
  datatype Reason = ExactEmail | ExactPhone | SameUsername | SameTelegramId | SimilarName

  function Label(r: Reason): string {
    match r
    case ExactEmail => "Точный e-mail"
    case ExactPhone => "Точный телефон"
    case SameUsername => "Совпадает username"
    case SameTelegramId => "Совпадает Telegram ID"
    case SimilarName => "Похожее имя"
  }

  /** Distinct reasons have distinct labels. */
  lemma LabelsDistinct(a: Reason, b: Reason)
    requires a != b
    ensures Label(a) != Label(b)
  {
    assert Label(a)[0..2] != Label(b)[0..2] || Label(a)[|Label(a)| - 1] != Label(b)[|Label(b)| - 1];
  }

  /** The weight each reason is added with. */
  function Weight(reason: Reason): (w: int)
    ensures w > 0
  {
    match reason
    case ExactEmail => 60
    case ExactPhone => 65
    case SameUsername => 55
    case SameTelegramId => 70
    case SimilarName => 20
  }

  function WeightSum(reasons: seq<Reason>): int {
    if reasons == [] then 0 else WeightSum(reasons[..|reasons| - 1]) + Weight(reasons[|reasons| - 1])
  }
  /**
   * One call of `addReason(row, reason, weight)`; every call site passes the
   * weight Weight gives its reason.
   */
  datatype Event = Event(row: Row, reason: Reason)

  /** When the exact-match callback adds `reason` for `row` (a Telegram id of 0 is falsy). */
  predicate Hit(q: Query, row: Row, reason: Reason) {
    match reason
    case ExactEmail => Filled(q.email) && row.email == q.email
    case ExactPhone => Filled(q.phone) && row.phone == q.phone
    case SameUsername => Filled(q.username) && row.username == q.username
    case SameTelegramId => q.tgUserId.Some? && q.tgUserId.value != 0 && row.tgUserId == q.tgUserId
    case SimilarName => false
  }

  function HitEvents(q: Query, row: Row, reason: Reason): seq<Event> {
    if Hit(q, row, reason) then [Event(row, reason)] else []
  }

  /** The `addReason` calls the exact-match callback makes for one row, in order. */
  function RowEvents(q: Query, row: Row): seq<Event> {
    HitEvents(q, row, ExactEmail) + HitEvents(q, row, ExactPhone)
    + HitEvents(q, row, SameUsername) + HitEvents(q, row, SameTelegramId)
  }

  function ExactEvents(q: Query, rows: seq<Row>): seq<Event> {
    if rows == [] then [] else RowEvents(q, rows[0]) + ExactEvents(q, rows[1..])
  }

  function FuzzyEvents(rows: seq<Row>): (evs: seq<Event>)
    ensures |evs| == |rows|
    ensures forall k :: 0 <= k < |rows| ==> evs[k] == Event(rows[k], SimilarName)
  {
    seq(|rows|, k requires 0 <= k < |rows| => Event(rows[k], SimilarName))
  }

  /** The exact query runs when any contact key is truthy (a Telegram id of 0 is not). */
  predicate ExactActive(q: Query) {
    Filled(q.email) || Filled(q.phone) || Filled(q.username) || (q.tgUserId.Some? && q.tgUserId.value != 0)
  }

  /** The fuzzy query runs for a name of at least three characters. */
  predicate FuzzyActive(q: Query) {
    q.fullName.Some? && |q.fullName.value| >= 3
  }

  /** Every `addReason` call of one `findMatches`, in order. */
  function AllEvents(q: Query, exact: seq<Row>, fuzzy: seq<Row>): seq<Event> {
    (if ExactActive(q) then ExactEvents(q, exact) else []) + (if FuzzyActive(q) then FuzzyEvents(fuzzy) else [])
  }

  /**
   * The three maps of `findMatches`: the candidate map (in insertion order, as
   * a JavaScript Map iterates it), the reasons and the scores by id.
   */
  datatype Table = Table(cands: seq<Row>, reasons: map<string, seq<Reason>>, scores: map<string, int>)

  const EmptyTable := Table([], map[], map[])

  /** The position of the candidate with this id, -1 when there is none. */
  function Slot(cands: seq<Row>, id: string): (k: int)
    ensures -1 <= k < |cands|
    ensures k >= 0 ==> cands[k].id == id
    ensures k < 0 ==> forall j :: 0 <= j < |cands| ==> cands[j].id != id
  {
    if cands == [] then -1
    else if cands[0].id == id then 0
    else
      var k := Slot(cands[1..], id);
      if k < 0 then -1 else k + 1
  }

  function ReasonsOf(t: Table, id: string): seq<Reason> {
    if id in t.reasons then t.reasons[id] else []
  }

  function ScoreOf(t: Table, id: string): int {
    if id in t.scores then t.scores[id] else 0
  }

  /** `addReason`: append the reason, add its weight, and (re)place the row, keeping its first position. */
  function Add(t: Table, e: Event): Table {
    var id := e.row.id;
    var k := Slot(t.cands, id);
    Table(if k < 0 then t.cands + [e.row] else t.cands[k := e.row],
          t.reasons[id := ReasonsOf(t, id) + [e.reason]],
          t.scores[id := ScoreOf(t, id) + Weight(e.reason)])
  }

  function Run(t: Table, evs: seq<Event>): Table
    decreases |evs|
  {
    if evs == [] then t else Run(Add(t, evs[0]), evs[1..])
  }

  /** Each candidate with `min(100, score)` and its reasons, in the candidate map's order. */
  function Results(t: Table): (rs: seq<Candidate>)
    ensures |rs| == |t.cands|
    ensures forall k :: 0 <= k < |rs| ==> rs[k].row == t.cands[k]
  {
    seq(|t.cands|, k requires 0 <= k < |t.cands| =>
      Candidate(t.cands[k], Min100(ScoreOf(t, t.cands[k].id)), ReasonsOf(t, t.cands[k].id)))
  }

  function Min100(x: int): int {
    if x < 100 then x else 100
  }

  function ScoreKey(c: Candidate): int {
    c.matchScore
  }

  /** What `findMatches` returns for the normalised keys `q`. */
  function MatchesFor(q: Query, exact: seq<Row>, fuzzy: seq<Row>): seq<Candidate> {
    Sorting.SortDesc(Results(Run(EmptyTable, AllEvents(q, exact, fuzzy))), ScoreKey)
  }

  function Matches(intent: Intent, exact: seq<Row>, fuzzy: seq<Row>): seq<Candidate> {
    MatchesFor(QueryOf(intent), exact, fuzzy)
  }

  // ---------------------------------------------------------------- findMatches

  /** The exact-match callback for one row. */
  method AddRowReasons(q: Query, row: Row, t: Table) returns (t': Table)
    ensures t' == Run(t, RowEvents(q, row))
  {
    t' := t;
    if Hit(q, row, ExactEmail) {
      t' := Add(t', Event(row, ExactEmail));
    }
    RunHit(t, q, row, ExactEmail);
    ghost var t1 := t';
    if Hit(q, row, ExactPhone) {
      t' := Add(t', Event(row, ExactPhone));
    }
    RunHit(t1, q, row, ExactPhone);
    ghost var t2 := t';
    if Hit(q, row, SameUsername) {
      t' := Add(t', Event(row, SameUsername));
    }
    RunHit(t2, q, row, SameUsername);
    ghost var t3 := t';
    if Hit(q, row, SameTelegramId) {
      t' := Add(t', Event(row, SameTelegramId));
    }
    RunHit(t3, q, row, SameTelegramId);
    ghost var e1, e2, e3 := HitEvents(q, row, ExactEmail), HitEvents(q, row, ExactPhone), HitEvents(q, row, SameUsername);
    RunAppend(t, e1, e2);
    RunAppend(t, e1 + e2, e3);
    RunAppend(t, e1 + e2 + e3, HitEvents(q, row, SameTelegramId));
  }

  /** The `forEach` over the exact matches. */
  method AddExactRows(q: Query, rows: seq<Row>, t: Table) returns (t': Table)
    ensures t' == Run(t, ExactEvents(q, rows))
  {
    t' := t;
    var i := 0;
    assert rows[0..] == rows;
    while i < |rows|
      invariant 0 <= i <= |rows|
      invariant Run(t', ExactEvents(q, rows[i..])) == Run(t, ExactEvents(q, rows))
    {
      assert rows[i..][0] == rows[i] && rows[i..][1..] == rows[i + 1..];
      RunAppend(t', RowEvents(q, rows[i]), ExactEvents(q, rows[i + 1..]));
      t' := AddRowReasons(q, rows[i], t');
      i := i + 1;
    }
    assert rows[i..] == [];
  }

  /** The `forEach` over the fuzzy matches. */
  method AddFuzzyRows(rows: seq<Row>, t: Table) returns (t': Table)
    ensures t' == Run(t, FuzzyEvents(rows))
  {
    t' := t;
    var j := 0;
    assert FuzzyEvents(rows)[0..] == FuzzyEvents(rows);
    while j < |rows|
      invariant 0 <= j <= |rows|
      invariant Run(t', FuzzyEvents(rows)[j..]) == Run(t, FuzzyEvents(rows))
    {
      ghost var evs := FuzzyEvents(rows)[j..];
      assert evs[0] == Event(rows[j], SimilarName) && evs[1..] == FuzzyEvents(rows)[j + 1..];
      t' := Add(t', Event(rows[j], SimilarName));
      j := j + 1;
    }
    assert FuzzyEvents(rows)[j..] == [];
  }

  /** The two `forEach` loops of `findMatches`, filling the maps from empty. */
  method CollectReasons(q: Query, exact: seq<Row>, fuzzy: seq<Row>) returns (t: Table)
    ensures t == Run(EmptyTable, AllEvents(q, exact, fuzzy))
  {
    ghost var a: seq<Event> := if ExactActive(q) then ExactEvents(q, exact) else [];
    ghost var b: seq<Event> := if FuzzyActive(q) then FuzzyEvents(fuzzy) else [];
    t := EmptyTable;
    if ExactActive(q) {
      t := AddExactRows(q, exact, t);
    }
    assert t == Run(EmptyTable, a);
    if FuzzyActive(q) {
      t := AddFuzzyRows(fuzzy, t);
    }
    RunAppend(EmptyTable, a, b);
  }

  /** `findMatches`, over the rows the two queries return. */
  method FindMatches(intent: Intent, exact: seq<Row>, fuzzy: seq<Row>) returns (results: seq<Candidate>)
    ensures results == Matches(intent, exact, fuzzy)
  {
    var q := QueryOf(intent);
    var t := CollectReasons(q, exact, fuzzy);
    results := Sorting.SortDesc(Results(t), ScoreKey);
  }

  // ---------------------------------------------------------------- properties

  lemma RunHit(t: Table, q: Query, row: Row, reason: Reason)
    ensures Run(t, HitEvents(q, row, reason)) == if Hit(q, row, reason) then Add(t, Event(row, reason)) else t
  {
    if Hit(q, row, reason) {
      assert HitEvents(q, row, reason)[1..] == [];
    }
  }

  lemma {:induction false} RunAppend(t: Table, a: seq<Event>, b: seq<Event>)
    ensures Run(t, a + b) == Run(Run(t, a), b)
    decreases |a|
  {
    if a != [] {
      assert (a + b)[0] == a[0] && (a + b)[1..] == a[1..] + b;
      RunAppend(Add(t, a[0]), a[1..], b);
    } else {
      assert a + b == b;
    }
  }

  /** The ids of the candidates. */
  function Ids(cands: seq<Row>): set<string> {
    set j | 0 <= j < |cands| :: cands[j].id
  }

  /** The ids the events are for. */
  function EventIds(evs: seq<Event>): set<string> {
    set k | 0 <= k < |evs| :: evs[k].row.id
  }

  /** No two candidates share an id. */
  predicate DistinctIds(cands: seq<Row>) {
    forall i, j :: 0 <= i < j < |cands| ==> cands[i].id != cands[j].id
  }

  /** `addReason` adds the event's id to the candidates and, placing the row in its slot, keeps ids distinct. */
  lemma AddIds(t: Table, e: Event)
    ensures Ids(Add(t, e).cands) == Ids(t.cands) + {e.row.id}
    ensures DistinctIds(t.cands) ==> DistinctIds(Add(t, e).cands)
  {
    var c := t.cands;
    var c' := Add(t, e).cands;
    var k := Slot(c, e.row.id);
    forall x | x in Ids(c')
      ensures x in Ids(c) + {e.row.id}
    {
      var j :| 0 <= j < |c'| && c'[j].id == x;
      if j < |c| && (k < 0 || j != k) {
        assert c[j].id == x;
      }
    }
    forall x | x in Ids(c) + {e.row.id}
      ensures x in Ids(c')
    {
      if x == e.row.id {
        if k < 0 {
          assert c'[|c|].id == x;
        } else {
          assert c'[k].id == x;
        }
      } else {
        var j :| 0 <= j < |c| && c[j].id == x;
        assert c'[j].id == x;
      }
    }
  }

  /** Every reason list is non-empty and every score the sum of its reasons' weights. */
  ghost predicate Scored(t: Table) {
    t.scores.Keys == t.reasons.Keys
    && forall id :: id in t.reasons ==> t.reasons[id] != [] && t.scores[id] == WeightSum(t.reasons[id])
  }

  /**
   * The bookkeeping `findMatches` keeps: one candidate per id, a reason list and
   * a score for exactly the candidates, every score the sum of its reasons' weights.
   */
  ghost predicate Consistent(t: Table) {
    DistinctIds(t.cands) && t.reasons.Keys == Ids(t.cands) && Scored(t)
  }

  lemma AddScored(t: Table, e: Event)
    requires Scored(t)
    ensures Scored(Add(t, e))
  {
    var rs := ReasonsOf(t, e.row.id) + [e.reason];
    assert rs[..|rs| - 1] == ReasonsOf(t, e.row.id);
  }

  /** `addReason` keeps the bookkeeping consistent. */
  lemma AddConsistent(t: Table, e: Event)
    requires Consistent(t)
    ensures Consistent(Add(t, e))
  {
    AddIds(t, e);
    AddScored(t, e);
  }

  lemma {:induction false} RunConsistent(t: Table, evs: seq<Event>)
    requires Consistent(t)
    ensures Consistent(Run(t, evs))
    decreases |evs|
  {
    if evs != [] {
      AddConsistent(t, evs[0]);
      RunConsistent(Add(t, evs[0]), evs[1..]);
    }
  }

  /** A run adds exactly the ids of its events to the candidates. */
  lemma {:induction false} RunIds(t: Table, evs: seq<Event>)
    ensures Ids(Run(t, evs).cands) == Ids(t.cands) + EventIds(evs)
    decreases |evs|
  {
    if evs != [] {
      AddIds(t, evs[0]);
      RunIds(Add(t, evs[0]), evs[1..]);
      assert EventIds(evs) == {evs[0].row.id} + EventIds(evs[1..]) by {
        forall x | x in EventIds(evs) ensures x in {evs[0].row.id} + EventIds(evs[1..]) {
          var k :| 0 <= k < |evs| && evs[k].row.id == x;
          if k > 0 {
            assert evs[1..][k - 1].row.id == x;
          }
        }
        forall x | x in EventIds(evs[1..]) ensures x in EventIds(evs) {
          var k :| 0 <= k < |evs[1..]| && evs[1..][k].row.id == x;
          assert evs[k + 1].row.id == x;
        }
        assert evs[0].row.id in EventIds(evs);
      }
    }
  }

  /** The reasons one id collects over a run: those of the events for that id, in order. */
  function ReasonsFor(evs: seq<Event>, id: string): seq<Reason> {
    if evs == [] then []
    else (if evs[0].row.id == id then [evs[0].reason] else []) + ReasonsFor(evs[1..], id)
  }

  lemma {:induction false} RunReasons(t: Table, evs: seq<Event>, id: string)
    ensures ReasonsOf(Run(t, evs), id) == ReasonsOf(t, id) + ReasonsFor(evs, id)
    decreases |evs|
  {
    if evs != [] {
      RunReasons(Add(t, evs[0]), evs[1..], id);
    }
  }

  lemma {:induction false} ReasonsForAppend(a: seq<Event>, b: seq<Event>, id: string)
    ensures ReasonsFor(a + b, id) == ReasonsFor(a, id) + ReasonsFor(b, id)
  {
    if a != [] {
      assert (a + b)[0] == a[0] && (a + b)[1..] == a[1..] + b;
      ReasonsForAppend(a[1..], b, id);
    } else {
      assert a + b == b;
    }
  }

  lemma {:induction false} WeightSumPositive(rs: seq<Reason>)
    requires rs != []
    ensures WeightSum(rs) > 0
  {
    if |rs| > 1 {
      WeightSumPositive(rs[..|rs| - 1]);
    }
  }

  /** What a consistent table reports for one of its candidates. */
  lemma ResultOfTable(t: Table, c: Candidate)
    requires Consistent(t) && c in Results(t)
    ensures c.reasons == ReasonsOf(t, c.row.id) && c.reasons != []
    ensures c.matchScore == Min100(WeightSum(c.reasons))
  {
    var k :| 0 <= k < |Results(t)| && Results(t)[k] == c;
    assert c.row == t.cands[k];
    assert c.row.id in Ids(t.cands);
  }

  /** Best match first, and exactly the candidates collected. */
  lemma MatchesOrdered(q: Query, exact: seq<Row>, fuzzy: seq<Row>)
    ensures Sorting.SortedDesc(MatchesFor(q, exact, fuzzy), ScoreKey)
    ensures multiset(MatchesFor(q, exact, fuzzy)) == multiset(Results(Run(EmptyTable, AllEvents(q, exact, fuzzy))))
  {
    Sorting.SortDescCorrect(Results(Run(EmptyTable, AllEvents(q, exact, fuzzy))), ScoreKey);
  }

  /**
   * Every returned candidate matched for at least one reason, reports the
   * reasons of the `addReason` calls for its id in order, and scores the sum of
   * their weights capped at 100.
   */
  lemma MatchScores(q: Query, exact: seq<Row>, fuzzy: seq<Row>, c: Candidate)
    requires c in MatchesFor(q, exact, fuzzy)
    ensures c.reasons == ReasonsFor(AllEvents(q, exact, fuzzy), c.row.id) && c.reasons != []
    ensures c.matchScore == Min100(WeightSum(c.reasons))
    ensures 0 < c.matchScore <= 100
  {
    var evs := AllEvents(q, exact, fuzzy);
    var t := Run(EmptyTable, evs);
    RunConsistent(EmptyTable, evs);
    MatchesOrdered(q, exact, fuzzy);
    assert c in multiset(Results(t));
    ResultOfTable(t, c);
    RunReasons(EmptyTable, evs, c.row.id);
    WeightSumPositive(c.reasons);
  }

  /** Two lists with the same elements hold a candidate for the same ids. */
  lemma SameElementsIds(ms: seq<Candidate>, rs: seq<Candidate>, id: string)
    requires multiset(ms) == multiset(rs)
    ensures (exists k :: 0 <= k < |ms| && ms[k].row.id == id) <==> (exists j :: 0 <= j < |rs| && rs[j].row.id == id)
  {
    if exists k :: 0 <= k < |ms| && ms[k].row.id == id {
      var k :| 0 <= k < |ms| && ms[k].row.id == id;
      assert ms[k] in multiset(rs);
      var j :| 0 <= j < |rs| && rs[j] == ms[k];
    }
    if exists j :: 0 <= j < |rs| && rs[j].row.id == id {
      var j :| 0 <= j < |rs| && rs[j].row.id == id;
      assert rs[j] in multiset(ms);
      var k :| 0 <= k < |ms| && ms[k] == rs[j];
    }
  }

  lemma ResultsIds(t: Table, id: string)
    ensures (exists j :: 0 <= j < |Results(t)| && Results(t)[j].row.id == id) <==> id in Ids(t.cands)
  {
    if id in Ids(t.cands) {
      var j :| 0 <= j < |t.cands| && t.cands[j].id == id;
      assert Results(t)[j].row.id == id;
    }
  }

  /** A participant is returned exactly when some `addReason` call was for it. */
  lemma MatchedIds(q: Query, exact: seq<Row>, fuzzy: seq<Row>, id: string)
    ensures (exists k :: 0 <= k < |MatchesFor(q, exact, fuzzy)| && MatchesFor(q, exact, fuzzy)[k].row.id == id)
        <==> id in EventIds(AllEvents(q, exact, fuzzy))
  {
    var evs := AllEvents(q, exact, fuzzy);
    var t := Run(EmptyTable, evs);
    RunIds(EmptyTable, evs);
    MatchesOrdered(q, exact, fuzzy);
    SameElementsIds(MatchesFor(q, exact, fuzzy), Results(t), id);
    ResultsIds(t, id);
  }

  lemma HitReasons(q: Query, row: Row, id: string, reason: Reason)
    ensures ReasonsFor(HitEvents(q, row, reason), id) == if row.id == id && Hit(q, row, reason) then [reason] else []
  {
    if Hit(q, row, reason) {
      assert HitEvents(q, row, reason)[1..] == [];
    }
  }

  /** The exact-match callback adds a contact reason for a row exactly when that contact matches. */
  lemma RowReason(q: Query, row: Row, id: string, reason: Reason)
    ensures reason in ReasonsFor(RowEvents(q, row), id) <==> row.id == id && Hit(q, row, reason)
  {
    var e1, e2, e3 := HitEvents(q, row, ExactEmail), HitEvents(q, row, ExactPhone), HitEvents(q, row, SameUsername);
    var e4 := HitEvents(q, row, SameTelegramId);
    ReasonsForAppend(e1, e2, id);
    ReasonsForAppend(e1 + e2, e3, id);
    ReasonsForAppend(e1 + e2 + e3, e4, id);
    HitReasons(q, row, id, ExactEmail);
    HitReasons(q, row, id, ExactPhone);
    HitReasons(q, row, id, SameUsername);
    HitReasons(q, row, id, SameTelegramId);
    var l1, l2, l3, l4 := ReasonsFor(e1, id), ReasonsFor(e2, id), ReasonsFor(e3, id), ReasonsFor(e4, id);
    assert ReasonsFor(RowEvents(q, row), id) == l1 + l2 + l3 + l4;
    InFour(reason, l1, l2, l3, l4);
  }

  lemma InFour<T>(x: T, l1: seq<T>, l2: seq<T>, l3: seq<T>, l4: seq<T>)
    ensures x in l1 + l2 + l3 + l4 <==> x in l1 || x in l2 || x in l3 || x in l4
  {
  }

  lemma {:induction false} ExactReason(q: Query, rows: seq<Row>, id: string, reason: Reason)
    ensures reason in ReasonsFor(ExactEvents(q, rows), id)
        <==> exists k :: 0 <= k < |rows| && rows[k].id == id && Hit(q, rows[k], reason)
  {
    if rows != [] {
      ExactReason(q, rows[1..], id, reason);
      ReasonsForAppend(RowEvents(q, rows[0]), ExactEvents(q, rows[1..]), id);
      RowReason(q, rows[0], id, reason);
      if exists k :: 0 <= k < |rows| && rows[k].id == id && Hit(q, rows[k], reason) {
        var k :| 0 <= k < |rows| && rows[k].id == id && Hit(q, rows[k], reason);
        if k > 0 {
          assert rows[1..][k - 1] == rows[k];
        }
      }
      if exists k :: 0 <= k < |rows[1..]| && rows[1..][k].id == id && Hit(q, rows[1..][k], reason) {
        var k :| 0 <= k < |rows[1..]| && rows[1..][k].id == id && Hit(q, rows[1..][k], reason);
        assert rows[k + 1] == rows[1..][k];
      }
    }
  }

  lemma {:induction false} FuzzyReason(rows: seq<Row>, id: string, reason: Reason)
    ensures reason in ReasonsFor(FuzzyEvents(rows), id)
        <==> reason == SimilarName && exists k :: 0 <= k < |rows| && rows[k].id == id
  {
    if rows != [] {
      assert FuzzyEvents(rows)[1..] == FuzzyEvents(rows[1..]);
      FuzzyReason(rows[1..], id, reason);
      if exists k :: 0 <= k < |rows| && rows[k].id == id {
        var k :| 0 <= k < |rows| && rows[k].id == id;
        if k > 0 {
          assert rows[1..][k - 1] == rows[k];
        }
      }
      if exists k :: 0 <= k < |rows[1..]| && rows[1..][k].id == id {
        var k :| 0 <= k < |rows[1..]| && rows[1..][k].id == id;
        assert rows[k + 1] == rows[1..][k];
      }
    }
  }

  /**
   * A returned candidate carries a contact reason exactly when one of the exact
   * rows for its id matches on that contact, and the similar-name reason exactly
   * when the name was long enough to search and a fuzzy row was for its id.
   */
  lemma ReasonIff(q: Query, exact: seq<Row>, fuzzy: seq<Row>, c: Candidate, reason: Reason)
    requires c in MatchesFor(q, exact, fuzzy)
    ensures reason != SimilarName ==>
      (reason in c.reasons <==> exists k :: 0 <= k < |exact| && exact[k].id == c.row.id && Hit(q, exact[k], reason))
    ensures reason == SimilarName ==>
      (reason in c.reasons <==> FuzzyActive(q) && exists k :: 0 <= k < |fuzzy| && fuzzy[k].id == c.row.id)
  {
    MatchScores(q, exact, fuzzy, c);
    ReasonsForAppend(if ExactActive(q) then ExactEvents(q, exact) else [],
                     if FuzzyActive(q) then FuzzyEvents(fuzzy) else [], c.row.id);
    ExactReason(q, exact, c.row.id, reason);
    FuzzyReason(fuzzy, c.row.id, reason);
  }
}
