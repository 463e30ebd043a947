/**
 * The pure helpers of the GetCourse connector
 * (`lib/services/integrations/getcourse.ts`): where the users and the
 * pagination block sit in an API answer, how the pagination block decides
 * whether another page follows, the number and phone normalisers, and the
 * clipping of a raw payload before it is kept for debugging.
 */
module GetCourse {
  import opened Wrappers
  import opened Text
  import opened JsValues
  import ParticipantMatcher

  // ---------------------------------------------------------------- sanitizePayload

  const MaxStringLength := 500
  const MaxArrayItems := 5
  const MaxObjectKeys := 20
  const Ellipsis: char := '\U{2026}'

  /** `trimString`: a string longer than 500 keeps its first 500 characters and gains an ellipsis. */
  function TrimString(s: string): (r: string)
    ensures |s| <= MaxStringLength ==> r == s
    ensures |s| > MaxStringLength ==> |r| == MaxStringLength + 1 && r[..MaxStringLength] == s[..MaxStringLength]
                                      && r[MaxStringLength] == Ellipsis
  {
    if |s| > MaxStringLength then s[..MaxStringLength] + [Ellipsis] else s
  }

  function Min(a: int, b: int): int {
    if a < b then a else b
  }

  /**
   * `deepSanitize`: strings clipped, arrays cut to their first five items and
   * objects to their first twenty entries, at every depth; `null`,
   * `undefined`, numbers and booleans unchanged.
   */
  function Sanitize(v: JsValue): (r: JsValue)
    ensures v.Str? ==> r == Str(TrimString(v.s))
    ensures v.Arr? ==> r.Arr? && |r.items| == Min(|v.items|, MaxArrayItems)
                       && forall i :: 0 <= i < |r.items| ==> r.items[i] == Sanitize(v.items[i])
    ensures v.Obj? ==> r.Obj? && |r.props| == Min(|v.props|, MaxObjectKeys)
                       && forall i :: 0 <= i < |r.props| ==> r.props[i] == (v.props[i].0, Sanitize(v.props[i].1))
    ensures !v.Str? && !v.Arr? && !v.Obj? ==> r == v
    decreases v
  {
    match v
    case Str(s) => Str(TrimString(s))
    case Arr(items) =>
      Arr(seq(Min(|items|, MaxArrayItems), i requires 0 <= i < Min(|items|, MaxArrayItems) => Sanitize(items[i])))
    case Obj(props) =>
      Obj(seq(Min(|props|, MaxObjectKeys), i requires 0 <= i < Min(|props|, MaxObjectKeys) =>
        (props[i].0, Sanitize(props[i].1))))
    case _ => v
  }

  /** Within the limits a sanitized value keeps: strings of at most 501 characters, at most 5 items and 20 entries, everywhere. */
  predicate Bounded(v: JsValue)
    decreases v
  {
    match v
    case Str(s) => |s| <= MaxStringLength + 1
    case Arr(items) => |items| <= MaxArrayItems && forall i :: 0 <= i < |items| ==> Bounded(items[i])
    case Obj(props) => |props| <= MaxObjectKeys && forall i :: 0 <= i < |props| ==> Bounded(props[i].1)
    case _ => true
  }

  /** Already small enough: strings of at most 500 characters, at most 5 items and 20 entries, everywhere. */
  predicate Small(v: JsValue)
    decreases v
  {
    match v
    case Str(s) => |s| <= MaxStringLength
    case Arr(items) => |items| <= MaxArrayItems && forall i :: 0 <= i < |items| ==> Small(items[i])
    case Obj(props) => |props| <= MaxObjectKeys && forall i :: 0 <= i < |props| ==> Small(props[i].1)
    case _ => true
  }

  /** Every sanitized payload is within the limits. */
  lemma {:induction false} SanitizeBounded(v: JsValue)
    ensures Bounded(Sanitize(v))
    decreases v
  {
    match v
    case Arr(items) =>
      forall i | 0 <= i < |Sanitize(v).items| ensures Bounded(Sanitize(v).items[i]) {
        SanitizeBounded(items[i]);
      }
    case Obj(props) =>
      forall i | 0 <= i < |Sanitize(v).props| ensures Bounded(Sanitize(v).props[i].1) {
        SanitizeBounded(props[i].1);
      }
    case _ =>
  }

  /** A payload already within the limits passes through unchanged. */
  lemma {:induction false} SanitizeKeepsSmall(v: JsValue)
    requires Small(v)
    ensures Sanitize(v) == v
    decreases v
  {
    match v
    case Arr(items) =>
      forall i | 0 <= i < |items| ensures Sanitize(v).items[i] == items[i] {
        SanitizeKeepsSmall(items[i]);
      }
    case Obj(props) =>
      forall i | 0 <= i < |props| ensures Sanitize(v).props[i] == props[i] {
        SanitizeKeepsSmall(props[i].1);
      }
    case _ =>
  }

  /** Sanitizing twice is sanitizing once: a clipped string with its ellipsis is clipped to itself. */
  lemma {:induction false} SanitizeIdempotent(v: JsValue)
    ensures Sanitize(Sanitize(v)) == Sanitize(v)
    decreases v
  {
    match v
    case Str(s) =>
      if |s| > MaxStringLength {
        var t := TrimString(s);
        assert t[..MaxStringLength] == s[..MaxStringLength];
        assert TrimString(t) == t;
      }
    case Arr(items) =>
      var r := Sanitize(v);
      forall i | 0 <= i < |r.items| ensures Sanitize(r.items[i]) == r.items[i] {
        SanitizeIdempotent(items[i]);
      }
    case Obj(props) =>
      var r := Sanitize(v);
      forall i | 0 <= i < |r.props| ensures Sanitize(r.props[i].1) == r.props[i].1 {
        SanitizeIdempotent(props[i].1);
      }
    case _ =>
  }

  // ---------------------------------------------------------------- extractUsers, extractPagination

  /** Where `extractUsers` looks for the user list, in order: `users`, `data`, `result`, `result.users`, `data.users`. */
  function UserSources(payload: JsValue): (vs: seq<JsValue>)
    ensures |vs| == 5
  {
    [Get(payload, "users"), Get(payload, "data"), Get(payload, "result"),
     Get(Get(payload, "result"), "users"), Get(Get(payload, "data"), "users")]
  }

  /** `extractUsers`: the first of the places that holds an array, else nothing. */
  function ExtractUsers(payload: JsValue): (r: seq<JsValue>)
    ensures !Truthy(payload) ==> r == []
    ensures Truthy(payload) && (forall k :: 0 <= k < 5 ==> !UserSources(payload)[k].Arr?) ==> r == []
    ensures Truthy(payload) && (exists k :: 0 <= k < 5 && UserSources(payload)[k].Arr?) ==>
      exists k :: 0 <= k < 5 && UserSources(payload)[k] == Arr(r) && forall j :: 0 <= j < k ==> !UserSources(payload)[j].Arr?
  {
    var vs := UserSources(payload);
    if !Truthy(payload) then []
    else if vs[0].Arr? then vs[0].items
    else if vs[1].Arr? then vs[1].items
    else if vs[2].Arr? then vs[2].items
    else if vs[3].Arr? then vs[3].items
    else if vs[4].Arr? then vs[4].items
    else []
  }

  /** Where `extractPagination` looks, in order: `info`, `meta.pagination`, `pagination`. */
  function PageSources(payload: JsValue): (vs: seq<JsValue>)
    ensures |vs| == 3
  {
    [Get(payload, "info"), Get(Get(payload, "meta"), "pagination"), Get(payload, "pagination")]
  }

  /** A pagination block is accepted when it is truthy and of type `object`. */
  predicate PageBlock(v: JsValue) {
    Truthy(v) && IsObjectType(v)
  }

  /** `extractPagination`: the first acceptable block, else `{}`. */
  function ExtractPagination(payload: JsValue): (r: JsValue)
    ensures !Truthy(payload) ==> r == Obj([])
    ensures Truthy(payload) && (forall k :: 0 <= k < 3 ==> !PageBlock(PageSources(payload)[k])) ==> r == Obj([])
    ensures Truthy(payload) && (exists k :: 0 <= k < 3 && PageBlock(PageSources(payload)[k])) ==>
      exists k :: 0 <= k < 3 && PageSources(payload)[k] == r && PageBlock(r)
                  && forall j :: 0 <= j < k ==> !PageBlock(PageSources(payload)[j])
  {
    var vs := PageSources(payload);
    if !Truthy(payload) then Obj([])
    else if PageBlock(vs[0]) then vs[0]
    else if PageBlock(vs[1]) then vs[1]
    else if PageBlock(vs[2]) then vs[2]
    else Obj([])
  }

  // ---------------------------------------------------------------- normalizeNumber, evaluatePagination

  /** `normalizeNumber`: a number as it is, a numeric string as its value, anything else `null`. */
  function NormalizeNumber(v: JsValue): (r: Option<int>)
    ensures v.Num? ==> r == Some(v.n)
    ensures v.Str? ==> r == StringToNumber(v.s)
    ensures !v.Num? && !v.Str? ==> r == None
  {
    match v
    case Num(n) => Some(n)
    case Str(s) => StringToNumber(s)
    case _ => None
  }

  /** A number written out as a string normalises to that number. */
  lemma NormalizeNumberString(i: int)
    ensures NormalizeNumber(Str(IntToString(i))) == Some(i)
  {
    IntToStringNumber(i);
  }

  /** `info[keys[0]] ?? info[keys[1]] ?? … ?? null`. */
  function FirstDefined(info: JsValue, keys: seq<string>): (r: JsValue)
    ensures !IsNullish(r) ==> exists k :: 0 <= k < |keys| && Get(info, keys[k]) == r
    ensures (forall k :: 0 <= k < |keys| ==> IsNullish(Get(info, keys[k]))) ==> r == Null
  {
    if keys == [] then Null
    else
      var rest := FirstDefined(info, keys[1..]);
      assert !IsNullish(rest) ==> exists k :: 0 <= k < |keys[1..]| && Get(info, keys[1..][k]) == rest;
      Coalesce(Get(info, keys[0]), rest)
  }

  function TotalOf(info: JsValue): Option<int> {
    NormalizeNumber(FirstDefined(info, ["total", "total_count", "totalCount", "count"]))
  }

  function PerPageOf(info: JsValue): Option<int> {
    NormalizeNumber(FirstDefined(info, ["per_page", "perPage", "per_page_count", "limit"]))
  }

  function TotalPagesOf(info: JsValue): Option<int> {
    NormalizeNumber(FirstDefined(info, ["total_pages", "totalPages", "pages"]))
  }

  /** `Boolean(info.has_more ?? info.hasMore ?? false)`. */
  predicate HasMoreFlag(info: JsValue) {
    Truthy(Coalesce(Get(info, "has_more"), Coalesce(Get(info, "hasMore"), Bool(false))))
  }

  datatype Page = Page(totalCount: Option<int>, pageSize: Option<int>, hasMore: bool)

  /**
   * `evaluatePagination`: a positive page count decides by the page number, then
   * a total with a positive page size, then an explicit flag, then a page size
   * compared with what arrived; without any of these, a full multiple of 100
   * rows suggests another page.
   */
  function EvaluatePagination(info: JsValue, received: nat, page: int): (r: Page)
    ensures r.totalCount == TotalOf(info)
    ensures TotalPagesOf(info).Some? && TotalPagesOf(info).value > 0 ==> r.hasMore == (page < TotalPagesOf(info).value)
    ensures !(TotalPagesOf(info).Some? && TotalPagesOf(info).value > 0)
            && TotalOf(info).Some? && PerPageOf(info).Some? && PerPageOf(info).value > 0
            ==> r.hasMore == (page * PerPageOf(info).value < TotalOf(info).value)
    ensures TotalPagesOf(info).None? && TotalOf(info).None? && PerPageOf(info).None? && !HasMoreFlag(info)
            ==> r == Page(None, Some(received), received > 0 && received % 100 == 0)
  {
    var total := TotalOf(info);
    var perPage := PerPageOf(info);
    var totalPages := TotalPagesOf(info);
    if totalPages.Some? && totalPages.value > 0 then Page(total, perPage, page < totalPages.value)
    else if total.Some? && perPage.Some? && perPage.value > 0 then
      Page(total, perPage, page * perPage.value < total.value)
    else if HasMoreFlag(info) then Page(total, Some(perPage.GetOr(received)), true)
    else if perPage.Some? && perPage.value > 0 then Page(total, perPage, received >= perPage.value)
    else Page(total, Some(received), received > 0 && received % 100 == 0)
  }

  /** Paging stops for good: if a later page still has more, so does every earlier one. */
  lemma HasMoreMonotone(info: JsValue, received: nat, p1: int, p2: int)
    requires p1 <= p2 && EvaluatePagination(info, received, p2).hasMore
    ensures EvaluatePagination(info, received, p1).hasMore
  {
    var total, perPage, totalPages := TotalOf(info), PerPageOf(info), TotalPagesOf(info);
    if !(totalPages.Some? && totalPages.value > 0) && total.Some? && perPage.Some? && perPage.value > 0 {
      MulMonotone(p1, p2, perPage.value);
    }
  }

  lemma MulMonotone(a: int, b: int, c: int)
    requires a <= b && c > 0
    ensures a * c <= b * c
  {
  }

  /** With a page count, the last page reports no more. */
  lemma LastPageEnds(info: JsValue, received: nat)
    requires TotalPagesOf(info).Some? && TotalPagesOf(info).value > 0
    ensures !EvaluatePagination(info, received, TotalPagesOf(info).value).hasMore
    ensures EvaluatePagination(info, received, TotalPagesOf(info).value - 1).hasMore
  {
  }

  // ---------------------------------------------------------------- normalizePhone

  /** The connector's own `normalizePhone`: the same rules as the matcher's, checked in another order. */
  function NormalizePhone(phone: Option<string>): (r: Option<string>)
    ensures r.None? <==> phone.None? || DigitsOf(phone.value) == []
  {
    if phone.None? || phone.value == [] then None
    else
      var d := DigitsOf(phone.value);
      if d == [] then None
      else if d[0] == '7' && |d| == 11 then Some("+" + d)
      else if |d| == 11 && d[0] == '8' then Some("+7" + d[1..])
      else if |d| == 10 then Some("+7" + d)
      else Some("+" + d)
  }

  /** The connector and the participant matcher normalise every phone alike. */
  lemma PhoneNormalisersAgree(phone: Option<string>)
    ensures NormalizePhone(phone) == ParticipantMatcher.NormalizePhone(phone)
  {
  }
}
