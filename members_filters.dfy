/**
 * The members sidebar (`components/members/members-filters-sidebar.tsx`):
 * the automatic engagement category of a participant, the per-category and
 * per-role counts, toggling a value in a filter list and the number of active
 * filters.
 *
 * Date parsing is the parameter `timeOf` (milliseconds since the epoch, None
 * for an invalid date, whose day difference is NaN) and the clock is `now`.
 */
module MembersFilters {
  import opened Wrappers

  // ---------------------------------------------------------------- getParticipantCategory

  datatype Category = Newcomer | Core | Experienced | Silent | Other | All

  /** The fields of a participant the sidebar reads. */
  datatype Participant = Participant(
    createdAt: Option<string>, lastActivityAt: Option<string>,
    realJoinDate: Option<string>, realLastActivity: Option<string>,
    activityScore: Option<int>, isOrgOwner: bool, isAdmin: bool)

  const DayMs := 1000 * 60 * 60 * 24
  /** The day count used for a missing date. */
  const MissingDays := 999

  /** The first truthy of two date strings (`a ? new Date(a) : b ? new Date(b) : null`). */
  function DateOf(a: Option<string>, b: Option<string>): Option<string> {
    if Filled(a) then a else if Filled(b) then b else None
  }

  /**
   * Milliseconds since a date, as the day difference times a day: a missing
   * date counts 999 days, an unparsable one is NaN (None), which no comparison
   * satisfies.
   */
  function ElapsedMs(date: Option<string>, now: int, timeOf: string -> Option<int>): Option<int> {
    if date.None? then Some(MissingDays * DayMs)
    else if timeOf(date.value).None? then None
    else Some(now - timeOf(date.value).value)
  }

  /** `elapsed / day > days` (and `<`) on the exact quotient, so in milliseconds. */
  predicate MoreThanDays(elapsed: Option<int>, days: int) {
    elapsed.Some? && elapsed.value > days * DayMs
  }

  predicate LessThanDays(elapsed: Option<int>, days: int) {
    elapsed.Some? && elapsed.value < days * DayMs
  }

  /** Silent: no activity for more than 30 days, or none at all and joined more than 7 days ago. */
  predicate IsSilent(p: Participant, now: int, timeOf: string -> Option<int>) {
    var joined := ElapsedMs(DateOf(p.realJoinDate, p.createdAt), now, timeOf);
    var active := DateOf(p.realLastActivity, p.lastActivityAt);
    MoreThanDays(ElapsedMs(active, now, timeOf), 30) || (active.None? && MoreThanDays(joined, 7))
  }

  /** `getParticipantCategory`: silent first, then newcomer, core, experienced, other. */
  function CategoryOf(p: Participant, now: int, timeOf: string -> Option<int>): (c: Category)
    ensures c != All
    ensures c == Silent <==> IsSilent(p, now, timeOf)
  {
    var joined := ElapsedMs(DateOf(p.realJoinDate, p.createdAt), now, timeOf);
    var score := p.activityScore.GetOr(0);
    if IsSilent(p, now, timeOf) then Silent
    else if LessThanDays(joined, 30) then Newcomer
    else if score >= 60 then Core
    else if score >= 30 then Experienced
    else Other
  }

  /** Past the silence test, the join date and then the score decide. */
  lemma CategoryLadder(p: Participant, now: int, timeOf: string -> Option<int>)
    requires !IsSilent(p, now, timeOf)
    ensures var joined := ElapsedMs(DateOf(p.realJoinDate, p.createdAt), now, timeOf);
            var score := p.activityScore.GetOr(0);
            CategoryOf(p, now, timeOf)
            == if LessThanDays(joined, 30) then Newcomer
               else if score >= 60 then Core else if score >= 30 then Experienced else Other
  {
  }

  /** A participant with no dates at all counts 999 days on both sides, so is silent. */
  lemma NoDatesIsSilent(p: Participant, now: int, timeOf: string -> Option<int>)
    requires !Filled(p.realJoinDate) && !Filled(p.createdAt) && !Filled(p.realLastActivity) && !Filled(p.lastActivityAt)
    ensures CategoryOf(p, now, timeOf) == Silent
  {
  }

  /** A participant active today who joined under 30 days ago is a newcomer whatever the score. */
  lemma RecentJoinerIsNewcomer(p: Participant, now: int, timeOf: string -> Option<int>)
    requires Filled(p.realJoinDate) && timeOf(p.realJoinDate.value) == Some(now)
    requires Filled(p.realLastActivity) && timeOf(p.realLastActivity.value) == Some(now)
    ensures CategoryOf(p, now, timeOf) == Newcomer
  {
  }

  // ---------------------------------------------------------------- categoryCounts, roleCounts

  datatype Counts = Counts(all: nat, newcomer: nat, core: nat, experienced: nat, silent: nat, other: nat)

  function Bump(c: Counts, cat: Category): Counts {
    match cat
    case Newcomer => c.(newcomer := c.newcomer + 1)
    case Core => c.(core := c.core + 1)
    case Experienced => c.(experienced := c.experienced + 1)
    case Silent => c.(silent := c.silent + 1)
    case Other => c.(other := c.other + 1)
    case All => c
  }

  /** The counts after the `forEach` over `ps`, starting from `all = |ps|`. */
  function CountsOf(ps: seq<Participant>, all: nat, now: int, timeOf: string -> Option<int>): Counts {
    if ps == [] then Counts(all, 0, 0, 0, 0, 0)
    else Bump(CountsOf(ps[..|ps| - 1], all, now, timeOf), CategoryOf(ps[|ps| - 1], now, timeOf))
  }

  function CategorySum(c: Counts): nat {
    c.newcomer + c.core + c.experienced + c.silent + c.other
  }

  /** `categoryCounts`. */
  method CategoryCounts(ps: seq<Participant>, now: int, timeOf: string -> Option<int>) returns (counts: Counts)
    ensures counts == CountsOf(ps, |ps|, now, timeOf)
  {
    counts := Counts(|ps|, 0, 0, 0, 0, 0);
    for i := 0 to |ps|
      invariant counts == CountsOf(ps[..i], |ps|, now, timeOf)
    {
      assert ps[..i + 1][..i] == ps[..i];
      counts := Bump(counts, CategoryOf(ps[i], now, timeOf));
    }
    assert ps[..|ps|] == ps;
  }

  /** Every participant lands in exactly one category: the five counts add up to `all`. */
  lemma {:induction false} CountsPartition(ps: seq<Participant>, now: int, timeOf: string -> Option<int>)
    ensures CountsOf(ps, |ps|, now, timeOf).all == |ps|
    ensures CategorySum(CountsOf(ps, |ps|, now, timeOf)) == |ps|
  {
    CountsSum(ps, |ps|, now, timeOf);
  }

  lemma {:induction false} CountsSum(ps: seq<Participant>, all: nat, now: int, timeOf: string -> Option<int>)
    ensures CountsOf(ps, all, now, timeOf).all == all
    ensures CategorySum(CountsOf(ps, all, now, timeOf)) == |ps|
  {
    if ps != [] {
      CountsSum(ps[..|ps| - 1], all, now, timeOf);
    }
  }

  predicate IsOwner(p: Participant) { p.isOrgOwner }
  predicate IsPlainAdmin(p: Participant) { p.isAdmin && !p.isOrgOwner }
  predicate IsMember(p: Participant) { !p.isAdmin && !p.isOrgOwner }

  function CountWhere(ps: seq<Participant>, f: Participant -> bool): (n: nat)
    ensures n <= |ps|
  {
    if ps == [] then 0 else CountWhere(ps[..|ps| - 1], f) + (if f(ps[|ps| - 1]) then 1 else 0)
  }

  /** `roleCounts`: owners, admins who are not owners, and the rest. */
  datatype Roles = Roles(owner: nat, admin: nat, member: nat)

  function RoleCounts(ps: seq<Participant>): Roles {
    Roles(CountWhere(ps, IsOwner), CountWhere(ps, IsPlainAdmin), CountWhere(ps, IsMember))
  }

  /** The three roles split the participants: every one is counted exactly once. */
  lemma {:induction false} RolesPartition(ps: seq<Participant>)
    ensures RoleCounts(ps).owner + RoleCounts(ps).admin + RoleCounts(ps).member == |ps|
  {
    if ps != [] {
      RolesPartition(ps[..|ps| - 1]);
    }
  }

  // ---------------------------------------------------------------- toggleFilter, activeFiltersCount

  datatype Filters = Filters(
    roles: seq<string>, tags: seq<string>, autoCategories: seq<string>, sources: seq<string>,
    activityPeriod: Option<string>)

  /** The list-valued filters `toggleFilter` is used with. */
  datatype FilterList = RoleList | Tags | AutoCategories | Sources

  function ListOf(f: Filters, t: FilterList): seq<string> {
    match t
    case RoleList => f.roles
    case Tags => f.tags
    case AutoCategories => f.autoCategories
    case Sources => f.sources
  }

  function WithList(f: Filters, t: FilterList, values: seq<string>): (r: Filters)
    ensures ListOf(r, t) == values
    ensures forall u :: u != t ==> ListOf(r, u) == ListOf(f, u)
    ensures r.activityPeriod == f.activityPeriod
  {
    match t
    case RoleList => f.(roles := values)
    case Tags => f.(tags := values)
    case AutoCategories => f.(autoCategories := values)
    case Sources => f.(sources := values)
  }

  /** `values.filter(v => v !== value)`. */
  function Without(values: seq<string>, value: string): (r: seq<string>)
    ensures value !in r
    ensures forall x :: x != value ==> (x in r <==> x in values)
    ensures value !in values ==> r == values
  {
    if values == [] then []
    else (if values[0] == value then [] else [values[0]]) + Without(values[1..], value)
  }

  /** Removing a value from a list without repeats shortens it by one and keeps it without repeats. */
  lemma {:induction false} WithoutOnce(values: seq<string>, value: string)
    requires value in values && NoRepeats(values)
    ensures |Without(values, value)| == |values| - 1
    ensures NoRepeats(Without(values, value))
  {
    if values[0] != value {
      WithoutOnce(values[1..], value);
      assert values[0] !in values[1..];
    } else {
      assert value !in values[1..];
    }
  }

  predicate NoRepeats(values: seq<string>) {
    forall i, j :: 0 <= i < j < |values| ==> values[i] != values[j]
  }

  /** `toggleFilter` on one list: drop the value if present, else append it. */
  function Toggle(values: seq<string>, value: string): seq<string> {
    if value in values then Without(values, value) else values + [value]
  }

  function ToggleFilter(f: Filters, t: FilterList, value: string): Filters {
    WithList(f, t, Toggle(ListOf(f, t), value))
  }

  /** Toggling flips whether the value is selected and leaves every other value and every other filter as it was. */
  lemma ToggleFlips(f: Filters, t: FilterList, value: string)
    ensures value in ListOf(ToggleFilter(f, t, value), t) <==> value !in ListOf(f, t)
    ensures forall x :: x != value ==> (x in ListOf(ToggleFilter(f, t, value), t) <==> x in ListOf(f, t))
    ensures forall u :: u != t ==> ListOf(ToggleFilter(f, t, value), u) == ListOf(f, u)
    ensures ToggleFilter(f, t, value).activityPeriod == f.activityPeriod
  {
  }

  /** Toggling an unselected value twice restores the list exactly. */
  lemma ToggleTwiceUnselected(f: Filters, t: FilterList, value: string)
    requires value !in ListOf(f, t)
    ensures ToggleFilter(ToggleFilter(f, t, value), t, value) == f
  {
    var l := ListOf(f, t);
    assert value in l + [value];
    WithoutAppended(l, value);
    match t
    case RoleList =>
    case Tags =>
    case AutoCategories =>
    case Sources =>
  }

  lemma {:induction false} WithoutAppended(values: seq<string>, value: string)
    requires value !in values
    ensures Without(values + [value], value) == values
  {
    if values == [] {
      assert Without([value][1..], value) == [];
    } else {
      assert (values + [value])[1..] == values[1..] + [value];
      WithoutAppended(values[1..], value);
    }
  }

  /** Toggling a selected value twice restores the selection, though it moves the value to the end. */
  lemma ToggleTwiceSameSelection(values: seq<string>, value: string)
    ensures forall x :: x in Toggle(Toggle(values, value), value) <==> x in values
  {
  }

  /** Selecting `a` then toggling `a` in `["a", "b"]` gives `["b", "a"]`, not the original order. */
  lemma ToggleTwiceReorders()
    ensures Toggle(Toggle(["a", "b"], "a"), "a") == ["b", "a"]
  {
    assert "a" in ["a", "b"];
    assert Without(["a", "b"], "a") == ["b"] by {
      assert ["a", "b"][1..] == ["b"];
      assert ["b"][1..] == [];
    }
    assert "a" !in ["b"];
  }

  /** `activeFiltersCount`: the four list lengths, plus one for a period. */
  function ActiveFiltersCount(f: Filters): nat {
    |f.roles| + |f.tags| + |f.autoCategories| + |f.sources| + (if Filled(f.activityPeriod) then 1 else 0)
  }

  /** `clearAllFilters`. */
  const NoFilters := Filters([], [], [], [], None)

  /** No filter is active after clearing, and any active filter makes the count positive. */
  lemma CountZeroIffClear(f: Filters)
    ensures ActiveFiltersCount(NoFilters) == 0
    ensures ActiveFiltersCount(f) == 0 <==>
              (f.roles == [] && f.tags == [] && f.autoCategories == [] && f.sources == [] && !Filled(f.activityPeriod))
  {
  }

  /** Selecting a value adds one to the count; deselecting one from a list without repeats takes one off. */
  lemma ToggleCount(f: Filters, t: FilterList, value: string)
    requires NoRepeats(ListOf(f, t))
    ensures value !in ListOf(f, t) ==> ActiveFiltersCount(ToggleFilter(f, t, value)) == ActiveFiltersCount(f) + 1
    ensures value in ListOf(f, t) ==> ActiveFiltersCount(ToggleFilter(f, t, value)) == ActiveFiltersCount(f) - 1
    ensures NoRepeats(ListOf(ToggleFilter(f, t, value), t))
  {
    var l := ListOf(f, t);
    if value in l {
      WithoutOnce(l, value);
    }
    match t
    case RoleList =>
    case Tags =>
    case AutoCategories =>
    case Sources =>
  }
}
