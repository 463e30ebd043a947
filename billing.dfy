/**
 * The billing rules of `lib/services/billingService.ts`: the plan catalogue
 * and its defaults, the status an organisation's subscription is in (with the
 * automatic Pro trial, which updates the subscription object in place), feature
 * access, the period a manual payment buys, and which expiring subscriptions
 * get a reminder. Instants are milliseconds since the epoch; the clock is a
 * parameter and the database reads and writes are the subscription and plan
 * values handed in and the outcome of the write.
 */
module Billing {
  import opened Wrappers
  import opened Text
  import opened Arithmetic

  const DayMs := 86400000
  const PaymentUrl := "https://payform.ru/tkaK5Rn/"
  const ProMonthlyPrice := 1500
  const TrialDays := 14
  const TrialWarningDays := 3

  // ---------------------------------------------------------------- ceiling division

  /** `Math.ceil(x / d)` for a whole `x` and a positive `d`. */
  function CeilDiv(x: int, d: int): int
    requires d > 0
  {
    -((-x) / d)
  }

  /** The ceiling is the least `q` with `x <= q * d`. */
  lemma CeilDivBounds(x: int, d: int)
    requires d > 0
    ensures (CeilDiv(x, d) - 1) * d < x <= CeilDiv(x, d) * d
  {
    var m := -x;
    assert m == (m / d) * d + m % d;
    assert CeilDiv(x, d) * d == x + m % d;
  }

  /** Any `q` with `(q - 1) * d < x <= q * d` is the ceiling. */
  lemma CeilDivUnique(x: int, d: int, q: int)
    requires d > 0 && (q - 1) * d < x <= q * d
    ensures CeilDiv(x, d) == q
  {
    assert -x == (-q) * d + (q * d - x);
    DivModUnique(-x, d, -q, q * d - x);
  }

  // ---------------------------------------------------------------- plans

  datatype PlanLimits = PlanLimits(participants: int, aiRequestsPerMonth: int, customNotificationRules: bool)

  datatype BillingPlan = BillingPlan(code: string, name: string, description: Option<string>,
                                     priceMonthly: Option<int>, limits: PlanLimits, features: map<string, bool>)

  /** A row of `billing_plans`; `limits` and `features` may be missing. */
  datatype PlanRow = PlanRow(code: string, name: string, description: Option<string>, priceMonthly: Option<int>,
                             limits: Option<PlanLimits>, features: Option<map<string, bool>>)

  /** The built-in catalogue `getDefaultPlans`: free, pro and enterprise; `-1` means no limit. */
  function DefaultPlans(): seq<BillingPlan> {
    [BillingPlan("free", "Бесплатный", Some("Для небольших сообществ"), Some(0), PlanLimits(1000, 0, false), map[]),
     BillingPlan("pro", "Профессиональный", Some("Без ограничений"), Some(1500), PlanLimits(-1, -1, true), map[]),
     BillingPlan("enterprise", "Корпоративный", Some("Индивидуальные условия"), None, PlanLimits(-1, -1, true), map[])]
  }

  /** `mapPlan`: a row without limits gets the free plan's, a row without features none. */
  function MapPlan(row: PlanRow): BillingPlan {
    BillingPlan(row.code, row.name, row.description, row.priceMonthly,
                row.limits.GetOr(PlanLimits(1000, 0, false)), row.features.GetOr(map[]))
  }

  /** A plan row without limits counts as the free plan: 1000 participants, no AI, no custom rules. */
  lemma MapPlanDefaults(row: PlanRow)
    requires row.limits.None?
    ensures MapPlan(row).limits == DefaultPlans()[0].limits
    ensures MapPlan(row).limits.participants == 1000 && MapPlan(row).limits.aiRequestsPerMonth == 0
    ensures !MapPlan(row).limits.customNotificationRules
    ensures MapPlan(row).code == row.code && MapPlan(row).features == (if row.features.Some? then row.features.value else map[])
  {
  }

  /** `getPlans` without its cache: the read rows, or the built-in catalogue when the read fails. */
  function GetPlans(rows: Option<seq<PlanRow>>): (plans: seq<BillingPlan>)
    ensures rows.None? ==> plans == DefaultPlans()
    ensures rows.Some? ==> |plans| == |rows.value|
                           && forall i :: 0 <= i < |plans| ==> plans[i] == MapPlan(rows.value[i])
  {
    if rows.None? then DefaultPlans()
    else seq(|rows.value|, i requires 0 <= i < |rows.value| => MapPlan(rows.value[i]))
  }

  /** `plans.find(p => p.code === code)`. */
  function FindPlan(plans: seq<BillingPlan>, code: string): (r: Option<BillingPlan>)
    ensures r.None? <==> forall i :: 0 <= i < |plans| ==> plans[i].code != code
    ensures r.Some? ==> r.value.code == code && r.value in plans
  {
    if plans == [] then None
    else if plans[0].code == code then Some(plans[0])
    else FindPlan(plans[1..], code)
  }

  /** `find` returns the first plan with the code. */
  lemma {:induction false} FindPlanFirst(plans: seq<BillingPlan>, code: string) returns (i: nat)
    requires FindPlan(plans, code).Some?
    ensures i < |plans| && FindPlan(plans, code) == Some(plans[i])
    ensures forall j :: 0 <= j < i ==> plans[j].code != code
  {
    if plans[0].code == code {
      i := 0;
    } else {
      var k := FindPlanFirst(plans[1..], code);
      i := k + 1;
      forall j | 0 <= j < i
        ensures plans[j].code != code
      {
        if j > 0 {
          assert plans[j] == plans[1..][j - 1];
        }
      }
    }
  }

  /** `plans.find(p => p.code === 'free') || getDefaultPlans()[0]`. */
  function FreePlan(plans: seq<BillingPlan>): BillingPlan {
    FindPlan(plans, "free").GetOr(DefaultPlans()[0])
  }

  /** `getPlanByCode`: the plan with the code, or the first default plan when the catalogue lacks it. */
  function GetPlanByCode(plans: seq<BillingPlan>, code: string): (p: BillingPlan)
    ensures (exists i :: 0 <= i < |plans| && plans[i].code == code) ==> p.code == code && p in plans
    ensures (forall i :: 0 <= i < |plans| ==> plans[i].code != code) ==> p == DefaultPlans()[0] && p.code == "free"
  {
    FindPlan(plans, code).GetOr(DefaultPlans()[0])
  }

  /** The plan of a code, or the free plan when the catalogue lacks it. */
  function PlanOf(plans: seq<BillingPlan>, code: string): BillingPlan {
    FindPlan(plans, code).GetOr(FreePlan(plans))
  }

  // ---------------------------------------------------------------- subscriptions

  /** A row of `org_subscriptions`. */
  datatype SubscriptionRow = SubscriptionRow(id: string, orgId: string, planCode: string, status: string,
                                             startedAt: int, expiresAt: Option<int>, autoRenew: bool,
                                             overLimitSince: Option<int>, paymentUrl: Option<string>,
                                             notes: Option<string>)

  /** The subscription object `getOrgBillingStatus` reads and updates in place. */
  class Subscription {
    var id: string
    var orgId: string
    var planCode: string
    var status: string
    var startedAt: int
    var expiresAt: Option<int>
    var autoRenew: bool
    var overLimitSince: Option<int>
    var paymentUrl: Option<string>
    var notes: Option<string>

    constructor (row: SubscriptionRow)
      ensures Row() == row
    {
      id, orgId, planCode, status := row.id, row.orgId, row.planCode, row.status;
      startedAt, expiresAt, autoRenew := row.startedAt, row.expiresAt, row.autoRenew;
      overLimitSince, paymentUrl, notes := row.overLimitSince, row.paymentUrl, row.notes;
    }

    /** The object's fields as a row. */
    function Row(): SubscriptionRow
      reads this
    {
      SubscriptionRow(id, orgId, planCode, status, startedAt, expiresAt, autoRenew, overLimitSince, paymentUrl, notes)
    }
  }

  const TrialNote := "Auto-trial started: participants exceeded free limit"

  /** A free, active organisation with more participants than a positive free limit gets a Pro trial. */
  predicate QualifiesForTrial(sub: SubscriptionRow, freeLimit: int, participantCount: nat) {
    sub.planCode == "free" && sub.status == "active" && freeLimit > 0 && participantCount > freeLimit
  }

  /** The object after the auto-trial: Pro on trial for fourteen days from now. */
  function StartTrial(sub: SubscriptionRow, now: int): SubscriptionRow {
    sub.(planCode := "pro", status := "trial", expiresAt := Some(now + TrialDays * DayMs),
         overLimitSince := None, notes := Some(TrialNote))
  }

  /** The subscription as `getOrgBillingStatus` leaves it. */
  function AfterAutoTrial(sub: SubscriptionRow, plans: seq<BillingPlan>, participantCount: nat, now: int): SubscriptionRow {
    if QualifiesForTrial(sub, FreePlan(plans).limits.participants, participantCount) then StartTrial(sub, now) else sub
  }

  /** The trial fields of the status. */
  datatype TrialInfo = TrialInfo(daysRemaining: int, expired: bool, warning: bool)

  /** Days left rounded up and never negative, expired once the end is reached, a warning in the last three days. */
  function TrialOf(isTrial: bool, expiresAt: Option<int>, now: int): TrialInfo {
    if isTrial && expiresAt.Some? then
      var remaining := expiresAt.value - now;
      var ceil := CeilDiv(remaining, DayMs);
      var days := if ceil > 0 then ceil else 0;
      var expired := remaining <= 0;
      TrialInfo(days, expired, days <= TrialWarningDays || expired)
    else TrialInfo(0, false, false)
  }

  /** A participant limit as reported: `-1` is shown as no limit at all. */
  datatype Limit = Finite(n: int) | Unlimited

  datatype BillingStatus = BillingStatus(
    plan: BillingPlan, subscription: SubscriptionRow, participantCount: nat, participantLimit: Limit,
    isOverLimit: bool, paymentUrl: string, aiEnabled: bool, isTrial: bool, trialDaysRemaining: int,
    trialExpired: bool, trialWarning: bool, gracePeriodExpired: bool, daysOverLimit: int)

  /** Over the limit: an expired trial during a trial, otherwise more participants than a positive limit. */
  predicate OverLimit(isTrial: bool, trialExpired: bool, limit: int, participantCount: nat) {
    if isTrial then trialExpired else limit > 0 && participantCount > limit
  }

  /** `subscription.payment_url || PAYMENT_URL`. */
  function PaymentUrlOf(sub: SubscriptionRow): string {
    if sub.paymentUrl.Some? && sub.paymentUrl.value != "" then sub.paymentUrl.value else PaymentUrl
  }

  /** The status returned for a subscription already past the auto-trial step. */
  function StatusOf(sub: SubscriptionRow, participantCount: nat, plans: seq<BillingPlan>, now: int): BillingStatus {
    var plan := PlanOf(plans, sub.planCode);
    var limit := plan.limits.participants;
    var isTrial := sub.status == "trial";
    var t := TrialOf(isTrial, sub.expiresAt, now);
    BillingStatus(plan, sub, participantCount, if limit == -1 then Unlimited else Finite(limit),
                  OverLimit(isTrial, t.expired, limit, participantCount), PaymentUrlOf(sub),
                  plan.limits.customNotificationRules, isTrial, t.daysRemaining, t.expired, t.warning,
                  isTrial && t.expired, 0)
  }

  /**
   * `getOrgBillingStatus`, given the subscription object, the participant count
   * and the plan catalogue: starts the Pro trial on the object when the free
   * limit is exceeded, then reports the status.
   */
  method GetOrgBillingStatus(sub: Subscription, participantCount: nat, plans: seq<BillingPlan>, now: int)
    returns (status: BillingStatus)
    modifies sub
    ensures sub.Row() == AfterAutoTrial(old(sub.Row()), plans, participantCount, now)
    ensures status == StatusOf(sub.Row(), participantCount, plans, now)
  {
    var freePlan := FreePlan(plans);
    var freeLimit := freePlan.limits.participants;
    if sub.planCode == "free" && sub.status == "active" && freeLimit > 0 && participantCount > freeLimit {
      sub.planCode := "pro";
      sub.status := "trial";
      sub.expiresAt := Some(now + TrialDays * DayMs);
      sub.overLimitSince := None;
      sub.notes := Some(TrialNote);
    }
    var row := sub.Row();
    assert row == AfterAutoTrial(old(sub.Row()), plans, participantCount, now);
    var plan := PlanOf(plans, row.planCode);
    var participantLimit := plan.limits.participants;
    var isTrial := row.status == "trial";
    var trialDaysRemaining := 0;
    var trialExpired := false;
    var trialWarning := false;
    if isTrial && row.expiresAt.Some? {
      var remainingMs := row.expiresAt.value - now;
      var ceil := CeilDiv(remainingMs, DayMs);
      trialDaysRemaining := if ceil > 0 then ceil else 0;
      trialExpired := remainingMs <= 0;
      trialWarning := trialDaysRemaining <= TrialWarningDays || trialExpired;
    }
    assert TrialOf(isTrial, row.expiresAt, now) == TrialInfo(trialDaysRemaining, trialExpired, trialWarning);
    var isOverLimit := if isTrial then trialExpired else participantLimit > 0 && participantCount > participantLimit;
    var gracePeriodExpired := if isTrial then trialExpired else false;
    status := BillingStatus(plan, row, participantCount,
                            if participantLimit == -1 then Unlimited else Finite(participantLimit),
                            isOverLimit, PaymentUrlOf(row), plan.limits.customNotificationRules, isTrial,
                            trialDaysRemaining, trialExpired, trialWarning, gracePeriodExpired, 0);
  }

  /**
   * The trial fields: the days left are the whole days to the end rounded up,
   * zero exactly when the trial has expired, and the warning is on exactly when
   * at most three days remain.
   */
  lemma TrialFields(expiresAt: int, now: int)
    ensures var t := TrialOf(true, Some(expiresAt), now);
            var remaining := expiresAt - now;
            t.daysRemaining >= 0
            && (t.expired <==> remaining <= 0)
            && (t.daysRemaining == 0 <==> t.expired)
            && (t.daysRemaining > 0 ==> (t.daysRemaining - 1) * DayMs < remaining <= t.daysRemaining * DayMs)
            && (t.warning <==> remaining <= TrialWarningDays * DayMs)
  {
    var remaining := expiresAt - now;
    CeilDivBounds(remaining, DayMs);
    var ceil := CeilDiv(remaining, DayMs);
    if remaining > 0 {
      assert ceil >= 1;
    }
    MulCancel(ceil - 1, TrialWarningDays, DayMs);
    MulCancel(TrialWarningDays, ceil, DayMs);
  }

  /** No trial fields outside a trial or without an end date. */
  lemma NoTrialNoTrialFields(isTrial: bool, expiresAt: Option<int>, now: int)
    requires !isTrial || expiresAt.None?
    ensures TrialOf(isTrial, expiresAt, now) == TrialInfo(0, false, false)
  {
  }

  /**
   * Over the limit: during a trial exactly when it has expired, otherwise
   * exactly when a positive limit is exceeded; an unlimited plan outside a
   * trial never is, and the grace period only ends with a trial.
   */
  lemma OverLimitIff(sub: SubscriptionRow, participantCount: nat, plans: seq<BillingPlan>, now: int)
    ensures var s := StatusOf(sub, participantCount, plans, now);
            var limit := PlanOf(plans, sub.planCode).limits.participants;
            (s.isTrial ==> (s.isOverLimit <==> s.trialExpired))
            && (!s.isTrial ==> (s.isOverLimit <==> limit > 0 && participantCount > limit))
            && (!s.isTrial && limit == -1 ==> !s.isOverLimit && s.participantLimit == Unlimited)
            && (s.gracePeriodExpired <==> s.isTrial && s.trialExpired)
            && (!s.isTrial ==> s.trialDaysRemaining == 0 && !s.trialExpired && !s.trialWarning)
  {
  }

  /**
   * The automatic trial: a qualifying organisation is on a Pro trial with
   * fourteen days left, neither expired nor warned nor over the limit.
   */
  lemma FreshTrial(sub: SubscriptionRow, participantCount: nat, plans: seq<BillingPlan>, now: int)
    requires QualifiesForTrial(sub, FreePlan(plans).limits.participants, participantCount)
    ensures var after := AfterAutoTrial(sub, plans, participantCount, now);
            var s := StatusOf(after, participantCount, plans, now);
            after.planCode == "pro" && after.status == "trial" && after.overLimitSince.None?
            && s.isTrial && s.trialDaysRemaining == TrialDays && !s.trialExpired && !s.trialWarning
            && !s.isOverLimit && !s.gracePeriodExpired
  {
    CeilDivUnique(TrialDays * DayMs, DayMs, TrialDays);
  }

  /** Without the trial condition the object is left as it was; and the trial never starts twice. */
  lemma AutoTrialOnce(sub: SubscriptionRow, participantCount: nat, plans: seq<BillingPlan>, now: int, later: int)
    ensures !QualifiesForTrial(sub, FreePlan(plans).limits.participants, participantCount)
            ==> AfterAutoTrial(sub, plans, participantCount, now) == sub
    ensures var after := AfterAutoTrial(sub, plans, participantCount, now);
            QualifiesForTrial(sub, FreePlan(plans).limits.participants, participantCount)
            ==> AfterAutoTrial(after, plans, participantCount, later) == after
  {
  }

  // ---------------------------------------------------------------- feature access

  datatype Feature = AiAnalysis | CustomRules

  datatype Access = Access(allowed: bool, reason: Option<string>, paymentUrl: string)

  const AiOnProReason := "AI-функции доступны на тарифе Профессиональный"

  /** `checkFeatureAccess` on a computed status. */
  function CheckFeatureAccess(status: BillingStatus, feature: Feature): Access {
    if status.isTrial && !status.trialExpired then Access(true, None, status.paymentUrl)
    else if !status.aiEnabled then Access(false, Some(AiOnProReason), status.paymentUrl)
    else Access(true, None, status.paymentUrl)
  }

  /** A feature is open during a running trial or on a plan with AI; a refusal says why. */
  lemma FeatureAccessIff(status: BillingStatus, feature: Feature)
    ensures var a := CheckFeatureAccess(status, feature);
            (a.allowed <==> (status.isTrial && !status.trialExpired) || status.aiEnabled)
            && (a.allowed <==> a.reason.None?)
            && (!a.allowed ==> a.reason == Some(AiOnProReason))
            && a.paymentUrl == status.paymentUrl
  {
  }

  // ---------------------------------------------------------------- payments

  /** `Math.round(amount / 1500 * 30)` in exact arithmetic, that is the amount over 50 rounded half up. */
  function DaysToAdd(amount: int): int {
    (amount + 25) / 50
  }

  /** The number of days is the nearest whole number to a fiftieth of the amount, halves rounded up. */
  lemma DaysToAddRounds(amount: int)
    ensures 50 * DaysToAdd(amount) - 25 <= amount < 50 * DaysToAdd(amount) + 25
  {
    assert amount + 25 == 50 * ((amount + 25) / 50) + (amount + 25) % 50;
  }

  /** Any whole number within half a day of a fiftieth of the amount is the number of days. */
  lemma DaysToAddUnique(amount: int, n: int)
    requires 50 * n - 25 <= amount < 50 * n + 25
    ensures DaysToAdd(amount) == n
  {
    DivModUnique(amount + 25, 50, n, amount + 25 - 50 * n);
  }

  /** A payment buys at least a day exactly when it is at least 25. */
  lemma DaysToAddPositiveIff(amount: int)
    ensures DaysToAdd(amount) >= 1 <==> amount >= 25
  {
    DaysToAddRounds(amount);
  }

  /** The monthly price buys thirty days; `months` of it buy thirty per month. */
  lemma MonthsToDays(months: int)
    ensures DaysToAdd(ProMonthlyPrice * months) == 30 * months
  {
    DaysToAddUnique(ProMonthlyPrice * months, 30 * months);
  }

  /** A payment extends the current period when Pro is active or on trial and ends in the future. */
  predicate ExtendsCurrent(sub: SubscriptionRow, now: int) {
    sub.planCode == "pro" && (sub.status == "active" || sub.status == "trial")
    && sub.expiresAt.Some? && sub.expiresAt.value > now
  }

  function PeriodStart(sub: SubscriptionRow, now: int): int {
    if ExtendsCurrent(sub, now) then sub.expiresAt.value else now
  }

  /** The row of `org_invoices` a payment inserts; the period is kept as UTC day numbers. */
  datatype Invoice = Invoice(orgId: string, subscriptionId: string, amount: int, currency: string,
                             periodStartDay: int, periodEndDay: int, status: string, paymentMethod: string,
                             paidAt: int, confirmedBy: string)

  datatype PaymentOutcome =
    | Paid(periodStart: int, periodEnd: int, subscription: SubscriptionRow, invoice: Invoice)
    | PaymentFailed

  /** The subscription row a payment writes. */
  function PaidSubscription(sub: SubscriptionRow, now: int, periodEnd: int): SubscriptionRow {
    sub.(planCode := "pro", status := "active",
         startedAt := if sub.planCode != "pro" || sub.status != "active" then now else sub.startedAt,
         expiresAt := Some(periodEnd), overLimitSince := None)
  }

  /**
   * `addPayment`: `updated` is whether the subscription write succeeded; a
   * failed invoice insert is only logged, so it does not change the outcome.
   */
  function AddPayment(sub: SubscriptionRow, amount: int, now: int, confirmedBy: string,
                      paymentMethod: Option<string>, updated: bool): PaymentOutcome {
    var days := DaysToAdd(amount);
    if days < 1 then PaymentFailed
    else
      var start := PeriodStart(sub, now);
      var end := start + days * DayMs;
      if !updated then PaymentFailed
      else
        var paidWith := if paymentMethod.Some? && paymentMethod.value != "" then paymentMethod.value else "manual";
        Paid(start, end, PaidSubscription(sub, now, end),
             Invoice(sub.orgId, sub.id, amount, "RUB", start / DayMs, end / DayMs, "paid", paidWith, now, confirmedBy))
  }

  /** A payment goes through exactly when it buys a day and the subscription write succeeds. */
  lemma PaymentSucceedsIff(sub: SubscriptionRow, amount: int, now: int, confirmedBy: string,
                           paymentMethod: Option<string>, updated: bool)
    ensures AddPayment(sub, amount, now, confirmedBy, paymentMethod, updated).Paid? <==> amount >= 25 && updated
  {
    DaysToAddPositiveIff(amount);
  }

  /**
   * A payment buys its days from the later of now and the current end, so no
   * paid time is lost; afterwards Pro is active until the new end, the start
   * date is kept only for an already active Pro, and the invoice covers the period.
   */
  lemma PaidPeriod(sub: SubscriptionRow, amount: int, now: int, confirmedBy: string,
                   paymentMethod: Option<string>, updated: bool)
    requires AddPayment(sub, amount, now, confirmedBy, paymentMethod, updated).Paid?
    ensures var p := AddPayment(sub, amount, now, confirmedBy, paymentMethod, updated);
            var days := DaysToAdd(amount);
            days >= 1
            && p.periodEnd - p.periodStart == days * DayMs
            && p.periodStart >= now && p.periodEnd > now
            && (ExtendsCurrent(sub, now) ==> p.periodStart == sub.expiresAt.value)
            && (!ExtendsCurrent(sub, now) ==> p.periodStart == now)
            && (sub.planCode == "pro" && (sub.status == "active" || sub.status == "trial") && sub.expiresAt.Some?
                ==> p.periodEnd >= sub.expiresAt.value + days * DayMs)
            && p.subscription.planCode == "pro" && p.subscription.status == "active"
            && p.subscription.expiresAt == Some(p.periodEnd) && p.subscription.overLimitSince.None?
            && (p.subscription.startedAt == sub.startedAt || p.subscription.startedAt == now)
            && (sub.planCode == "pro" && sub.status == "active" ==> p.subscription.startedAt == sub.startedAt)
            && p.subscription.id == sub.id && p.subscription.orgId == sub.orgId
            && p.subscription.paymentUrl == sub.paymentUrl && p.subscription.notes == sub.notes
            && p.invoice.amount == amount && p.invoice.periodStartDay <= p.invoice.periodEndDay
            && p.invoice.orgId == sub.orgId && p.invoice.subscriptionId == sub.id
  {
    DaysToAddPositiveIff(amount);
  }

  /** A second payment made before the first period ends starts where the first ended: the days add up. */
  lemma PaymentsAccumulate(sub: SubscriptionRow, a: int, b: int, now1: int, now2: int, confirmedBy: string,
                           paymentMethod: Option<string>)
    requires AddPayment(sub, a, now1, confirmedBy, paymentMethod, true).Paid?
    requires now2 < AddPayment(sub, a, now1, confirmedBy, paymentMethod, true).periodEnd
    requires AddPayment(AddPayment(sub, a, now1, confirmedBy, paymentMethod, true).subscription, b, now2,
                        confirmedBy, paymentMethod, true).Paid?
    ensures var first := AddPayment(sub, a, now1, confirmedBy, paymentMethod, true);
            var second := AddPayment(first.subscription, b, now2, confirmedBy, paymentMethod, true);
            second.periodStart == first.periodEnd
            && second.periodEnd == first.periodStart + (DaysToAdd(a) + DaysToAdd(b)) * DayMs
            && second.subscription.startedAt == first.subscription.startedAt
  {
    var first := AddPayment(sub, a, now1, confirmedBy, paymentMethod, true);
    assert ExtendsCurrent(first.subscription, now2);
  }

  /** `activatePro`: `months` monthly prices, true when the payment went through. */
  function ActivatePro(sub: SubscriptionRow, months: int, now: int, confirmedBy: string,
                       paymentMethod: Option<string>, updated: bool): bool {
    AddPayment(sub, ProMonthlyPrice * months, now, confirmedBy, paymentMethod, updated).Paid?
  }

  /** Activating for whole months succeeds for a month or more and buys thirty days per month. */
  lemma ActivateProMonths(sub: SubscriptionRow, months: int, now: int, confirmedBy: string,
                          paymentMethod: Option<string>, updated: bool)
    ensures ActivatePro(sub, months, now, confirmedBy, paymentMethod, updated) <==> months >= 1 && updated
    ensures ActivatePro(sub, months, now, confirmedBy, paymentMethod, updated)
            ==> var p := AddPayment(sub, ProMonthlyPrice * months, now, confirmedBy, paymentMethod, updated);
                p.periodEnd - p.periodStart == 30 * months * DayMs
  {
    MonthsToDays(months);
  }

  // ---------------------------------------------------------------- cancellation

  /** The row `cancelSubscription` writes: back to an active free plan with no end date. */
  function Cancelled(sub: SubscriptionRow): SubscriptionRow {
    sub.(planCode := "free", status := "active", expiresAt := None, overLimitSince := None)
  }

  /**
   * A cancelled subscription reports the free plan and no trial, is no longer
   * picked up by the expiry reminders, and gets the automatic trial again
   * exactly when the organisation is above a positive free limit.
   */
  lemma CancelEndsPro(sub: SubscriptionRow, participantCount: nat, plans: seq<BillingPlan>, now: int)
    ensures var c := Cancelled(sub);
            var s := StatusOf(c, participantCount, plans, now);
            var freeLimit := FreePlan(plans).limits.participants;
            s.plan == FreePlan(plans) && !s.isTrial && s.trialDaysRemaining == 0 && !s.trialExpired
            && !s.gracePeriodExpired && s.aiEnabled == FreePlan(plans).limits.customNotificationRules
            && !SelectedForExpiryCheck(c, now)
            && (QualifiesForTrial(c, freeLimit, participantCount) <==> freeLimit > 0 && participantCount > freeLimit)
  {
  }

  // ---------------------------------------------------------------- expiry reminders

  /** The query of `processExpiringSubscriptions`: Pro, active or on trial, ending within seven days. */
  predicate SelectedForExpiryCheck(sub: SubscriptionRow, now: int) {
    sub.planCode == "pro" && (sub.status == "active" || sub.status == "trial")
    && sub.expiresAt.Some? && sub.expiresAt.value <= now + 7 * DayMs
  }

  /** Whole days to the end, rounded up. */
  function DaysLeft(expiresAt: int, now: int): int {
    CeilDiv(expiresAt - now, DayMs)
  }

  /** A reminder goes out once the subscription has ended, and one, three and seven days before. */
  predicate ShouldNotify(daysLeft: int) {
    daysLeft <= 0 || daysLeft == 1 || daysLeft == 3 || daysLeft == 7
  }

  /** The key that keeps a reminder from going out twice. */
  function DedupKey(orgId: string, daysLeft: int): string {
    "billing_expiry_" + orgId + "_" + (if daysLeft <= 0 then "expired" else "d" + NatToString(daysLeft))
  }

  /** A selected subscription has at most seven days left. */
  lemma SelectedDaysLeft(sub: SubscriptionRow, now: int)
    requires SelectedForExpiryCheck(sub, now)
    ensures DaysLeft(sub.expiresAt.value, now) <= 7
  {
    CeilDivBounds(sub.expiresAt.value - now, DayMs);
    var d := DaysLeft(sub.expiresAt.value, now);
    MulCancel(d - 1, 7, DayMs);
  }

  /** The windows of time to the end in which a reminder is due. */
  lemma NotifyWindows(expiresAt: int, now: int)
    ensures var r := expiresAt - now;
            ShouldNotify(DaysLeft(expiresAt, now))
            <==> r <= DayMs || (2 * DayMs < r <= 3 * DayMs) || (6 * DayMs < r <= 7 * DayMs)
  {
    var r := expiresAt - now;
    var d := DaysLeft(expiresAt, now);
    CeilDivBounds(r, DayMs);
    if r <= 0 {
      assert d <= 0;
    } else if r <= DayMs {
      CeilDivUnique(r, DayMs, 1);
    } else if r <= 2 * DayMs {
      CeilDivUnique(r, DayMs, 2);
    } else if r <= 3 * DayMs {
      CeilDivUnique(r, DayMs, 3);
    } else if r <= 6 * DayMs {
      MulCancel(3, d, DayMs);
      MulCancel(d - 1, 6, DayMs);
    } else if r <= 7 * DayMs {
      CeilDivUnique(r, DayMs, 7);
    } else {
      MulCancel(7, d, DayMs);
    }
  }

  /** Two due reminders of one organisation share a key only when both are for the same day, or both after the end. */
  lemma DedupKeysDistinct(orgId: string, d1: int, d2: int)
    requires DedupKey(orgId, d1) == DedupKey(orgId, d2)
    ensures d1 == d2 || (d1 <= 0 && d2 <= 0)
  {
    var p := "billing_expiry_" + orgId + "_";
    var t1 := if d1 <= 0 then "expired" else "d" + NatToString(d1);
    var t2 := if d2 <= 0 then "expired" else "d" + NatToString(d2);
    assert DedupKey(orgId, d1) == p + t1 && DedupKey(orgId, d2) == p + t2;
    assert (p + t1)[|p|..] == t1 && (p + t2)[|p|..] == t2;
    assert t1 == t2;
    assert t1[0] == (if d1 <= 0 then 'e' else 'd') && t2[0] == (if d2 <= 0 then 'e' else 'd');
    if d1 > 0 && d2 > 0 {
      assert NatToString(d1) == t1[1..] == t2[1..] == NatToString(d2);
      NatToStringValue(d1);
      NatToStringValue(d2);
    }
  }
}
