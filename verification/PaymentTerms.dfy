/** Due dates and discounts from payment terms (`payment_terms.py`). Amounts are exact reals. */
module PaymentTerms {
  import opened JsonValues
  import opened Calendar
  import Rounding
  import Text
  import T = TermsParser

  datatype Request = Request(invoiceDate: Date, terms: string, amount: Option<real>, asOf: Option<Date>)

  datatype TermType = NetTerms | DiscountTerms | DueOnReceipt | Cod | Eom | UnknownTerms

  datatype Label = EarlyPaymentDiscount | NetDue

  datatype Milestone = Milestone(kind: Label, dueOn: Date, daysRemaining: int, amountDue: Option<real>)

  datatype Note = CashOnDelivery | NotParsed | PastDue | DiscountClosed

  datatype TermsResult = TermsResult(
    rawTerms: string,
    parsed: bool,
    termType: TermType,
    netDays: Option<int>,
    dueDate: Option<Date>,
    discountPercent: Option<real>,
    discountDays: Option<int>,
    discountDeadline: Option<Date>,
    discountAmount: Option<real>,
    amountAfterDiscount: Option<real>,
    daysUntilDue: Option<int>,
    daysUntilDiscountDeadline: Option<int>,
    milestones: seq<Milestone>,
    notes: seq<Note>)

  predicate ValidRequest(request: Request) {
    InRange(request.invoiceDate) && (request.asOf.Some? ==> InRange(request.asOf.value))
  }

  /** `_round_money` */
  function RoundMoney(x: real): real {
    Rounding.HalfUp(100.0 * x) as real / 100.0
  }

  /** The early-payment discount on an amount. */
  function DiscountOn(amount: real, percent: real): real {
    RoundMoney(amount * percent / 100.0)
  }

  function Unparsed(terms: string): TermsResult {
    TermsResult(terms, false, UnknownTerms, None, None, None, None, None, None, None, None, None, [], [])
  }

  /** The last day of the month of `d`. */
  function LastOfMonth(d: Date): (last: Date)
    requires InRange(d)
    ensures InRange(last)
  {
    Date(d.year, d.month, DaysInMonth(d.year, d.month))
  }

  /** The dates that terms fix: net days, due date and discount deadline. */
  datatype Plan = Plan(netDays: int, due: Date, deadline: Option<Date>)

  function PlanOf(date: Date, terms: T.Terms): (r: Result<Plan>)
    requires InRange(date) && terms != T.Unknown
    ensures r.Ok? ==> Valid(r.value.due) && (r.value.deadline.Some? ==> Valid(r.value.deadline.value))
  {
    match terms
    case Discount(_, discountDays, netDays) =>
      var due, deadline := AddDays(date, netDays), AddDays(date, discountDays);
      if due.Ok? && deadline.Ok? then Ok(Plan(netDays, due.value, Some(deadline.value))) else Raised
    case EndOfMonth(extra) =>
      var due := AddDays(LastOfMonth(date), extra);
      if due.Ok? then Ok(Plan(DaysBetween(due.value, date), due.value, None)) else Raised
    case Net(days) =>
      var due := AddDays(date, days);
      if due.Ok? then Ok(Plan(days, due.value, None)) else Raised
    case _ => Ok(Plan(0, date, None))
  }

  function TypeOf(terms: T.Terms): TermType {
    match terms
    case DueOnReceipt => DueOnReceipt
    case CashOnDelivery => Cod
    case Discount(_, _, _) => DiscountTerms
    case EndOfMonth(_) => Eom
    case Net(_) => NetTerms
    case Unknown => UnknownTerms
  }

  /** The result before amounts and remaining days are filled in. */
  function Planned(request: Request, terms: T.Terms, plan: Plan): TermsResult {
    var discounted := terms.Discount?;
    Unparsed(Text.Strip(request.terms)).(
    parsed := true,
    termType := TypeOf(terms),
    netDays := Some(plan.netDays),
    dueDate := Some(plan.due),
    discountPercent := if discounted then Some(terms.percent) else None,
    discountDays := if discounted then Some(terms.discountDays) else None,
    discountDeadline := plan.deadline)
  }

  /** Discount amount and remainder. */
  function WithDiscount(request: Request, result: TermsResult): TermsResult {
    if result.discountPercent.Some? && request.amount.Some? && request.amount.value > 0.0 then
      var discount := DiscountOn(request.amount.value, result.discountPercent.value);
      result.(discountAmount := Some(discount), amountAfterDiscount := Some(RoundMoney(request.amount.value - discount)))
    else result
  }

  function AsOf(request: Request): Date {
    if request.asOf.Some? then request.asOf.value else request.invoiceDate
  }

  /** Remaining days, milestones and notes. */
  function WithDays(request: Request, result: TermsResult, notes: seq<Note>): TermsResult
    requires ValidRequest(request)
    requires result.dueDate.Some? ==> Valid(result.dueDate.value)
    requires result.discountDeadline.Some? ==> Valid(result.discountDeadline.value)
  {
    var untilDeadline :=
      if result.discountDeadline.Some? then Some(DaysBetween(result.discountDeadline.value, AsOf(request))) else None;
    var untilDue := if result.dueDate.Some? then Some(DaysBetween(result.dueDate.value, AsOf(request))) else None;
    result.(
    daysUntilDiscountDeadline := untilDeadline,
    daysUntilDue := untilDue,
    milestones :=
      (if untilDeadline.Some?
       then [Milestone(EarlyPaymentDiscount, result.discountDeadline.value, untilDeadline.value, result.amountAfterDiscount)]
       else []) +
      (if untilDue.Some? then [Milestone(NetDue, result.dueDate.value, untilDue.value, request.amount)] else []),
    notes :=
      notes + (if untilDue.Some? && untilDue.value < 0 then [PastDue] else []) +
      (if untilDeadline.Some? && untilDeadline.value < 0 then [DiscountClosed] else []))
  }

  function Calculated(request: Request): Result<TermsResult>
    requires ValidRequest(request)
  {
    var terms := T.Parse(request.terms);
    if terms == T.Unknown then Ok(Unparsed(Text.Strip(request.terms)).(notes := [NotParsed]))
    else
      var plan := PlanOf(request.invoiceDate, terms);
      if plan.Raised? then Raised
      else
        var result := WithDiscount(request, Planned(request, terms, plan.value));
        Ok(WithDays(request, result, if terms == T.CashOnDelivery then [CashOnDelivery] else []))
  }

  lemma DayBeforeNextMonth(date: Date)
    requires InRange(date) && date.month < 12
    ensures var firstNext := Date(date.year, date.month + 1, 1);
            Valid(firstNext) && Ordinal(firstNext) - 1 == Ordinal(LastOfMonth(date))
  {
    OrdinalCountsDays(LastOfMonth(date));
    hide Ordinal;
  }

  /** The end of the invoice month as the code computes it: the day before the first of the next month. */
  method EndOfInvoiceMonth(date: Date) returns (last: Date)
    requires InRange(date)
    ensures last == LastOfMonth(date)
  {
    if date.month == 12 { return Date(date.year, 12, 31); }
    var firstNext := Date(date.year, date.month + 1, 1);
    DayBeforeNextMonth(date);
    hide Ordinal, FromOrdinal;
    OrdinalIsBijective(LastOfMonth(date));
    return FromOrdinal(Ordinal(firstNext) - 1);
  }

  /** Which expression matches, and the fields that follow from it. */
  method ApplyTerms(request: Request) returns (r: Result<(TermsResult, seq<Note>)>)
    requires ValidRequest(request)
    ensures var terms := T.Parse(request.terms);
            r == if terms == T.Unknown then Ok((Unparsed(Text.Strip(request.terms)), []))
                 else
                   var plan := PlanOf(request.invoiceDate, terms);
                   if plan.Raised? then Raised
                   else Ok((Planned(request, terms, plan.value), if terms == T.CashOnDelivery then [CashOnDelivery] else []))
  {
    hide T.Search, T.DueAt, T.CodAt, T.DiscountAt, T.EomAt, T.NetAt, AddDays;
    var date := request.invoiceDate;
    var result := Unparsed(Text.Strip(request.terms));
    var text := Text.Lower(Text.Strip(request.terms));
    MatchKinds(text);
    if T.Search(T.DueAt, text, 0).Some? {
      return Ok((result.(parsed := true, termType := DueOnReceipt, netDays := Some(0), dueDate := Some(date)), []));
    }
    if T.Search(T.CodAt, text, 0).Some? {
      return Ok((result.(parsed := true, termType := Cod, netDays := Some(0), dueDate := Some(date)), [CashOnDelivery]));
    }
    var discount := T.Search(T.DiscountAt, text, 0);
    var net := T.Search(T.NetAt, text, 0);
    var eom := T.Search(T.EomAt, text, 0);
    if discount.Some? {
      var due := AddDays(date, discount.value.netDays);
      if due.Raised? { return Raised; }
      var deadline := AddDays(date, discount.value.discountDays);
      if deadline.Raised? { return Raised; }
      result := result.(
      parsed := true,
      termType := DiscountTerms,
      discountPercent := Some(discount.value.percent),
      discountDays := Some(discount.value.discountDays),
      netDays := Some(discount.value.netDays),
      dueDate := Some(due.value),
      discountDeadline := Some(deadline.value));
    } else if eom.Some? {
      var last := EndOfInvoiceMonth(date);
      var due := AddDays(last, eom.value.extra);
      if due.Raised? { return Raised; }
      result := result.(
      parsed := true, termType := Eom, dueDate := Some(due.value), netDays := Some(DaysBetween(due.value, date)));
    } else if net.Some? {
      var due := AddDays(date, net.value.days);
      if due.Raised? { return Raised; }
      result := result.(parsed := true, termType := NetTerms, netDays := Some(net.value.days), dueDate := Some(due.value));
    }
    return Ok((result, []));
  }

  /** Each expression yields its own kind of terms. */
  lemma MatchKinds(text: string)
    ensures var due := T.Search(T.DueAt, text, 0); due.Some? ==> due.value == T.DueOnReceipt
    ensures var cod := T.Search(T.CodAt, text, 0); cod.Some? ==> cod.value == T.CashOnDelivery
    ensures var discount := T.Search(T.DiscountAt, text, 0); discount.Some? ==> discount.value.Discount?
    ensures var eom := T.Search(T.EomAt, text, 0); eom.Some? ==> eom.value.EndOfMonth?
    ensures var net := T.Search(T.NetAt, text, 0); net.Some? ==> net.value.Net?
  {
    hide T.Skip, T.Digits, T.NatOf, T.DueReceipt, T.CodLetters, T.DiscountTail, T.Fraction, T.FractionOf;
    SearchFrom(T.DueAt, text, 0);
    SearchFrom(T.CodAt, text, 0);
    SearchFrom(T.DiscountAt, text, 0);
    SearchFrom(T.EomAt, text, 0);
    SearchFrom(T.NetAt, text, 0);
  }

  lemma {:induction false} SearchFrom(at: T.Recogniser, text: string, i: nat)
    requires i <= |text|
    ensures var found := T.Search(at, text, i); found.Some? ==> exists k :: i <= k <= |text| && at(text, k) == found
    decreases |text| - i
  {
    if at(text, i).None? && i < |text| { SearchFrom(at, text, i + 1); }
  }

  /** The remaining days, milestones and closing notes. */
  method FillDays(request: Request, planned: TermsResult, before: seq<Note>) returns (result: TermsResult)
    requires ValidRequest(request)
    requires planned.dueDate.Some? ==> Valid(planned.dueDate.value)
    requires planned.discountDeadline.Some? ==> Valid(planned.discountDeadline.value)
    requires planned.daysUntilDue.None? && planned.daysUntilDiscountDeadline.None?
    ensures result == WithDays(request, planned, before)
  {
    hide DaysBetween;
    result := planned;
    var notes := before;
    var milestones: seq<Milestone> := [];
    if result.discountDeadline.Some? {
      var left := DaysBetween(result.discountDeadline.value, AsOf(request));
      result := result.(daysUntilDiscountDeadline := Some(left));
      milestones := milestones +
        [Milestone(EarlyPaymentDiscount, result.discountDeadline.value, left, result.amountAfterDiscount)];
    }
    if result.dueDate.Some? {
      var left := DaysBetween(result.dueDate.value, AsOf(request));
      result := result.(daysUntilDue := Some(left));
      milestones := milestones + [Milestone(NetDue, result.dueDate.value, left, request.amount)];
    }
    if result.daysUntilDue.Some? && result.daysUntilDue.value < 0 {
      notes := notes + [PastDue];
    }
    if result.daysUntilDiscountDeadline.Some? && result.daysUntilDiscountDeadline.value < 0 {
      notes := notes + [DiscountClosed];
    }
    assert milestones == WithDays(request, planned, before).milestones;
    assert notes == WithDays(request, planned, before).notes;
    result := result.(milestones := milestones, notes := notes);
  }

  method CalculatePaymentTerms(request: Request) returns (r: Result<TermsResult>)
    requires ValidRequest(request)
    ensures r == Calculated(request)
  {
    hide T.Parse, RoundMoney, DiscountOn, WithDays, PlanOf;
    var applied := ApplyTerms(request);
    if applied.Raised? { return Raised; }
    var (result, notes) := applied.value;
    if !result.parsed {
      notes := notes + [NotParsed];
      assert notes == [NotParsed];
      return Ok(result.(notes := notes));
    }
    if result.discountPercent.Some? && request.amount.Some? && request.amount.value > 0.0 {
      var discount := DiscountOn(request.amount.value, result.discountPercent.value);
      result := result.(discountAmount := Some(discount));
      result := result.(amountAfterDiscount := Some(RoundMoney(request.amount.value - discount)));
    }
    result := FillDays(request, result, notes);
    return Ok(result);
  }

  // Dates.

  /** The due date lies the net days after the invoice date, never before it, and the discount deadline
      the discount days after it. */
  lemma DueDateIsNetDaysLater(request: Request)
    requires ValidRequest(request) && Calculated(request).Ok? && Calculated(request).value.parsed
    ensures var r := Calculated(request).value;
            && r.netDays.Some? && r.netDays.value >= 0
            && r.dueDate.Some? && InRange(r.dueDate.value)
            && DaysBetween(r.dueDate.value, request.invoiceDate) == r.netDays.value
            && (r.discountDeadline.Some? <==> r.discountDays.Some?)
            && (r.discountDays.Some? ==> DaysBetween(r.discountDeadline.value, request.invoiceDate) == r.discountDays.value)
  {
    hide T.Parse, RoundMoney, WithDiscount, PlanOf, DaysBetween;
    var terms := T.Parse(request.terms);
    PlanIsLater(request.invoiceDate, terms);
    DiscountChangesAmountsOnly(request);
  }

  lemma PlanIsLater(date: Date, terms: T.Terms)
    requires InRange(date) && terms != T.Unknown && PlanOf(date, terms).Ok?
    ensures var plan := PlanOf(date, terms).value;
            && plan.netDays >= 0 && InRange(plan.due) && DaysBetween(plan.due, date) == plan.netDays
            && (terms.Discount? <==> plan.deadline.Some?)
            && (terms.Discount? ==> DaysBetween(plan.deadline.value, date) == terms.discountDays)
  {
    hide Ordinal;
    LastOfMonthIsLater(date);
  }

  lemma DiscountChangesAmountsOnly(request: Request)
    ensures forall r :: WithDiscount(request, r) ==
              r.(discountAmount := WithDiscount(request, r).discountAmount,
                 amountAfterDiscount := WithDiscount(request, r).amountAfterDiscount)
  {
  }

  lemma LastOfMonthIsLater(d: Date)
    requires InRange(d)
    ensures Ordinal(LastOfMonth(d)) >= Ordinal(d)
  {
  }

  /** The furthest day the terms ask for, counted from the invoice date. */
  function Reach(date: Date, terms: T.Terms): nat
    requires InRange(date)
  {
    match terms
    case Discount(_, discountDays, netDays) => if discountDays > netDays then discountDays else netDays
    case EndOfMonth(extra) => LastOfMonth(date).day - date.day + extra
    case Net(days) => days
    case _ => 0
  }

  /** A date is always found, unless a day asked for lies beyond the year 9999. */
  lemma RaisesExactlyBeyondCalendar(request: Request)
    requires ValidRequest(request)
    ensures Calculated(request).Raised? <==>
            Ordinal(request.invoiceDate) + Reach(request.invoiceDate, T.Parse(request.terms)) > LAST_ORDINAL
  {
    hide T.Parse, WithDiscount, WithDays, DaysBeforeMonth, DaysBeforeYear, DaysInMonth;
    RangeByOrdinal(request.invoiceDate);
  }

  /** A day is the last of its month when the next day is in another month. */
  predicate IsLastOfMonth(d: Date)
    requires Valid(d)
  {
    NextDay(d).month != d.month
  }

  /** End-of-month terms fall due the extra days after the true last day of the invoice month, in leap
      years and in December as in any other month. */
  lemma EndOfMonthIsTrue(request: Request, last: Date)
    requires ValidRequest(request) && T.Parse(request.terms).EndOfMonth? && Calculated(request).Ok?
    requires Valid(last) && IsLastOfMonth(last)
    requires last.year == request.invoiceDate.year && last.month == request.invoiceDate.month
    ensures Calculated(request).value.dueDate.Some?
    ensures DaysBetween(Calculated(request).value.dueDate.value, last) == T.Parse(request.terms).extra
  {
    hide T.Parse, Ordinal;
    assert last == LastOfMonth(request.invoiceDate);
    DiscountChangesAmountsOnly(request);
  }

  /** The notes say that the due date or the discount deadline has passed exactly when it has, and the
      milestones list the deadline before the due date. */
  lemma OverdueIsNoted(request: Request)
    requires ValidRequest(request) && Calculated(request).Ok? && Calculated(request).value.parsed
    ensures var r := Calculated(request).value;
            && r.dueDate.Some?
            && (PastDue in r.notes <==> Ordinal(r.dueDate.value) < Ordinal(AsOf(request)))
            && (DiscountClosed in r.notes <==>
                r.discountDeadline.Some? && Ordinal(r.discountDeadline.value) < Ordinal(AsOf(request)))
            && |r.milestones| == (if r.discountDeadline.Some? then 2 else 1)
            && r.milestones[|r.milestones| - 1] ==
               Milestone(NetDue, r.dueDate.value, DaysBetween(r.dueDate.value, AsOf(request)), request.amount)
  {
    hide T.Parse, PlanOf, Ordinal, DiscountOn, RoundMoney;
    DiscountChangesAmountsOnly(request);
  }

  // Money.

  predicate IsCents(x: real) {
    (100.0 * x).Floor as real == 100.0 * x
  }

  lemma RoundMoneyIsCents(x: real)
    ensures IsCents(RoundMoney(x)) && -0.005 <= RoundMoney(x) - x <= 0.005
    ensures IsCents(x) ==> RoundMoney(x) == x
  {
    var n := Rounding.HalfUp(100.0 * x);
    assert 100.0 * RoundMoney(x) == n as real;
    Rounding.WholeIsFixed((100.0 * x).Floor);
    hide Rounding.HalfUp;
  }

  lemma CentsByNumber(x: real, n: int)
    requires 100.0 * x == n as real
    ensures IsCents(x)
  {
  }

  lemma CentsAddUp(x: real, y: real)
    requires IsCents(x) && IsCents(y)
    ensures IsCents(x + y) && IsCents(x - y)
  {
    var m, n := (100.0 * x).Floor, (100.0 * y).Floor;
    CentsByNumber(x + y, m + n);
    CentsByNumber(x - y, m - n);
  }

  /** Discount and remainder add up to the amount exactly when the amount is in whole cents, and are never
      off by more than half a cent. */
  lemma DiscountConservesAmount(amount: real, percent: real)
    ensures var discount := DiscountOn(amount, percent);
            var after := RoundMoney(amount - discount);
            && (discount + after == amount <==> IsCents(amount))
            && -0.005 <= discount + after - amount <= 0.005
  {
    var discount := DiscountOn(amount, percent);
    var after := RoundMoney(amount - discount);
    RoundMoneyIsCents(amount * percent / 100.0);
    RoundMoneyIsCents(amount - discount);
    if IsCents(amount) { CentsAddUp(amount, discount); }
    CentsAddUp(discount, after);
  }

  /** A discount of at most 100 percent leaves between nothing and the whole of an amount in cents. */
  lemma DiscountStaysWithinAmount(amount: real, percent: real)
    requires amount >= 0.0 && IsCents(amount) && 0.0 <= percent <= 100.0
    ensures 0.0 <= DiscountOn(amount, percent) <= amount
  {
    var share := amount * percent / 100.0;
    assert 0.0 <= share <= amount by {
      assert amount * percent <= amount * 100.0;
      assert amount * percent >= 0.0;
    }
    Rounding.HalfUpIsMonotone(0.0, 100.0 * share);
    Rounding.HalfUpIsMonotone(100.0 * share, 100.0 * amount);
    RoundMoneyIsCents(amount);
    Rounding.WholeIsFixed(0);
  }

  /** What the calculation reports of an amount is that split. */
  lemma ReportedDiscountConserves(request: Request)
    requires ValidRequest(request) && Calculated(request).Ok? && Calculated(request).value.discountAmount.Some?
    ensures var r := Calculated(request).value;
            && request.amount.Some? && r.discountPercent.Some? && r.amountAfterDiscount.Some?
            && (r.discountAmount.value + r.amountAfterDiscount.value == request.amount.value <==> IsCents(request.amount.value))
  {
    hide T.Parse, RoundMoney, DiscountOn, DaysBetween, IsCents, PlanOf;
    var terms := T.Parse(request.terms);
    if terms.Discount? && request.amount.Some? { DiscountConservesAmount(request.amount.value, terms.percent); }
  }

  /** The discount is the stated percentage of the amount, to the nearest cent, and the remainder is what is left. */
  lemma DiscountIsShare(amount: real, percent: real)
    ensures var discount := DiscountOn(amount, percent);
            var after := RoundMoney(amount - discount);
            && IsCents(discount) && IsCents(after)
            && -0.005 <= discount - amount * percent / 100.0 <= 0.005
            && -0.005 <= after - (amount - discount) <= 0.005
  {
    RoundMoneyIsCents(amount * percent / 100.0);
    RoundMoneyIsCents(amount - DiscountOn(amount, percent));
  }

  /** A discount is reported exactly for discount terms on a positive amount: the stated percentage of it, to the
      nearest cent. */
  lemma DiscountIsReportedExactly(request: Request)
    requires ValidRequest(request) && Calculated(request).Ok?
    ensures var r := Calculated(request).value;
            var terms := T.Parse(request.terms);
            && (r.discountAmount.Some? <==> terms.Discount? && request.amount.Some? && request.amount.value > 0.0)
            && (r.discountAmount.Some? <==> r.amountAfterDiscount.Some?)
            && (r.discountAmount.Some? ==>
                  && -0.005 <= r.discountAmount.value - request.amount.value * terms.percent / 100.0 <= 0.005
                  && -0.005 <= r.amountAfterDiscount.value - (request.amount.value - r.discountAmount.value) <= 0.005)
  {
    hide T.Parse, RoundMoney, DiscountOn, DaysBetween, IsCents, PlanOf;
    var terms := T.Parse(request.terms);
    if terms.Discount? && request.amount.Some? { DiscountIsShare(request.amount.value, terms.percent); }
  }

  /** What terms of each kind fix: discount terms are due after their net days, with the percentage off within their
      discount days, net terms after their days, end-of-month terms so many days after the month's end, and the other
      two on the invoice date. */
  predicate FixesTerms(r: TermsResult, date: Date, terms: T.Terms)
    requires InRange(date) && (r.dueDate.Some? ==> Valid(r.dueDate.value))
    requires r.discountDeadline.Some? ==> Valid(r.discountDeadline.value)
  {
    && r.parsed && r.dueDate.Some?
    && match terms
       case Unknown => false
       case DueOnReceipt => r.termType == DueOnReceipt && r.dueDate.value == date && r.netDays == Some(0)
       case CashOnDelivery => r.termType == Cod && r.dueDate.value == date && r.netDays == Some(0)
       case Net(days) => r.termType == NetTerms && r.netDays == Some(days) && DaysBetween(r.dueDate.value, date) == days
       case EndOfMonth(extra) => r.termType == Eom && DaysBetween(r.dueDate.value, LastOfMonth(date)) == extra
       case Discount(percent, discountDays, netDays) =>
         && r.termType == DiscountTerms && r.netDays == Some(netDays) && DaysBetween(r.dueDate.value, date) == netDays
         && r.discountPercent == Some(percent) && r.discountDays == Some(discountDays)
         && r.discountDeadline.Some? && DaysBetween(r.discountDeadline.value, date) == discountDays
  }

  lemma PlannedTerms(request: Request, terms: T.Terms)
    requires ValidRequest(request) && terms != T.Unknown && PlanOf(request.invoiceDate, terms).Ok?
    ensures var planned := Planned(request, terms, PlanOf(request.invoiceDate, terms).value);
            planned.rawTerms == Text.Strip(request.terms) && FixesTerms(planned, request.invoiceDate, terms)
  {
    hide Ordinal, DaysInMonth, Text.Strip;
  }

  lemma DaysKeepTerms(request: Request, result: TermsResult, notes: seq<Note>, terms: T.Terms)
    requires ValidRequest(request) && (result.dueDate.Some? ==> Valid(result.dueDate.value))
    requires result.discountDeadline.Some? ==> Valid(result.discountDeadline.value)
    requires FixesTerms(result, request.invoiceDate, terms)
    ensures var r := WithDays(request, result, notes);
            && r.dueDate == result.dueDate && r.discountDeadline == result.discountDeadline && r.rawTerms == result.rawTerms
            && FixesTerms(r, request.invoiceDate, terms)
  {
    hide DaysBetween, LastOfMonth;
  }

  /** Terms mean what they say. Together with the parser's reading of the printed forms this says when each is due. */
  lemma TermsAreDue(request: Request)
    requires ValidRequest(request) && Calculated(request).Ok? && T.Parse(request.terms) != T.Unknown
    ensures var r := Calculated(request).value;
            && r.rawTerms == Text.Strip(request.terms)
            && (r.dueDate.Some? ==> Valid(r.dueDate.value)) && (r.discountDeadline.Some? ==> Valid(r.discountDeadline.value))
            && FixesTerms(r, request.invoiceDate, T.Parse(request.terms))
  {
    hide T.Parse, PlanOf, FixesTerms, Ordinal, DaysInMonth, DaysBeforeYear, DaysBeforeMonth, WithDays, Text.Strip;
    var terms := T.Parse(request.terms);
    PlannedTerms(request, terms);
    var planned := Planned(request, terms, PlanOf(request.invoiceDate, terms).value);
    DiscountChangesAmountsOnly(request);
    DiscountKeepsTerms(request, planned, terms);
    DaysKeepTerms(request, WithDiscount(request, planned), if terms == T.CashOnDelivery then [CashOnDelivery] else [], terms);
  }

  lemma DiscountKeepsTerms(request: Request, result: TermsResult, terms: T.Terms)
    requires ValidRequest(request) && (result.dueDate.Some? ==> Valid(result.dueDate.value))
    requires result.discountDeadline.Some? ==> Valid(result.discountDeadline.value)
    requires FixesTerms(result, request.invoiceDate, terms)
    ensures var r := WithDiscount(request, result);
            && r.dueDate == result.dueDate && r.discountDeadline == result.discountDeadline && r.rawTerms == result.rawTerms
            && FixesTerms(r, request.invoiceDate, terms)
  {
    hide DaysBetween, LastOfMonth, DiscountOn, RoundMoney;
  }

  /** Terms that cannot be read fix nothing and are noted, and cash on delivery is. */
  lemma UnreadTermsAreNoted(request: Request)
    requires ValidRequest(request) && Calculated(request).Ok?
    ensures var r := Calculated(request).value;
            && (r.parsed <==> T.Parse(request.terms) != T.Unknown)
            && (!r.parsed ==> r.dueDate == None && r.discountAmount == None && r.milestones == [] && r.notes == [NotParsed]
                              && r.termType == UnknownTerms && r.rawTerms == Text.Strip(request.terms))
            && (CashOnDelivery in r.notes <==> T.Parse(request.terms) == T.CashOnDelivery)
  {
    hide T.Parse, PlanOf, DaysBetween, DiscountOn, RoundMoney, Text.Strip;
    DiscountChangesAmountsOnly(request);
  }

  /** The remaining days, the notes on them and the first milestone count from this day. */
  predicate CountsFrom(r: TermsResult, from: Date)
    requires Valid(from)
    requires r.dueDate.Some? && Valid(r.dueDate.value) && (r.discountDeadline.Some? ==> Valid(r.discountDeadline.value))
  {
    && r.daysUntilDue == Some(Ordinal(r.dueDate.value) - Ordinal(from))
    && (PastDue in r.notes <==> Ordinal(r.dueDate.value) < Ordinal(from))
    && (DiscountClosed in r.notes <==> r.discountDeadline.Some? && Ordinal(r.discountDeadline.value) < Ordinal(from))
    && (r.discountDeadline.Some? ==>
          && r.daysUntilDiscountDeadline == Some(Ordinal(r.discountDeadline.value) - Ordinal(from))
          && r.milestones != []
          && r.milestones[0] == Milestone(EarlyPaymentDiscount, r.discountDeadline.value,
                                          Ordinal(r.discountDeadline.value) - Ordinal(from), r.amountAfterDiscount))
  }

  lemma DaysLeft(request: Request, result: TermsResult, notes: seq<Note>)
    requires ValidRequest(request) && result.dueDate.Some? && Valid(result.dueDate.value)
    requires result.discountDeadline.Some? ==> Valid(result.discountDeadline.value)
    requires forall n | n in notes :: n == CashOnDelivery
    ensures var r := WithDays(request, result, notes);
            && r.dueDate == result.dueDate && r.discountDeadline == result.discountDeadline
            && CountsFrom(r, if request.asOf.Some? then request.asOf.value else request.invoiceDate)
  {
    hide Ordinal;
  }

  /** The remaining days count from the day asked about, and from the invoice date if none is given. The first milestone
      is the discount deadline, with what remains to be paid then. */
  lemma DaysRemain(request: Request)
    requires ValidRequest(request) && Calculated(request).Ok? && Calculated(request).value.parsed
    ensures var r := Calculated(request).value;
            && r.dueDate.Some? && Valid(r.dueDate.value) && (r.discountDeadline.Some? ==> Valid(r.discountDeadline.value))
            && CountsFrom(r, if request.asOf.Some? then request.asOf.value else request.invoiceDate)
  {
    var result, notes := ParsedIs(request);
    hide Calculated, WithDays, CountsFrom;
    DaysLeft(request, result, notes);
  }

  /** So an invoice is never overdue on its own date, nor its discount closed. */
  lemma NotOverdueAtFirst(request: Request)
    requires ValidRequest(request) && Calculated(request).Ok? && Calculated(request).value.parsed && request.asOf.None?
    ensures var r := Calculated(request).value;
            PastDue !in r.notes && DiscountClosed !in r.notes && r.daysUntilDue == r.netDays
  {
    hide Calculated, Ordinal;
    DaysRemain(request);
    DueDateIsNetDaysLater(request);
    DiscountDaysAreNatural(request);
  }

  lemma DiscountDaysAreNatural(request: Request)
    requires ValidRequest(request) && Calculated(request).Ok?
    ensures Calculated(request).value.discountDays.Some? ==> Calculated(request).value.discountDays.value >= 0
  {
    hide T.Parse, PlanOf, Ordinal, DaysBetween, DiscountOn, RoundMoney;
    DiscountChangesAmountsOnly(request);
  }

  lemma ParsedIs(request: Request) returns (result: TermsResult, notes: seq<Note>)
    requires ValidRequest(request) && Calculated(request).Ok? && Calculated(request).value.parsed
    ensures result.dueDate.Some? && Valid(result.dueDate.value)
    ensures result.discountDeadline.Some? ==> Valid(result.discountDeadline.value)
    ensures (forall n | n in notes :: n == CashOnDelivery) && Calculated(request) == Ok(WithDays(request, result, notes))
  {
    hide T.Parse, PlanOf, Ordinal, WithDays, WithDiscount, DaysInMonth, DaysBeforeYear, DaysBeforeMonth;
    var terms := T.Parse(request.terms);
    DiscountChangesAmountsOnly(request);
    result := WithDiscount(request, Planned(request, terms, PlanOf(request.invoiceDate, terms).value));
    notes := if terms == T.CashOnDelivery then [CashOnDelivery] else [];
  }
}
