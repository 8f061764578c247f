/** What any sequence of repair runs, crashing anywhere, does to a voucher's records. */
module RepairResults {
  import opened Repair
  import opened Seqs
  import opened Text

  datatype Attempt = Attempt(plan: Plan, dryRun: bool)

  function After(w: World, a: Attempt): World {
    Repaired(w, a.plan, a.dryRun).world
  }

  /** Non-overlapping runs, one after the other. */
  function AfterAll(w: World, attempts: seq<Attempt>): World {
    if attempts == [] then w
    else After(AfterAll(w, attempts[..|attempts| - 1]), attempts[|attempts| - 1])
  }

  // Never a duplicate.

  /** Payments and invoices already there stay; each list grows at most from none to one. */
  predicate Grows(w: World, v: World) {
    && (w.payments == [] ==> |v.payments| <= 1)
    && (w.payments != [] ==> |v.payments| == |w.payments|)
    && (forall i :: 0 <= i < |w.payments| ==> v.payments[i].number == w.payments[i].number)
    && (if w.invoices == [] then |v.invoices| <= 1 else v.invoices == w.invoices)
    && (w.partner ==> v.partner)
    && v.status == w.status && v.paymentId == w.paymentId && w.data.Keys <= v.data.Keys
  }

  lemma {:induction false} LinkGrows(w: World, name: string)
    ensures Grows(w, LinkInvoice(w, name))
  {
  }

  lemma {:induction false} CreateGrows(w: World, invoice: string, number: string)
    ensures Grows(w, CreatePayment(w, invoice, number))
  {
  }

  lemma {:induction false} RecordGrows(w: World, name: string, p: Plan)
    ensures Grows(w, RecordPayment(w, name, p).world)
  {
    LinkGrows(w, name);
    var linked := if name != "" && Applied(p.link) then LinkInvoice(w, name) else w;
    assert Grows(w, linked);
    CreateGrows(linked, name, p.number);
  }

  lemma {:induction false} OneRunGrows(w: World, a: Attempt)
    ensures Grows(w, After(w, a))
  {
    if Eligible(w) && !a.dryRun {
      var p := a.plan;
      if Stored(w) != "" {
        RecordGrows(w, Stored(w), p);
      } else {
        var w1 := if Applied(p.partner) then w.(partner := true) else w;
        var w2 := if Applied(p.invoice) then FromSource(w1, p.name) else w1;
        assert Grows(w, w1) && Grows(w, w2);
        if p.partner.Fine? && p.invoice.Fine? {
          RecordGrows(w2, w2.invoices[0], p);
        }
      }
    }
  }

  /** Over any runs: no second payment, no second invoice, nothing renumbered, nothing withdrawn. */
  lemma {:induction false} NeverASecondRecord(w: World, attempts: seq<Attempt>)
    ensures Grows(w, AfterAll(w, attempts))
  {
    if attempts != [] {
      var front := attempts[..|attempts| - 1];
      NeverASecondRecord(w, front);
      OneRunGrows(AfterAll(w, front), attempts[|attempts| - 1]);
    }
  }

  /** A payment is only ever recorded for a voucher whose invoice exists. */
  predicate InvoicedFirst(w: World) {
    w.payments != [] ==> w.invoices != [] || Stored(w) != ""
  }

  lemma {:induction false} InvoiceComesFirst(w: World, attempts: seq<Attempt>)
    requires InvoicedFirst(w)
    requires forall a <- attempts :: a.plan.name != ""
    requires forall n <- w.invoices :: n != ""
    ensures InvoicedFirst(AfterAll(w, attempts)) && forall n <- AfterAll(w, attempts).invoices :: n != ""
  {
    if attempts != [] {
      var front, a := attempts[..|attempts| - 1], attempts[|attempts| - 1];
      assert a in attempts;
      InvoiceComesFirst(w, front);
      NamesStay(AfterAll(w, front), a);
    }
  }

  /** Neither a stored invoice number nor ushanr's invoice names ever become empty. */
  lemma {:induction false} NamesStay(w: World, a: Attempt)
    requires a.plan.name != "" && forall n <- w.invoices :: n != ""
    ensures Stored(w) != "" ==> Stored(After(w, a)) != ""
    ensures forall n <- After(w, a).invoices :: n != ""
    ensures w.payments == [] && After(w, a).payments != [] ==> After(w, a).invoices != [] || Stored(After(w, a)) != ""
  {
    if Eligible(w) && !a.dryRun {
      var p := a.plan;
      if Stored(w) != "" {
        RecordKeepsNames(w, Stored(w), p);
      } else if p.partner.Fine? && p.invoice.Fine? {
        var v := FromSource(w.(partner := true), p.name);
        assert v.invoices[0] in v.invoices;
        RecordKeepsNames(v, v.invoices[0], p);
      }
    }
  }

  lemma {:induction false} RecordKeepsNames(w: World, name: string, p: Plan)
    requires name != ""
    ensures RecordPayment(w, name, p).world.invoices == w.invoices
    ensures Stored(w) != "" ==> Stored(RecordPayment(w, name, p).world) != ""
  {
    LinkStoresName(w, name);
    CreateKeepsNames(w, name, p.number);
    CreateKeepsNames(LinkInvoice(w, name), name, p.number);
  }

  lemma {:induction false} LinkStoresName(w: World, name: string)
    requires name != ""
    ensures Stored(LinkInvoice(w, name)) == name && LinkInvoice(w, name).invoices == w.invoices
  {
  }

  lemma {:induction false} CreateKeepsNames(w: World, name: string, number: string)
    ensures Stored(w) != "" ==> Stored(CreatePayment(w, name, number)) != ""
    ensures CreatePayment(w, name, number).invoices == w.invoices
  {
  }

  // Runs that must write nothing.

  predicate Live(a: Attempt) {
    !a.dryRun
  }

  /** Dry runs anywhere among the others have no effect on the outcome. */
  lemma {:induction false} DryRunsDoNotMatter(w: World, attempts: seq<Attempt>)
    ensures AfterAll(w, attempts) == AfterAll(w, Filter(attempts, Live))
  {
    if attempts != [] {
      var front, last := attempts[..|attempts| - 1], attempts[|attempts| - 1];
      assert attempts == front + [last];
      DryRunsDoNotMatter(w, front);
      FilterAppend(front, [last], Live);
      assert Filter([last], Live) == if Live(last) then [last] else [];
      if Live(last) {
        assert (Filter(front, Live) + [last])[..|Filter(front, Live)|] == Filter(front, Live);
      } else {
        assert Filter(front, Live) + [] == Filter(front, Live);
      }
    }
  }

  /** An ineligible voucher is never touched, however often the script is run on it. */
  lemma {:induction false} IneligibleIsNeverTouched(w: World, attempts: seq<Attempt>)
    requires !Eligible(w)
    ensures AfterAll(w, attempts) == w
  {
    if attempts != [] {
      IneligibleIsNeverTouched(w, attempts[..|attempts| - 1]);
    }
  }

  // Where the runs converge.

  /** At most one payment, and every invoice in ushanr has a name. */
  predicate Good(w: World) {
    Eligible(w) && |w.payments| <= 1 && forall n <- w.invoices :: n != ""
  }

  /** The invoice name is reachable without creating anything. */
  predicate Invoiced(w: World) {
    Stored(w) != "" || (w.partner && w.invoices != [])
  }

  /** One payment, and its invoice is known; the payment may not carry the number yet. */
  predicate HalfWay(w: World) {
    |w.payments| == 1 && Invoiced(w)
  }

  predicate Settled(w: World) {
    HalfWay(w) && w.payments[0].invoice != ""
  }

  lemma {:induction false} EligibleStays(w: World, a: Attempt)
    requires Eligible(w)
    ensures Eligible(After(w, a))
  {
    OneRunGrows(w, a);
    if w.data != map[] {
      var k :| k in w.data.Keys;
      assert k in After(w, a).data.Keys;
    }
  }

  lemma {:induction false} GoodStays(w: World, a: Attempt)
    requires Good(w) && a.plan.name != ""
    ensures Good(After(w, a))
    ensures HalfWay(w) ==> HalfWay(After(w, a))
  {
    EligibleStays(w, a);
    OneRunGrows(w, a);
    NamesStay(w, a);
  }

  /** Once settled, no run of any kind changes anything. */
  lemma {:induction false} SettledIsFinal(w: World, a: Attempt)
    requires Settled(w)
    ensures After(w, a) == w
  {
    assert a.plan.pick % |w.payments| == 0;
  }

  /** The name a run works with. */
  function KnownName(w: World, plan: Plan): string {
    if Stored(w) != "" then Stored(w) else if w.invoices != [] then w.invoices[0] else plan.name
  }

  /** A run in which no call fails completes, and leaves one payment and a known invoice. */
  lemma {:induction false} CleanRunGetsHalfWay(w: World, plan: Plan)
    requires Good(w) && plan.name != "" && NoFailure(plan)
    ensures Repaired(w, plan, false).exit.Completed?
    ensures HalfWay(Repaired(w, plan, false).world)
  {
    assert w.invoices != [] ==> w.invoices[0] in w.invoices;
  }

  /**
    * Exactly when one clean run finishes the repair: the payment row was already there, or the invoice name has the
    * format the payment endpoint trusts.
    */
  lemma {:induction false} CleanRunSettlesIff(w: World, plan: Plan)
    requires Good(w) && plan.name != "" && NoFailure(plan)
    ensures Settled(Repaired(w, plan, false).world) <==> w.payments != [] || Trusted(KnownName(w, plan))
  {
    CleanRunGetsHalfWay(w, plan);
    assert w.invoices != [] ==> w.invoices[0] in w.invoices;
    if w.payments != [] {
      assert plan.pick % |w.payments| == 0;
    }
  }

  lemma {:induction false} SecondCleanRunSettles(w: World, plan: Plan)
    requires Good(w) && HalfWay(w) && plan.name != "" && NoFailure(plan)
    ensures Settled(Repaired(w, plan, false).world)
  {
    CleanRunSettlesIff(w, plan);
  }

  function CleanRuns(attempts: seq<Attempt>): nat {
    if attempts == [] then 0
    else
      CleanRuns(attempts[..|attempts| - 1]) +
      (if NoFailure(attempts[|attempts| - 1].plan) && !attempts[|attempts| - 1].dryRun then 1 else 0)
  }

  /** However many runs fail or crash in between, one clean run gets half way and a second one settles. */
  lemma {:induction false} TwoCleanRunsSuffice(w: World, attempts: seq<Attempt>)
    requires Good(w) && forall a <- attempts :: a.plan.name != ""
    ensures Good(AfterAll(w, attempts))
    ensures CleanRuns(attempts) >= 1 ==> HalfWay(AfterAll(w, attempts))
    ensures CleanRuns(attempts) >= 2 ==> Settled(AfterAll(w, attempts))
  {
    if attempts != [] {
      var front, a := attempts[..|attempts| - 1], attempts[|attempts| - 1];
      assert a in attempts;
      TwoCleanRunsSuffice(w, front);
      var v := AfterAll(w, front);
      GoodStays(v, a);
      if Settled(v) {
        SettledIsFinal(v, a);
      } else if NoFailure(a.plan) && !a.dryRun {
        CleanRunGetsHalfWay(v, a.plan);
        if HalfWay(v) {
          SecondCleanRunSettles(v, a.plan);
        }
      }
    }
  }

  /** The states nothing can change any more are exactly the settled ones. */
  lemma {:induction false} FinalIffSettled(w: World, number: string)
    requires Good(w)
    ensures Settled(w) <==> forall a: Attempt :: a.plan.name != "" ==> After(w, a) == w
  {
    if Settled(w) {
      forall a: Attempt | a.plan.name != "" ensures After(w, a) == w {
        SettledIsFinal(w, a);
      }
    } else {
      var plan := Plan(Fine, Fine, Fine, Fine, "INV/2026/10/00002", number, 0);
      CleanRunGetsHalfWay(w, plan);
      if HalfWay(w) {
        SecondCleanRunSettles(w, plan);
      }
      assert After(w, Attempt(plan, false)) != w;
    }
  }

  // The format check decides; two names from the repository's own comments.

  lemma {:induction false} UshanrNameIsTrusted()
    ensures Trusted("INV/2026/10/00002")
  {
    var s := "INV/2026/10/00002";
    assert Strip(s) == s;
    assert s[..3] == "INV" && s[4..8] == "2026" && s[9..11] == "10" && s[12..] == "00002";
    assert NamedWithPrefix(s, 3);
  }

  /** With such a name a single clean run repairs a voucher that has neither invoice nor payment. */
  lemma {:induction false} UshanrNameSettlesAtOnce(w: World, plan: Plan)
    requires Good(w) && w.payments == [] && w.invoices == [] && Stored(w) == ""
    requires NoFailure(plan) && plan.name == "INV/2026/10/00002"
    ensures Settled(Repaired(w, plan, false).world)
  {
    UshanrNameIsTrusted();
    CleanRunSettlesIff(w, plan);
  }

  /** A voucher that already carries a front-end's made-up number. */
  lemma {:induction false} FabricatedNumberNeedsTwoRuns(w: World, plan: Plan)
    requires Good(w) && w.payments == [] && Get(w.data, "invoice_number") == "INV/2026/00011"
    requires plan.name != "" && NoFailure(plan)
    ensures var v := Repaired(w, plan, false).world;
            && v.payments == [Payment(plan.number, "")]
            && Repaired(v, plan, false).world.payments == [Payment(plan.number, "INV/2026/00011")]
  {
    var s := "INV/2026/00011";
    assert Strip(s) == s;
    assert |s| == 14;
    assert !MatchesFormat(s);
    assert TrustedInvoiceNumber(s) == "";
    var v := Repaired(w, plan, false).world;
    assert v.payments == [Payment(plan.number, "")];
    assert Get(v.data, "invoice_number") == s;
    EligibleStays(w, Attempt(plan, false));
    assert plan.pick % 1 == 0;
  }

  /** A payment's invoice number, once set, stays what it is. */
  lemma {:induction false} InvoiceNumberIsStable(w: World, attempts: seq<Attempt>)
    requires |w.payments| == 1 && w.payments[0].invoice != ""
    ensures AfterAll(w, attempts).payments == w.payments
  {
    if attempts != [] {
      InvoiceNumberIsStable(w, attempts[..|attempts| - 1]);
      var v := AfterAll(w, attempts[..|attempts| - 1]);
      assert attempts[|attempts| - 1].plan.pick % |v.payments| == 0;
    }
  }

  // What the single decisions mean.

  /** PREFIX/YYYY/MM/NNNNN: two to six capitals, a year, a month and at least five digits, with slashes between. */
  ghost predicate UshanrName(s: string, prefix: string, year: string, month: string, serial: string) {
    && s == prefix + "/" + year + "/" + month + "/" + serial
    && 2 <= |prefix| <= 6 && (forall c <- prefix :: 'A' <= c <= 'Z')
    && |year| == 4 && (forall c <- year :: '0' <= c <= '9')
    && |month| == 2 && (forall c <- month :: '0' <= c <= '9')
    && |serial| >= 5 && (forall c <- serial :: '0' <= c <= '9')
  }

  lemma {:induction false} NameHasParts(s: string, k: nat)
    requires 2 <= k <= 6 && NamedWithPrefix(s, k)
    ensures UshanrName(s, s[..k], s[k + 1..k + 5], s[k + 6..k + 8], s[k + 9..])
  {
    assert s[k..k + 1] == "/" && s[k + 5..k + 6] == "/" && s[k + 8..k + 9] == "/";
    var front, back := s[..k] + s[k..k + 1] + s[k + 1..k + 5], s[k + 6..k + 8] + s[k + 8..k + 9] + s[k + 9..];
    assert s == front + s[k + 5..k + 6] + back;
  }

  lemma {:induction false} PartsMakeName(s: string, prefix: string, year: string, month: string, serial: string)
    requires UshanrName(s, prefix, year, month, serial)
    ensures MatchesFormat(s)
  {
    var k := |prefix|;
    assert s[..k] == prefix && s[k + 1..k + 5] == year && s[k + 6..k + 8] == month && s[k + 9..] == serial;
    assert NamedWithPrefix(s, k);
  }

  /** The trusted names are exactly those of ushanr's format, once stripped. */
  lemma {:induction false} TrustedIff(supplied: string)
    ensures Trusted(supplied) <==>
            exists prefix, year, month, serial :: UshanrName(Strip(supplied), prefix, year, month, serial)
  {
    var s := Strip(supplied);
    if k: nat :| 2 <= k <= 6 && NamedWithPrefix(s, k) {
      NameHasParts(s, k);
    }
    if prefix, year, month, serial :| UshanrName(s, prefix, year, month, serial) {
      PartsMakeName(s, prefix, year, month, serial);
    }
  }

  /** Vouchers that must have been paid are repaired, whatever the case of their status; others are not. */
  lemma {:induction false} PaidStatuses(w: World)
    ensures var traced := w.paymentId != "" || exists key :: key in w.data;
            && (Lower(w.status) == "active" ==> (Eligible(w) <==> traced))
            && (Lower(w.status) == "scheduled" ==> (Eligible(w) <==> traced))
            && (Lower(w.status) == "delivered" ==> (Eligible(w) <==> traced))
            && (Lower(w.status) == "redeemed" ==> (Eligible(w) <==> traced))
            && (Lower(w.status) == "expired" ==> (Eligible(w) <==> traced))
    ensures Lower(w.status) == "pending_payment" || Lower(w.status) == "cancelled" || w.status == "" ==> !Eligible(w)
  {
    assert w.data != map[] <==> exists key :: key in w.data.Keys;
  }

  /** A number under either key of the voucher's payment data means no invoice is made, in any sequence of runs. */
  lemma {:induction false} KnownNumberMakesNoInvoice(w: World, attempts: seq<Attempt>)
    requires ("invoice_number" in w.data && w.data["invoice_number"] != "") ||
             ("ushanr_invoice_number" in w.data && w.data["ushanr_invoice_number"] != "")
    requires forall a <- attempts :: a.plan.name != ""
    requires forall n <- w.invoices :: n != ""
    ensures var v := AfterAll(w, attempts);
            v.invoices == w.invoices && v.partner == w.partner && Stored(v) != ""
  {
    if attempts != [] {
      var front, a := attempts[..|attempts| - 1], attempts[|attempts| - 1];
      assert a in attempts;
      KnownNumberMakesNoInvoice(w, front);
      var v := AfterAll(w, front);
      NamesStay(v, a);
      KeptByOne(v, a);
    }
  }

  lemma {:induction false} KeptByOne(w: World, a: Attempt)
    requires Stored(w) != ""
    ensures After(w, a).invoices == w.invoices && After(w, a).partner == w.partner
  {
    RecordKeepsNames(w, Stored(w), a.plan);
  }

  /** All a first clean run leaves behind for a voucher with neither invoice nor payment. */
  lemma {:induction false} FirstCleanRunWrites(w: World, plan: Plan)
    requires Good(w) && w.payments == [] && w.invoices == [] && Stored(w) == ""
    requires NoFailure(plan) && plan.name != "" && plan.number != ""
    ensures var v := Repaired(w, plan, false).world;
            && v.partner && v.invoices == [plan.name]
            && |v.payments| == 1 && v.payments[0].number == plan.number
            && v.payments[0].invoice == (if Trusted(plan.name) then Strip(plan.name) else "")
            && Get(v.data, "invoice_number") == (if Trusted(plan.name) then Strip(plan.name) else plan.name)
            && Get(v.data, "payment_number") == plan.number && Get(v.data, "status") == "success"
            && (forall key <- w.data :: key !in {"invoice_number", "payment_number", "status"} ==>
                  key in v.data && v.data[key] == w.data[key])
  {
  }

  // What each endpoint writes, and what a failed call stops.

  /** Linking writes the name into every payment and into the voucher, with the first payment's number. */
  lemma {:induction false} LinkWrites(w: World, name: string)
    ensures var v := LinkInvoice(w, name);
            && |v.payments| == |w.payments|
            && (forall i :: 0 <= i < |w.payments| ==> v.payments[i] == Payment(w.payments[i].number, name))
            && Get(v.data, "invoice_number") == name
            && (w.payments != [] && w.payments[0].number != "" ==>
                  Get(v.data, "payment_number") == w.payments[0].number)
            && v.invoices == w.invoices && v.partner == w.partner
  {
  }

  /** Of several payments the one the query happens to return decides: all are linked iff that one has no invoice. */
  lemma {:induction false} PickedPaymentDecides(w: World, plan: Plan, k: nat)
    requires Eligible(w) && Stored(w) != "" && k < |w.payments| && plan.pick == k && plan.link.Fine?
    ensures var ran := Repaired(w, plan, false);
            && ran.exit.Completed?
            && if w.payments[k].invoice != "" then ran.world == w
               else
                 && |ran.world.payments| == |w.payments|
                 && forall i :: 0 <= i < |w.payments| ==>
                      ran.world.payments[i] == Payment(w.payments[i].number, Stored(w))
  {
    SmallRemainder(k, |w.payments|);
    LinkWrites(w, Stored(w));
    assert Repaired(w, plan, false) == RecordPayment(w, Stored(w), plan);
  }

  lemma {:induction false} SmallRemainder(k: nat, n: nat)
    requires k < n
    ensures k % n == k
  {
  }

  /** Creating a payment the voucher already has updates the newest one, and only by a trusted number. */
  lemma {:induction false} CreateUpdatesNewest(w: World, invoice: string, number: string)
    requires w.payments != []
    ensures var v, n := CreatePayment(w, invoice, number), |w.payments| - 1;
            && |v.payments| == n + 1
            && (forall i :: 0 <= i < n ==> v.payments[i] == w.payments[i])
            && v.payments[n].number == w.payments[n].number
            && v.payments[n].invoice == if Trusted(invoice) then Strip(invoice) else w.payments[n].invoice
  {
  }

  /** Partner, invoice and payment calls stop the run when they fail; a failed link does not. */
  lemma {:induction false} FailureStops(w: World, plan: Plan)
    requires Good(w) && w.payments == [] && w.invoices == [] && Stored(w) == "" && plan.name != ""
    ensures var ran := Repaired(w, plan, false);
            && (!plan.partner.Fine? ==> ran.exit.Exited? && ran.world.invoices == [] && ran.world.payments == [])
            && (plan.partner.Fine? && !plan.invoice.Fine? ==> ran.exit.Exited? && ran.world.payments == [])
            && (plan.partner.Fine? && plan.invoice.Fine? && plan.link.Killed? ==>
                  ran.exit.Exited? && ran.world.payments == [])
            && (plan.partner.Fine? && plan.invoice.Fine? && !plan.link.Killed? && plan.create.Fine? ==>
                  ran.exit.Completed? && |ran.world.payments| == 1)
            && (plan.partner.Fine? && plan.invoice.Fine? && !plan.link.Killed? && !plan.create.Fine? ==>
                  ran.exit.Exited? && |ran.world.payments| == if plan.create.applied then 1 else 0)
  {
  }

  /** A failed call may still have been applied: the invoice is there and the next run finds it. */
  lemma {:induction false} LostAnswerLeavesInvoice(w: World, plan: Plan)
    requires Good(w) && w.invoices == [] && Stored(w) == "" && plan.partner.Fine? && !plan.invoice.Fine?
    ensures Repaired(w, plan, false).world.invoices == if plan.invoice.applied then [plan.name] else []
  {
  }
}
