/** The voucher repair script and the two payment endpoints it drives, for one voucher. */
module Repair {
  import opened Text

  // What the services hold about the voucher; an empty string is a missing value.

  datatype Payment = Payment(number: string, invoice: string)

  /** `data` is the voucher's payment_data; `invoices` are the names ushanr gave to invoices of this source document. */
  datatype World = World(
    status: string, paymentId: string, data: map<string, string>,
    partner: bool, invoices: seq<string>, payments: seq<Payment>)

  function Get(data: map<string, string>, key: string): string {
    if key in data then data[key] else ""
  }

  function Or(a: string, b: string): string {
    if a != "" then a else b
  }

  /** Step 3: the invoice number already written into the voucher. */
  function Stored(w: World): string {
    Or(Get(w.data, "invoice_number"), Get(w.data, "ushanr_invoice_number"))
  }

  /** Step 2. */
  predicate Eligible(w: World) {
    Lower(w.status) in {"active", "scheduled", "delivered", "redeemed", "expired"} &&
    (w.paymentId != "" || w.data != map[])
  }

  // ushanr's naming format: PREFIX/YYYY/MM/NNNNN.

  predicate Capitals(s: string) {
    forall c <- s :: 'A' <= c <= 'Z'
  }

  predicate NamedWithPrefix(s: string, k: nat) {
    && k + 14 <= |s|
    && Capitals(s[..k]) && s[k] == '/'
    && Digits(s[k + 1..k + 5]) && s[k + 5] == '/'
    && Digits(s[k + 6..k + 8]) && s[k + 8] == '/'
    && Digits(s[k + 9..])
  }

  predicate MatchesFormat(s: string) {
    exists k: nat | 2 <= k <= 6 :: NamedWithPrefix(s, k)
  }

  /** `_trusted_invoice_number` for a payment without a booking. */
  function TrustedInvoiceNumber(supplied: string): string {
    if MatchesFormat(Strip(supplied)) then Strip(supplied) else ""
  }

  predicate Trusted(supplied: string) {
    TrustedInvoiceNumber(supplied) != ""
  }

  // The calls. Each may succeed, fail, or end the process, and a failed one may have been applied.

  datatype Outcome = Fine | Failed(applied: bool) | Killed(applied: bool)

  predicate Applied(o: Outcome) {
    o.Fine? || o.applied
  }

  /**
    * What one run meets: the outcome of each call it may make, the name and number the servers would hand out next,
    * and which of several payment rows the unordered query returns.
    */
  datatype Plan = Plan(
    partner: Outcome, invoice: Outcome, link: Outcome, create: Outcome, name: string, number: string, pick: nat)

  predicate NoFailure(p: Plan) {
    p.partner.Fine? && p.invoice.Fine? && p.link.Fine? && p.create.Fine?
  }

  function FromSource(w: World, name: string): World {
    if w.invoices != [] then w else w.(invoices := [name])
  }

  function WithInvoice(payments: seq<Payment>, name: string): (r: seq<Payment>)
    ensures |r| == |payments|
    ensures forall i :: 0 <= i < |r| ==> r[i] == payments[i].(invoice := name)
  {
    seq(|payments|, i requires 0 <= i < |payments| => payments[i].(invoice := name))
  }

  function Put(data: map<string, string>, key: string, value: string): map<string, string> {
    if value == "" then data else data[key := value]
  }

  function LinkInvoice(w: World, name: string): World {
    var number := if w.payments != [] then w.payments[0].number else "";
    w.(payments := WithInvoice(w.payments, name),
    data := Put(w.data["invoice_number" := name], "payment_number", number))
  }

  function CreatePayment(w: World, invoice: string, number: string): World {
    var trusted := TrustedInvoiceNumber(invoice);
    if w.payments != [] then
      var newest := w.payments[|w.payments| - 1];
      var p := if trusted != "" then newest.(invoice := trusted) else newest;
      w.(payments := w.payments[|w.payments| - 1 := p],
      data := Put(Put(w.data, "invoice_number", p.invoice), "payment_number", p.number))
    else
      w.(payments := [Payment(number, trusted)],
      data := Put(Put(w.data, "invoice_number", trusted), "payment_number", number)["status" := "success"])
  }

  // A run of the script.

  datatype Exit = Completed | Exited

  datatype Ran = Ran(world: World, exit: Exit)

  /** Steps 5 and 6, once the invoice name is known or known to be missing. */
  function RecordPayment(w: World, name: string, p: Plan): Ran {
    if w.payments != [] then
      if name != "" && w.payments[p.pick % |w.payments|].invoice == "" then
        Ran(if Applied(p.link) then LinkInvoice(w, name) else w, if p.link.Killed? then Exited else Completed)
      else Ran(w, Completed)
    else
      var linked := if name != "" && Applied(p.link) then LinkInvoice(w, name) else w;
      if name != "" && p.link.Killed? then Ran(linked, Exited)
      else
        Ran(if Applied(p.create) then CreatePayment(linked, name, p.number) else linked,
            if p.create.Fine? then Completed else Exited)
  }

  function Repaired(w: World, p: Plan, dryRun: bool): Ran {
    if !Eligible(w) then Ran(w, Exited)
    else if dryRun then Ran(w, Completed)
    else if Stored(w) != "" then RecordPayment(w, Stored(w), p)
    else
      var w := if Applied(p.partner) then w.(partner := true) else w;
      if !p.partner.Fine? then Ran(w, Exited)
      else
        var w := if Applied(p.invoice) then FromSource(w, p.name) else w;
        if !p.invoice.Fine? then Ran(w, Exited)
        else RecordPayment(w, w.invoices[0], p)
  }

  // The code itself.

  class VoucherRecords {
    const status: string
    const paymentId: string
    var data: map<string, string>
    var partner: bool
    var invoices: seq<string>
    var payments: seq<Payment>

    function Now(): World
      reads this
    {
      World(status, paymentId, data, partner, invoices, payments)
    }

    constructor (w: World)
      ensures Now() == w
    {
      status, paymentId, data := w.status, w.paymentId, w.data;
      partner, invoices, payments := w.partner, w.invoices, w.payments;
    }

    method PostEnsurePartner(o: Outcome)
      modifies this`partner
      ensures partner == (old(partner) || Applied(o))
    {
      if Applied(o) {
        partner := true;
      }
    }

    method PostFromSource(o: Outcome, name: string) returns (answer: string)
      modifies this`invoices
      ensures Now() == if Applied(o) then FromSource(old(Now()), name) else old(Now())
      ensures o.Fine? ==> invoices != [] && answer == invoices[0]
    {
      answer := "";
      if Applied(o) {
        if invoices == [] {
          invoices := [name];
        }
        answer := invoices[0];
      }
    }

    method PostLinkInvoice(o: Outcome, name: string)
      modifies this`payments, this`data
      ensures Now() == if Applied(o) then LinkInvoice(old(Now()), name) else old(Now())
    {
      if !Applied(o) {
        return;
      }
      var i := 0;
      while i < |payments|
        invariant 0 <= i <= |payments| == |old(payments)| && data == old(data)
        invariant forall k :: 0 <= k < i ==> payments[k] == old(payments)[k].(invoice := name)
        invariant forall k :: i <= k < |payments| ==> payments[k] == old(payments)[k]
      {
        payments := payments[i := payments[i].(invoice := name)];
        i := i + 1;
      }
      assert payments == WithInvoice(old(payments), name);
      data := data["invoice_number" := name];
      if payments != [] && payments[0].number != "" {
        data := data["payment_number" := payments[0].number];
      }
    }

    method PostCreatePayment(o: Outcome, invoice: string, number: string)
      modifies this`payments, this`data
      ensures Now() == if Applied(o) then CreatePayment(old(Now()), invoice, number) else old(Now())
    {
      if !Applied(o) {
        return;
      }
      var trusted := TrustedInvoiceNumber(invoice);
      var created := payments == [];
      if created {
        payments := [Payment(number, trusted)];
      } else if trusted != "" {
        payments := payments[|payments| - 1 := payments[|payments| - 1].(invoice := trusted)];
      }
      var p := payments[|payments| - 1];
      if p.invoice != "" {
        data := data["invoice_number" := p.invoice];
      }
      if p.number != "" {
        data := data["payment_number" := p.number];
      }
      if created {
        data := data["status" := "success"];
      }
    }

    /** `run`: the six steps; in a dry run every POST is only printed. */
    method Run(p: Plan, dryRun: bool) returns (exit: Exit)
      modifies this`data, this`partner, this`invoices, this`payments
      ensures Ran(Now(), exit) == Repaired(old(Now()), p, dryRun)
    {
      var paid := paymentId != "" || data != map[];
      if Lower(status) !in {"active", "scheduled", "delivered", "redeemed", "expired"} || !paid {
        return Exited;
      }
      var invoiceNumber := Or(Get(data, "invoice_number"), Get(data, "ushanr_invoice_number"));
      if invoiceNumber == "" && !dryRun {
        PostEnsurePartner(p.partner);
        if !p.partner.Fine? {
          return Exited;
        }
        invoiceNumber := PostFromSource(p.invoice, p.name);
        if !p.invoice.Fine? {
          return Exited;
        }
      }
      exit := Record(invoiceNumber, p, dryRun);
    }

    method Record(invoiceNumber: string, p: Plan, dryRun: bool) returns (exit: Exit)
      modifies this`data, this`payments
      ensures Ran(Now(), exit) ==
              if dryRun then Ran(old(Now()), Completed) else RecordPayment(old(Now()), invoiceNumber, p)
    {
      var found := payments != [];
      var missing := found && payments[p.pick % |payments|].invoice == "";
      if invoiceNumber != "" && !dryRun && (missing || !found) {
        PostLinkInvoice(p.link, invoiceNumber);
        if p.link.Killed? {
          return Exited;
        }
      }
      if !found && !dryRun {
        PostCreatePayment(p.create, invoiceNumber, p.number);
        if !p.create.Fine? {
          return Exited;
        }
      }
      return Completed;
    }
  }
}
