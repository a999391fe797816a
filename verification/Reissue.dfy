/** Asking again for the invoice of a bill nothing has happened to. */
module Reissue {
  import opened Wrappers
  import opened Lines
  import opened Ledger
  import opened Invoices

  /** The payments that stand on a bill, among the first `n`. */
  function PaymentsOn(ps: seq<Payment>, folio: nat, n: nat): seq<Payment>
    requires n <= |ps|
  {
    if n == 0 then [] else
      var before := PaymentsOn(ps, folio, n - 1);
      if ps[n - 1].folio == folio && !ps[n - 1].isVoid then before + [ps[n - 1]] else before
  }

  /** What an invoice of the bill shows as the books stand. */
  function ContentOf(b: Books, folio: nat, ruleName: Option<nat> -> string): Content {
    Content(InvoiceLines(b.lines, folio, |b.lines|), WithoutZeros(ByRule(b.lines, folio, ruleName, |b.lines|)),
            OnBill(b.lines, folio, |b.lines|), Paid(b.payments, folio, |b.payments|),
              PaymentsOn(b.payments, folio, |b.payments|))
  }

  // ----- the same bill, the same content -----

  /** The lines on this bill are the same; other bills may have gained, lost or swapped theirs. */
  ghost predicate SameLines(a: seq<Line>, b: seq<Line>, folio: nat) {
    && |a| <= |b| && (forall i :: 0 <= i < |a| && (a[i].folio == folio || b[i].folio == folio) ==> a[i] == b[i])
    && forall i :: |a| <= i < |b| ==> b[i].folio != folio
  }

  ghost predicate SamePayments(a: seq<Payment>, b: seq<Payment>, folio: nat) {
    && |a| <= |b| && (forall i :: 0 <= i < |a| && (a[i].folio == folio || b[i].folio == folio) ==> a[i] == b[i])
    && forall i :: |a| <= i < |b| ==> b[i].folio != folio
  }

  function Upto(n: nat, m: nat): nat { if n < m then n else m }

  lemma {:induction false} SameTaxOn(a: seq<Line>, b: seq<Line>, folio: nat, p: nat, n: nat)
    requires SameLines(a, b, folio) && n <= |b|
    ensures TaxOn(b, folio, p, n) == TaxOn(a, folio, p, Upto(n, |a|))
  {
    if n > 0 {
      SameTaxOn(a, b, folio, p, n - 1);
    }
  }

  lemma {:induction false} SameInvoiceLines(a: seq<Line>, b: seq<Line>, folio: nat, n: nat)
    requires SameLines(a, b, folio) && n <= |b|
    ensures InvoiceLines(b, folio, n) == InvoiceLines(a, folio, Upto(n, |a|))
  {
    if n > 0 {
      SameInvoiceLines(a, b, folio, n - 1);
      SameTaxOn(a, b, folio, n - 1, |b|);
    }
  }

  lemma {:induction false} SameByRule(a: seq<Line>, b: seq<Line>, folio: nat, ruleName: Option<nat> -> string, n: nat)
    requires SameLines(a, b, folio) && n <= |b|
    ensures ByRule(b, folio, ruleName, n) == ByRule(a, folio, ruleName, Upto(n, |a|))
  {
    if n > 0 {
      SameByRule(a, b, folio, ruleName, n - 1);
    }
  }

  lemma {:induction false} SameOnBill(a: seq<Line>, b: seq<Line>, folio: nat, n: nat)
    requires SameLines(a, b, folio) && n <= |b|
    ensures OnBill(b, folio, n) == OnBill(a, folio, Upto(n, |a|))
  {
    if n > 0 {
      SameOnBill(a, b, folio, n - 1);
    }
  }

  lemma {:induction false} SamePaid(a: seq<Payment>, b: seq<Payment>, folio: nat, n: nat)
    requires SamePayments(a, b, folio) && n <= |b|
    ensures Paid(b, folio, n) == Paid(a, folio, Upto(n, |a|)) &&
      PaymentsOn(b, folio, n) == PaymentsOn(a, folio, Upto(n, |a|))
  {
    if n > 0 {
      SamePaid(a, b, folio, n - 1);
    }
  }

  /** Whatever happened to other bills, an unchanged bill is invoiced the same. */
  lemma SameContent(b: Books, c: Books, folio: nat, ruleName: Option<nat> -> string)
    requires SameLines(b.lines, c.lines, folio) && SamePayments(b.payments, c.payments, folio)
    ensures ContentOf(b, folio, ruleName) == ContentOf(c, folio, ruleName)
  {
    SameInvoiceLines(b.lines, c.lines, folio, |c.lines|);
    SameByRule(b.lines, c.lines, folio, ruleName, |c.lines|);
    SameOnBill(b.lines, c.lines, folio, |c.lines|);
    SamePaid(b.payments, c.payments, folio, |c.payments|);
  }

  // ----- the standing invoice -----

  function IssueAll(reg: Register, requests: seq<Request>): Register
    decreases |requests|
  {
    if requests == [] then reg else
      var r := requests[|requests| - 1];
      Issue(IssueAll(reg, requests[..|requests| - 1]), r.folio, r.branch, r.content)
  }

  /** The bill's standing invoice is this one, with this content. */
  ghost predicate Standing(reg: Register, folio: nat, index: nat, content: Content) {
    CurrentOf(reg.invoices, folio, |reg.invoices|) == Some(index) && reg.invoices[index].content == content
  }

  lemma {:induction false} SameCurrent(a: seq<Invoice>, b: seq<Invoice>, folio: nat, n: nat)
    requires n <= |a| && n <= |b| && forall i ::
      0 <= i < n && (a[i].folio == folio || b[i].folio == folio) ==> a[i] == b[i]
    ensures CurrentOf(a, folio, n) == CurrentOf(b, folio, n)
  {
    if n > 0 {
      SameCurrent(a, b, folio, n - 1);
    }
  }

  /** Invoices of other bills leave it standing. */
  lemma StandsThrough(reg: Register, r: Request, folio: nat, index: nat, content: Content)
    requires Standing(reg, folio, index, content) && r.folio != folio
    ensures Standing(Issue(reg, r.folio, r.branch, r.content), folio, index, content)
  {
    var after := Issue(reg, r.folio, r.branch, r.content);
    SameCurrent(reg.invoices, after.invoices, folio, |reg.invoices|);
  }

  lemma {:induction false} StandsThroughAll(reg: Register, others: seq<Request>, folio: nat, index: nat,
      content: Content)
    requires Standing(reg, folio, index, content) && forall i :: 0 <= i < |others| ==> others[i].folio != folio
    ensures Standing(IssueAll(reg, others), folio, index, content)
    decreases |others|
  {
    if others != [] {
      var front := others[..|others| - 1];
      StandsThroughAll(reg, front, folio, index, content);
      StandsThrough(IssueAll(reg, front), others[|others| - 1], folio, index, content);
    }
  }

  lemma IssuedStands(reg: Register, folio: nat, branch: nat, content: Content)
    ensures var once := Issue(reg, folio, branch, content); exists index: nat :: Standing(once, folio, index, content)
  {
    var once := Issue(reg, folio, branch, content);
    var current := CurrentOf(once.invoices, folio, |once.invoices|);
    assert current.Some? && Standing(once, folio, current.value, content);
  }

  /**
   * An invoice issued, then anything on other bills and invoices of other
   * bills: asking again gives back the same invoice and issues none.
   */
  lemma UnchangedBillKeepsItsInvoice(reg: Register, b: Books, c: Books, folio: nat, branch: nat,
      ruleName: Option<nat> -> string, others: seq<Request>)
    requires SameLines(b.lines, c.lines, folio) && SamePayments(b.payments, c.payments, folio)
    requires forall i :: 0 <= i < |others| ==> others[i].folio != folio
    ensures var once := Issue(reg, folio, branch, ContentOf(b, folio, ruleName));
      var later := IssueAll(once, others);
      && Issue(later, folio, branch, ContentOf(c, folio, ruleName)) == later
      && CurrentOf(later.invoices, folio, |later.invoices|) == CurrentOf(once.invoices, folio, |once.invoices|)
  {
    var content := ContentOf(b, folio, ruleName);
    var once := Issue(reg, folio, branch, content);
    SameContent(b, c, folio, ruleName);
    IssuedStands(reg, folio, branch, content);
    var index: nat :| Standing(once, folio, index, content);
    StandsThroughAll(once, others, folio, index, content);
  }
}
