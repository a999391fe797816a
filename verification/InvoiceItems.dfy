/**
 * What an invoice lists: every charge once and in order, at its amount and with its own tax, and
 * the payments that stand.
 */
module InvoiceItems {
  import opened Wrappers
  import opened Lines
  import opened Ledger
  import opened LedgerProof
  import opened Invoices
  import opened Reissue

  /** The tax among the first `n` lines that names line `p`. */
  function TaxNaming(ls: seq<Line>, p: nat, n: nat): int
    requires n <= |ls|
  {
    if n == 0 then 0 else
      TaxNaming(ls, p, n - 1) + (if ls[n - 1].kind == Tax && ls[n - 1].parent == Some(p) then ls[n - 1].amount else 0)
  }

  lemma {:induction false} TaxStaysOnTheBill(ls: seq<Line>, p: nat, n: nat)
    requires Sound(ls) && p < |ls| && n <= |ls|
    ensures TaxOn(ls, ls[p].folio, p, n) == TaxNaming(ls, p, n)
    ensures ls[p].kind == Tax ==> TaxNaming(ls, p, n) == 0
  {
    if n > 0 {
      TaxStaysOnTheBill(ls, p, n - 1);
      assert SoundAt(ls, n - 1);
    }
  }

  /** A line that an invoice of the bill lists on its own: on the bill, and no tax on another line. */
  ghost predicate Stated(ls: seq<Line>, folio: nat, i: nat) {
    i < |ls| && ls[i].folio == folio && (ls[i].kind == Tax ==> ls[i].parent == None)
  }

  /** The entry for line `i`: its amount, and all tax that names it. */
  ghost predicate EntryOf(ls: seq<Line>, entry: InvoiceLine) {
    entry.line < |ls| && entry.amount == ls[entry.line].amount && entry.tax == TaxNaming(ls, entry.line, |ls|)
  }

  ghost predicate Appears(entries: seq<InvoiceLine>, i: nat) {
    exists k :: 0 <= k < |entries| && entries[k].line == i
  }

  ghost predicate InOrder(entries: seq<InvoiceLine>) {
    forall j, k :: 0 <= j < k < |entries| ==> entries[j].line < entries[k].line
  }

  /** The entries up to line `n`. */
  ghost predicate ListsTo(ls: seq<Line>, folio: nat, entries: seq<InvoiceLine>, n: nat) {
    && InOrder(entries)
    && (forall k {:trigger entries[k]} :: 0 <= k < |entries| ==> EntryOf(ls, entries[k]) && entries[k].line < n)
    && forall i: nat {:trigger Stated(ls, folio, i)} :: i < n ==> (Stated(ls, folio, i) <==> Appears(entries, i))
  }

  lemma OneEntryMore(ls: seq<Line>, folio: nat, entries: seq<InvoiceLine>, n: nat, entry: InvoiceLine)
    requires ListsTo(ls, folio, entries, n) && Stated(ls, folio, n) && EntryOf(ls, entry) && entry.line == n
    ensures ListsTo(ls, folio, entries + [entry], n + 1)
  {
    var more := entries + [entry];
    forall i: nat | i < n + 1 ensures Stated(ls, folio, i) <==> Appears(more, i) {
      if Appears(entries, i) {
        var k :| 0 <= k < |entries| && entries[k].line == i;
        assert more[k].line == i;
      }
      if i == n {
        assert more[|entries|].line == i;
      }
    }
  }

  lemma NoEntryMore(ls: seq<Line>, folio: nat, entries: seq<InvoiceLine>, n: nat)
    requires ListsTo(ls, folio, entries, n) && !Stated(ls, folio, n)
    ensures ListsTo(ls, folio, entries, n + 1)
  {
    assert !Appears(entries, n);
  }

  lemma {:induction false} EntriesSoFar(ls: seq<Line>, folio: nat, n: nat)
    requires Sound(ls) && n <= |ls|
    ensures ListsTo(ls, folio, InvoiceLines(ls, folio, n), n)
  {
    if n > 0 {
      EntriesSoFar(ls, folio, n - 1);
      var before, after := InvoiceLines(ls, folio, n - 1), InvoiceLines(ls, folio, n);
      if Stated(ls, folio, n - 1) {
        TaxStaysOnTheBill(ls, n - 1, |ls|);
        var entry := InvoiceLine(n - 1, ls[n - 1].amount, TaxNaming(ls, n - 1, |ls|));
        assert after == before + [entry];
        OneEntryMore(ls, folio, before, n - 1, entry);
      } else {
        NoEntryMore(ls, folio, before, n - 1);
      }
    }
  }

  /**
   * On every sound ledger an invoice lists each line of its bill that is no tax on another exactly once, in
   * order, at its own amount and with all the tax that names it.
   */
  lemma ListsEveryCharge(b: Books, folio: nat, ruleName: Option<nat> -> string)
    requires Inv(b)
    ensures var entries := ContentOf(b, folio, ruleName).lines;
      && InOrder(entries)
      && (forall k {:trigger entries[k]} :: 0 <= k < |entries| ==> EntryOf(b.lines, entries[k]))
      && forall i: nat {:trigger Stated(b.lines, folio, i)} :: Stated(b.lines, folio, i) <==> Appears(entries, i)
  {
    EntriesSoFar(b.lines, folio, |b.lines|);
    var entries := InvoiceLines(b.lines, folio, |b.lines|);
    forall i: nat ensures Stated(b.lines, folio, i) <==> Appears(entries, i) {
      if Appears(entries, i) {
        var k :| 0 <= k < |entries| && entries[k].line == i;
        assert EntryOf(b.lines, entries[k]);
      }
    }
  }

  function SumOfPayments(ps: seq<Payment>): int {
    if ps == [] then 0 else SumOfPayments(ps[..|ps| - 1]) + ps[|ps| - 1].amount
  }

  lemma {:induction false} PaymentsCome(ps: seq<Payment>, folio: nat, n: nat)
    requires n <= |ps|
    ensures SumOfPayments(PaymentsOn(ps, folio, n)) == Paid(ps, folio, n)
  {
    if n > 0 {
      PaymentsCome(ps, folio, n - 1);
      var before, after := PaymentsOn(ps, folio, n - 1), PaymentsOn(ps, folio, n);
      if after != before {
        assert after[..|after| - 1] == before;
      }
    }
  }

  /** Entries with their tax come to the total, the payments listed to what was paid, and the difference is owed. */
  lemma InvoiceShowsWhatIsOwed(b: Books, folio: nat, ruleName: Option<nat> -> string)
    requires Inv(b)
    ensures var shown := ContentOf(b, folio, ruleName);
      && LinesTotal(shown.lines) == shown.total && SumOfPayments(shown.payments) == shown.paid
      && shown.total - shown.paid == Balance(b, folio)
  {
    InvoiceLinesTotal(b.lines, folio, |b.lines|);
    InvoiceAddsUp(b.lines, folio);
    PaymentsCome(b.payments, folio, |b.payments|);
  }
}
