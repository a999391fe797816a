/** Invoices: a snapshot of a bill whose parts add up, numbered per branch and replaced in a chain. */
module Invoices {
  import opened Wrappers
  import opened Lines
  import opened Ledger
  import opened LedgerProof
  import opened Desk

  // ----- the snapshot -----

  /** A charge as invoiced, with the tax computed on it. */
  datatype InvoiceLine = InvoiceLine(line: nat, amount: int, tax: int)
  datatype RuleTotal = RuleTotal(name: string, amount: int)

  function LinesTotal(ls: seq<InvoiceLine>): int {
    if ls == [] then 0 else LinesTotal(ls[..|ls| - 1]) + ls[|ls| - 1].amount + ls[|ls| - 1].tax
  }

  function RulesTotal(rs: seq<RuleTotal>): int {
    if rs == [] then 0 else rs[0].amount + RulesTotal(rs[1..])
  }

  /** Adds to the entry of a rule's name, or starts one. */
  function AddToRule(rs: seq<RuleTotal>, name: string, amount: int): seq<RuleTotal> {
    if rs == [] then [RuleTotal(name, amount)]
    else if rs[0].name == name then [RuleTotal(name, rs[0].amount + amount)] + rs[1..]
    else [rs[0]] + AddToRule(rs[1..], name, amount)
  }

  lemma AddToRuleTotal(rs: seq<RuleTotal>, name: string, amount: int)
    ensures RulesTotal(AddToRule(rs, name, amount)) == RulesTotal(rs) + amount
  {
  }

  ghost predicate NamedOnce(rs: seq<RuleTotal>) {
    forall i, j :: 0 <= i < j < |rs| ==> rs[i].name != rs[j].name
  }

  function AmountFor(rs: seq<RuleTotal>, name: string): int {
    if rs == [] then 0 else (if rs[0].name == name then rs[0].amount else 0) + AmountFor(rs[1..], name)
  }

  lemma AmountAfterAdd(rs: seq<RuleTotal>, name: string, amount: int, other: string)
    ensures AmountFor(AddToRule(rs, name, amount), other) ==
      AmountFor(rs, other) + (if other == name then amount else 0)
  {
    if rs != [] && rs[0].name != name {
      AmountAfterAdd(rs[1..], name, amount, other);
      assert AddToRule(rs, name, amount)[1..] == AddToRule(rs[1..], name, amount);
    }
  }

  lemma AddKeepsNamedOnce(rs: seq<RuleTotal>, name: string, amount: int)
    requires NamedOnce(rs)
    ensures NamedOnce(AddToRule(rs, name, amount))
    ensures forall r :: r in AddToRule(rs, name, amount) ==> r.name == name || exists q :: q in rs && q.name == r.name
  {
    if rs != [] && rs[0].name != name {
      AddKeepsNamedOnce(rs[1..], name, amount);
      var rest := AddToRule(rs[1..], name, amount);
      forall k | 0 <= k < |rest| ensures rest[k].name != rs[0].name {
        assert rest[k] in rest;
      }
    }
  }

  function WithoutZeros(rs: seq<RuleTotal>): (kept: seq<RuleTotal>)
    ensures RulesTotal(kept) == RulesTotal(rs)
    ensures forall r :: r in kept ==> r in rs && r.amount != 0
  {
    if rs == [] then [] else
      var rest := WithoutZeros(rs[1..]);
      if rs[0].amount == 0 then rest else [rs[0]] + rest
  }

  lemma WithoutZerosKeeps(rs: seq<RuleTotal>, name: string)
    requires NamedOnce(rs)
    ensures NamedOnce(WithoutZeros(rs)) && AmountFor(WithoutZeros(rs), name) == AmountFor(rs, name)
  {
    if rs != [] {
      WithoutZerosKeeps(rs[1..], name);
      var rest := WithoutZeros(rs[1..]);
      forall k | 0 <= k < |rest| ensures rest[k].name != rs[0].name {
        assert rest[k] in rest;
      }
    }
  }

  /** The tax the first `n` lines of a bill hold under one rule's name. */
  function TaxUnder(ls: seq<Line>, folio: nat, ruleName: Option<nat> -> string, name: string, n: nat): int
    requires n <= |ls|
  {
    if n == 0 then 0 else
      TaxUnder(ls, folio, ruleName, name, n - 1)
        + (if ls[n - 1].folio == folio && ls[n - 1].kind == Tax && ruleName(ls[n - 1].rule) == name then
        ls[n - 1].amount else 0)
  }

  predicate IsTaxOn(ls: seq<Line>, folio: nat, t: nat, p: nat)
    requires t < |ls|
  {
    ls[t].folio == folio && ls[t].kind == Tax && ls[t].parent == Some(p)
  }

  /** The tax the first `n` lines of a bill put on line `p`. */
  function TaxOn(ls: seq<Line>, folio: nat, p: nat, n: nat): int
    requires n <= |ls|
  {
    if n == 0 then 0 else TaxOn(ls, folio, p, n - 1) + (if IsTaxOn(ls, folio, n - 1, p) then ls[n - 1].amount else 0)
  }

  predicate Listed(line: Line, folio: nat) {
    line.folio == folio && !(line.kind == Tax && line.parent.Some?)
  }

  /** What the first `n` lines contribute as invoice lines, each with its tax. */
  function ListedTotal(ls: seq<Line>, folio: nat, n: nat): int
    requires n <= |ls|
  {
    if n == 0 then 0 else
      ListedTotal(ls, folio, n - 1)
      + (if Listed(ls[n - 1], folio) then
        ls[n - 1].amount + (if ls[n - 1].kind == Tax then 0 else TaxOn(ls, folio, n - 1, |ls|)) else 0)
  }

  /** One invoice line for each line of the bill that is no tax on another, carrying the tax on it. */
  function InvoiceLines(ls: seq<Line>, folio: nat, n: nat): seq<InvoiceLine>
    requires n <= |ls|
  {
    if n == 0 then [] else
      var before := InvoiceLines(ls, folio, n - 1);
      if Listed(ls[n - 1], folio) then
        before + [InvoiceLine(n - 1, ls[n - 1].amount, if ls[n - 1].kind == Tax then 0
          else TaxOn(ls, folio, n - 1, |ls|))] else before
  }

  lemma InvoiceLinesTotal(ls: seq<Line>, folio: nat, n: nat)
    requires n <= |ls|
    ensures LinesTotal(InvoiceLines(ls, folio, n)) == ListedTotal(ls, folio, n)
  {
    if n > 0 {
      InvoiceLinesTotal(ls, folio, n - 1);
      var lines := InvoiceLines(ls, folio, n);
      assert Listed(ls[n - 1], folio) ==> lines[..|lines| - 1] == InvoiceLines(ls, folio, n - 1);
    }
  }

  /** The taxes of the first `n` lines, added up under their rules' names in the order these first come up. */
  function ByRule(ls: seq<Line>, folio: nat, ruleName: Option<nat> -> string, n: nat): seq<RuleTotal>
    requires n <= |ls|
  {
    if n == 0 then [] else
      var before, item := ByRule(ls, folio, ruleName, n - 1), ls[n - 1];
      if item.folio == folio && item.kind == Tax then AddToRule(before, ruleName(item.rule), item.amount) else before
  }

  method Snapshot(ls: seq<Line>, folio: nat, ruleName: Option<nat> -> string)
      returns (lines: seq<InvoiceLine>, taxes: seq<RuleTotal>)
    ensures lines == InvoiceLines(ls, folio, |ls|) && LinesTotal(lines) == ListedTotal(ls, folio, |ls|)
    ensures taxes == WithoutZeros(ByRule(ls, folio, ruleName, |ls|)) && RulesTotal(taxes) == TaxOnBill(ls, folio, |ls|)
    ensures NamedOnce(taxes) && (forall r :: r in taxes ==> r.amount != 0)
    ensures forall name :: AmountFor(taxes, name) == TaxUnder(ls, folio, ruleName, name, |ls|)
  {
    var taxOf, byRule := SortTaxes(ls, folio, ruleName);
    lines := [];
    for i := 0 to |ls|
      invariant lines == InvoiceLines(ls, folio, i)
    {
      var item := ls[i];
      if Listed(item, folio) {
        var tax := if item.kind == Tax then 0 else if i in taxOf then taxOf[i] else 0;
        lines := lines + [InvoiceLine(i, item.amount, tax)];
      }
    }
    InvoiceLinesTotal(ls, folio, |ls|);
    taxes := WithoutZeros(byRule);
    WithoutZerosKeeps(byRule, "");
    forall name ensures AmountFor(taxes, name) == TaxUnder(ls, folio, ruleName, name, |ls|) {
      WithoutZerosKeeps(byRule, name);
    }
  }

  /** The bill's taxes, by the line they are on and by the rule they come from. */
  method SortTaxes(ls: seq<Line>, folio: nat, ruleName: Option<nat> -> string)
      returns (taxOf: map<nat, int>, byRule: seq<RuleTotal>)
    ensures forall p: nat :: (if p in taxOf then taxOf[p] else 0) == TaxOn(ls, folio, p, |ls|)
    ensures byRule == ByRule(ls, folio, ruleName, |ls|)
    ensures RulesTotal(byRule) == TaxOnBill(ls, folio, |ls|) && NamedOnce(byRule)
    ensures forall name :: AmountFor(byRule, name) == TaxUnder(ls, folio, ruleName, name, |ls|)
  {
    taxOf, byRule := map[], [];
    for i := 0 to |ls|
      invariant forall p: nat :: (if p in taxOf then taxOf[p] else 0) == TaxOn(ls, folio, p, i)
      invariant byRule == ByRule(ls, folio, ruleName, i)
      invariant RulesTotal(byRule) == TaxOnBill(ls, folio, i) && NamedOnce(byRule)
      invariant forall name :: AmountFor(byRule, name) == TaxUnder(ls, folio, ruleName, name, i)
    {
      var item := ls[i];
      if item.folio == folio && item.kind == Tax {
        if item.parent.Some? {
          var p := item.parent.value;
          taxOf := taxOf[p := (if p in taxOf then taxOf[p] else 0) + item.amount];
        }
        var name := ruleName(item.rule);
        AddToRuleTotal(byRule, name, item.amount);
        AddKeepsNamedOnce(byRule, name, item.amount);
        forall other { AmountAfterAdd(byRule, name, item.amount, other); }
        byRule := AddToRule(byRule, name, item.amount);
      }
    }
  }

  // ----- its parts add up -----

  predicate Bearer(line: Line, folio: nat) {
    line.folio == folio && line.kind != Tax
  }

  /** The tax on the first `n` charges of a bill, from its first `m` lines. */
  function BorneTax(ls: seq<Line>, folio: nat, n: nat, m: nat): int
    requires n <= |ls| && m <= |ls|
  {
    if n == 0 then 0
      else BorneTax(ls, folio, n - 1, m) + (if Bearer(ls[n - 1], folio) then TaxOn(ls, folio, n - 1, m) else 0)
  }

  /** The tax of the first `m` lines that hangs off one of the first `n`, charges all. */
  function HangingTax(ls: seq<Line>, folio: nat, n: nat, m: nat): int
    requires n <= |ls| && m <= |ls|
  {
    if m == 0 then 0 else
      HangingTax(ls, folio, n, m - 1)
      + (if ls[m - 1].folio == folio && ls[m - 1].kind == Tax && ls[m - 1].parent.Some? && ls[m - 1].parent.value < n &&
        Bearer(ls[ls[m - 1].parent.value], folio) then ls[m - 1].amount else 0)
  }

  lemma BorneOneLineMore(ls: seq<Line>, folio: nat, n: nat, m: nat)
    requires n <= |ls| && m < |ls|
    ensures BorneTax(ls, folio, n, m + 1) == BorneTax(ls, folio, n, m)
      + (if ls[m].folio == folio && ls[m].kind == Tax && ls[m].parent.Some? && ls[m].parent.value < n &&
        Bearer(ls[ls[m].parent.value], folio) then ls[m].amount else 0)
  {
    if n > 0 {
      BorneOneLineMore(ls, folio, n - 1, m);
    }
  }

  lemma NoLinesNoTax(ls: seq<Line>, folio: nat, n: nat)
    requires n <= |ls|
    ensures BorneTax(ls, folio, n, 0) == 0
  {
  }

  /** Tax added up charge by charge is tax added up line by line. */
  lemma BorneIsHanging(ls: seq<Line>, folio: nat, n: nat, m: nat)
    requires n <= |ls| && m <= |ls|
    ensures BorneTax(ls, folio, n, m) == HangingTax(ls, folio, n, m)
    decreases m
  {
    if m == 0 {
      NoLinesNoTax(ls, folio, n);
    } else {
      BorneIsHanging(ls, folio, n, m - 1);
      BorneOneLineMore(ls, folio, n, m - 1);
    }
  }

  function ListedAmounts(ls: seq<Line>, folio: nat, n: nat): int
    requires n <= |ls|
  {
    if n == 0 then 0 else ListedAmounts(ls, folio, n - 1) + (if Listed(ls[n - 1], folio) then ls[n - 1].amount else 0)
  }

  lemma ListedSplits(ls: seq<Line>, folio: nat, n: nat)
    requires n <= |ls|
    ensures ListedTotal(ls, folio, n) == ListedAmounts(ls, folio, n) + BorneTax(ls, folio, n, |ls|)
  {
  }

  lemma NothingIsLost(ls: seq<Line>, folio: nat, m: nat)
    requires Sound(ls) && m <= |ls|
    ensures ListedAmounts(ls, folio, m) + HangingTax(ls, folio, |ls|, m) == OnBill(ls, folio, m)
  {
    if m > 0 {
      NothingIsLost(ls, folio, m - 1);
      assert SoundAt(ls, m - 1);
    }
  }

  /** On every sound ledger the lines of an invoice, each with its tax, come to the bill's total. */
  lemma InvoiceAddsUp(ls: seq<Line>, folio: nat)
    requires Sound(ls)
    ensures ListedTotal(ls, folio, |ls|) == OnBill(ls, folio, |ls|)
  {
    ListedSplits(ls, folio, |ls|);
    BorneIsHanging(ls, folio, |ls|, |ls|);
    NothingIsLost(ls, folio, |ls|);
  }

  /** So does the invoice of any bill after any run of the books. */
  lemma EveryInvoiceAddsUp(ops: seq<Op>, folio: nat)
    ensures var ls := Run(EMPTY, ops).lines; ListedTotal(ls, folio, |ls|) == OnBill(ls, folio, |ls|)
  {
    RunKeepsInv(ops);
    InvoiceAddsUp(Run(EMPTY, ops).lines, folio);
  }

  // ----- numbering -----

  /** What an invoice shows, compared as a whole. */
  datatype Content = Content(lines: seq<InvoiceLine>, taxes: seq<RuleTotal>, total: int, paid: int,
      payments: seq<Payment>)

  datatype Invoice = Invoice(folio: nat, branch: nat, number: nat, content: Content, superseded: bool,
      supersedes: Option<nat>)

  /** The invoices issued so far and the number each branch has reached. */
  datatype Register = Register(invoices: seq<Invoice>, sequence: map<nat, nat>)

  function Reached(reg: Register, branch: nat): nat {
    if branch in reg.sequence then reg.sequence[branch] else 0
  }

  function CurrentOf(invoices: seq<Invoice>, folio: nat, n: nat): (k: Option<nat>)
    requires n <= |invoices|
    ensures k.Some? ==> k.value < n && invoices[k.value].folio == folio && !invoices[k.value].superseded
    ensures k.None? ==> forall i :: 0 <= i < n ==> invoices[i].folio != folio || invoices[i].superseded
  {
    if n == 0 then None
    else if invoices[n - 1].folio == folio && !invoices[n - 1].superseded then Some(n - 1)
    else CurrentOf(invoices, folio, n - 1)
  }

  function Issue(reg: Register, folio: nat, branch: nat, content: Content): Register {
    var current := CurrentOf(reg.invoices, folio, |reg.invoices|);
    if current.Some? && reg.invoices[current.value].content == content then reg else
      var number := Reached(reg, branch) + 1;
      var retired := if current.Some? then
        reg.invoices[current.value := reg.invoices[current.value].(superseded := true)] else reg.invoices;
      Register(retired + [Invoice(folio, branch, number, content, false, current)], reg.sequence[branch := number])
  }

  class InvoiceBook {
    var register: Register

    constructor ()
      ensures register == Register([], map[])
    {
      register := Register([], map[]);
    }

    /** Gives back the standing invoice of an unchanged bill, else numbers a new one and retires the old. */
    method IssueFor(folio: nat, branch: nat, content: Content) returns (index: nat)
      modifies this
      ensures register == Issue(old(register), folio, branch, content)
      ensures index < |register.invoices| && register.invoices[index].folio == folio &&
        register.invoices[index].content == content && !register.invoices[index].superseded
    {
      var current := CurrentOf(register.invoices, folio, |register.invoices|);
      if current.Some? && register.invoices[current.value].content == content {
        return current.value;
      }
      var number := Reached(register, branch) + 1;
      register := register.(sequence := register.sequence[branch := number]);
      if current.Some? {
        var retired := register.invoices[current.value].(superseded := true);
        register := register.(invoices := register.invoices[current.value := retired]);
      }
      index := |register.invoices|;
      register := register.(invoices := register.invoices + [Invoice(folio, branch, number, content, false, current)]);
    }
  }

  /** The last of the first `n` invoices for a bill. */
  function LastFor(invoices: seq<Invoice>, folio: nat, n: nat): (k: Option<nat>)
    requires n <= |invoices|
    ensures k.Some? ==> k.value < n && invoices[k.value].folio == folio && forall j ::
      k.value < j < n ==> invoices[j].folio != folio
    ensures k.None? ==> forall j :: 0 <= j < n ==> invoices[j].folio != folio
  {
    if n == 0 then None else if invoices[n - 1].folio == folio then Some(n - 1) else LastFor(invoices, folio, n - 1)
  }

  function IssuedAt(invoices: seq<Invoice>, branch: nat, n: nat): nat
    requires n <= |invoices|
  {
    if n == 0 then 0 else IssuedAt(invoices, branch, n - 1) + (if invoices[n - 1].branch == branch then 1 else 0)
  }

  /**
   * Each invoice replaces the one before it for its bill, is superseded exactly when a later one
   * exists, and carries its branch's next number.
   */
  ghost predicate InvoiceSound(reg: Register, i: nat)
    requires i < |reg.invoices|
  {
    var inv := reg.invoices[i];
    && inv.supersedes == LastFor(reg.invoices, inv.folio, i)
    && (inv.superseded <==> LastFor(reg.invoices, inv.folio, |reg.invoices|) != Some(i))
    && inv.number == IssuedAt(reg.invoices, inv.branch, i) + 1
  }

  ghost predicate RegisterSound(reg: Register) {
    && (forall i: nat {:trigger InvoiceSound(reg, i)} :: i < |reg.invoices| ==> InvoiceSound(reg, i))
    && forall branch: nat {:trigger Reached(reg, branch)} ::
      Reached(reg, branch) == IssuedAt(reg.invoices, branch, |reg.invoices|)
  }

  lemma CurrentIsLast(reg: Register, folio: nat)
    requires RegisterSound(reg)
    ensures CurrentOf(reg.invoices, folio, |reg.invoices|) == LastFor(reg.invoices, folio, |reg.invoices|)
  {
    var c, l := CurrentOf(reg.invoices, folio, |reg.invoices|), LastFor(reg.invoices, folio, |reg.invoices|);
    if c.Some? {
      assert InvoiceSound(reg, c.value);
    }
    if l.Some? {
      assert InvoiceSound(reg, l.value);
    }
  }

  lemma LastForSame(a: seq<Invoice>, b: seq<Invoice>, folio: nat, n: nat)
    requires n <= |a| && n <= |b| && forall i :: 0 <= i < n ==> a[i].folio == b[i].folio
    ensures LastFor(a, folio, n) == LastFor(b, folio, n)
  {
  }

  lemma IssuedAtSame(a: seq<Invoice>, b: seq<Invoice>, branch: nat, n: nat)
    requires n <= |a| && n <= |b| && forall i :: 0 <= i < n ==> a[i].branch == b[i].branch
    ensures IssuedAt(a, branch, n) == IssuedAt(b, branch, n)
  {
  }

  lemma IssueKeepsOld(reg: Register, folio: nat, branch: nat, content: Content, i: nat)
    requires RegisterSound(reg) && i < |reg.invoices| && Issue(reg, folio, branch, content) != reg
    ensures InvoiceSound(Issue(reg, folio, branch, content), i)
  {
    var after := Issue(reg, folio, branch, content);
    CurrentIsLast(reg, folio);
    LastForSame(reg.invoices, after.invoices, reg.invoices[i].folio, i);
    LastForSame(reg.invoices, after.invoices, reg.invoices[i].folio, |reg.invoices|);
    IssuedAtSame(reg.invoices, after.invoices, reg.invoices[i].branch, i);
    assert InvoiceSound(reg, i);
  }

  lemma IssueAddsSound(reg: Register, folio: nat, branch: nat, content: Content)
    requires RegisterSound(reg) && Issue(reg, folio, branch, content) != reg
    ensures InvoiceSound(Issue(reg, folio, branch, content), |reg.invoices|)
  {
    var after, n := Issue(reg, folio, branch, content), |reg.invoices|;
    CurrentIsLast(reg, folio);
    LastForSame(reg.invoices, after.invoices, folio, n);
    IssuedAtSame(reg.invoices, after.invoices, branch, n);
    assert Reached(reg, branch) == IssuedAt(reg.invoices, branch, n);
  }

  lemma IssueKeepsSound(reg: Register, folio: nat, branch: nat, content: Content)
    requires RegisterSound(reg)
    ensures RegisterSound(Issue(reg, folio, branch, content))
  {
    var after := Issue(reg, folio, branch, content);
    if after != reg {
      forall i: nat | i < |after.invoices| ensures InvoiceSound(after, i) {
        if i < |reg.invoices| {
          IssueKeepsOld(reg, folio, branch, content, i);
        } else {
          IssueAddsSound(reg, folio, branch, content);
        }
      }
      forall br: nat ensures Reached(after, br) == IssuedAt(after.invoices, br, |after.invoices|) {
        IssuedAtSame(reg.invoices, after.invoices, br, |reg.invoices|);
        assert Reached(reg, br) == IssuedAt(reg.invoices, br, |reg.invoices|);
      }
    }
  }

  datatype Request = Request(folio: nat, branch: nat, content: Content)

  ghost function Issued(requests: seq<Request>): Register
    decreases |requests|
  {
    if requests == [] then Register([], map[]) else
      var r := requests[|requests| - 1];
      Issue(Issued(requests[..|requests| - 1]), r.folio, r.branch, r.content)
  }

  /**
   * Over every history of issuing, a bill's invoices form one chain with a single current one, and
   * a branch's numbers run without gaps.
   */
  lemma {:induction false} InvoicesFormChains(requests: seq<Request>)
    ensures RegisterSound(Issued(requests))
    decreases |requests|
  {
    if requests != [] {
      var r := requests[|requests| - 1];
      InvoicesFormChains(requests[..|requests| - 1]);
      IssueKeepsSound(Issued(requests[..|requests| - 1]), r.folio, r.branch, r.content);
    }
  }
}
