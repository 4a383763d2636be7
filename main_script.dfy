/** The first script version (main.py): one raw code table, no date window, and a per-payment
    decision whether to emit a row at all. */
module MainScript {
  import opened Wrappers
  import opened Text
  import opened Lookup
  import opened CodeBook
  import opened Records
  import opened Report

  /** One row of this version's report: no `Category Code` column, `Category` holds the code
      key, and program and session date are taken raw from the ledger. */
  datatype LegacyRow = LegacyRow(
    sessionDate: string, category: Option<string>, program: string,
    amount: int, fees: int, amountAfterFees: int, paymentRef: Option<string>)

  /** The session date a row of this version is sorted by; it is always present. */
  function LegacySession(r: LegacyRow): Option<string> {
    Some(r.sessionDate)
  }

  /** The ledger positions `ps` are all inside the ledger. */
  predicate InLedger(ledger: seq<LedgerLine>, ps: seq<nat>) {
    forall k :: 0 <= k < |ps| ==> ps[k] < |ledger|
  }

  /** Position `k` of `ps` holds a line labelled exactly with the settlement label, and no
      later position does. */
  predicate LastSettlementAt(ledger: seq<LedgerLine>, ps: seq<nat>, k: int)
    requires InLedger(ledger, ps)
  {
    0 <= k < |ps| && ledger[ps[k]].program == Settlement
    && forall m :: k < m < |ps| ==> ledger[ps[m]].program != Settlement
  }

  /** The value `payment_thank_you_index` ends with: the index label of the last matched line
      whose label equals the settlement label exactly (no trimming), else `None`. */
  function LastSettlement(ledger: seq<LedgerLine>, ps: seq<nat>): (r: Option<nat>)
    requires InLedger(ledger, ps)
    ensures r.None? <==> forall k :: 0 <= k < |ps| ==> ledger[ps[k]].program != Settlement
    ensures r.Some? ==> exists k :: LastSettlementAt(ledger, ps, k) && ps[k] == r.value
  {
    if ps == [] then None
    else
      var n := |ps| - 1;
      if ledger[ps[n]].program == Settlement then
        assert LastSettlementAt(ledger, ps, n);
        Some(ps[n])
      else
        var rest := LastSettlement(ledger, ps[..n]);
        assert forall k :: 0 <= k < n ==> ps[..n][k] == ps[k];
        assert rest.Some? ==>
          exists k :: LastSettlementAt(ledger, ps[..n], k) && ps[..n][k] == rest.value && LastSettlementAt(ledger, ps, k);
        rest
  }

  /** The set `unique_programs` ends with: every raw label of a matched line that is not
      exactly the settlement label. */
  function ContentLabels(ledger: seq<LedgerLine>, ps: seq<nat>): (r: set<string>)
    requires InLedger(ledger, ps)
    ensures forall x :: x in r <==> x != Settlement && exists k :: 0 <= k < |ps| && ledger[ps[k]].program == x
  {
    if ps == [] then {}
    else
      var n := |ps| - 1;
      var rest := ContentLabels(ledger, ps[..n]);
      assert forall k :: 0 <= k < n ==> ps[..n][k] == ps[k];
      var p := ledger[ps[n]].program;
      rest + (if p != Settlement then {p} else {})
  }

  /** The inner loop over the matched records: a settlement line sets the index, any other
      line adds its label to the set. */
  method ScanRecords(ledger: seq<LedgerLine>, ps: seq<nat>) returns (thank: Option<nat>, labels: set<string>)
    requires InLedger(ledger, ps)
    ensures thank == LastSettlement(ledger, ps)
    ensures labels == ContentLabels(ledger, ps)
  {
    thank := None;
    labels := {};
    var i := 0;
    while i < |ps|
      invariant 0 <= i <= |ps|
      invariant thank == LastSettlement(ledger, ps[..i])
      invariant labels == ContentLabels(ledger, ps[..i])
    {
      var program := ledger[ps[i]].program;
      if program == Settlement {
        thank := Some(ps[i]);
      } else {
        labels := labels + {program};
      }
      assert ps[..i + 1][..i] == ps[..i];
      i := i + 1;
    }
    assert ps[..i] == ps;
  }

  /** `0 if payment_thank_you_index == 1 else 1`: the position, among the matched records,
      of the record whose program is used. The test compares an index label of the whole
      ledger with 1. */
  function OtherPosition(thank: nat): nat {
    if thank == 1 then 0 else 1
  }

  /** Two distinct content labels come from two distinct matched records. */
  lemma TwoLabelsTwoPositions(ledger: seq<LedgerLine>, ps: seq<nat>)
    requires InLedger(ledger, ps)
    requires |ContentLabels(ledger, ps)| > 1
    ensures |ps| >= 2
  {
    var labels := ContentLabels(ledger, ps);
    var x :| x in labels;
    assert |labels - {x}| == |labels| - 1;
    var y :| y in labels - {x};
    var i :| 0 <= i < |ps| && ledger[ps[i]].program == x;
    var j :| 0 <= j < |ps| && ledger[ps[j]].program == y;
    assert i != j;
  }

  /** The scan results `thank` and `labels` over the matched index labels `ps` raise no
      `IndexError`: `iloc[other_idx]` needs the chosen position to exist, and `iloc[1]`
      needs a second record whenever a row is appended. */
  predicate ScanSafe(ledger: seq<LedgerLine>, ps: seq<nat>, thank: Option<nat>, labels: set<string>, codeTable: Table)
    requires InLedger(ledger, ps)
  {
    match thank
    case None => true
    case Some(t) =>
      if |labels| > 1 then |ps| >= 2
      else OtherPosition(t) < |ps| && (FirstMatch(Some(ledger[ps[OtherPosition(t)]].program), codeTable).Some? ==> |ps| >= 2)
  }

  /** The payments for which this version raises no `IndexError`. Refunded payments and
      payments without a settlement line never index; for the others the scan must be safe. */
  predicate LegacySafe(g: GatewayRow, ledger: seq<LedgerLine>, codeTable: Table) {
    var ps := MatchPositions(ledger, g.id, |ledger|);
    g.amountRefunded != 0 || ScanSafe(ledger, ps, LastSettlement(ledger, ps), ContentLabels(ledger, ps), codeTable)
  }

  /** Payments with several content labels are always safe: they have at least two records. */
  lemma SeveralLabelsSafe(g: GatewayRow, ledger: seq<LedgerLine>, codeTable: Table)
    requires |ContentLabels(ledger, MatchPositions(ledger, g.id, |ledger|))| > 1
    ensures LegacySafe(g, ledger, codeTable)
  {
    TwoLabelsTwoPositions(ledger, MatchPositions(ledger, g.id, |ledger|));
  }

  /** The branches of lines 63-100 on the scan results of a payment without refund: no row
      without a settlement line; with several content labels a row for the ambiguity marker;
      otherwise a row only when the program of the chosen record has a code. The session
      date always comes from the second matched record. */
  function Outcome(g: GatewayRow, ledger: seq<LedgerLine>, ps: seq<nat>, thank: Option<nat>, labels: set<string>,
                   codeTable: Table): Option<LegacyRow>
    requires InLedger(ledger, ps)
    requires ScanSafe(ledger, ps, thank, labels, codeTable)
  {
    if thank.None? then None
    else if |labels| <= 1 then
      var program := ledger[ps[OtherPosition(thank.value)]].program;
      var category := FirstMatch(Some(program), codeTable);
      if category.None? then None
      else Some(LegacyRow(ledger[ps[1]].sessionDate, category, program, g.amount, g.fee, g.amount - g.fee, g.id))
    else
      Some(LegacyRow(ledger[ps[1]].sessionDate, FirstMatch(Some(Ambiguous), codeTable), Ambiguous,
                     g.amount, g.fee, g.amount - g.fee, g.id))
  }

  /** The decision of lines 49-103 for one payment: no row for a refunded payment, otherwise
      the outcome of the scan of its matched records. */
  function Decision(g: GatewayRow, ledger: seq<LedgerLine>, codeTable: Table): Option<LegacyRow>
    requires LegacySafe(g, ledger, codeTable)
  {
    if g.amountRefunded != 0 then None
    else
      var ps := MatchPositions(ledger, g.id, |ledger|);
      Outcome(g, ledger, ps, LastSettlement(ledger, ps), ContentLabels(ledger, ps), codeTable)
  }

  /** The scan of the matched records reads their labels only. */
  lemma {:induction false} ScanIgnoresAmounts(a: seq<LedgerLine>, b: seq<LedgerLine>, ps: seq<nat>)
    requires SameButAmounts(a, b) && InLedger(a, ps)
    ensures InLedger(b, ps)
    ensures LastSettlement(a, ps) == LastSettlement(b, ps)
    ensures ContentLabels(a, ps) == ContentLabels(b, ps)
  {
    if ps != [] {
      var n := |ps| - 1;
      assert InLedger(a, ps[..n]);
      ScanIgnoresAmounts(a, b, ps[..n]);
      assert a[ps[n]].program == b[ps[n]].program;
    }
  }

  /** The zero-sum check of lines 70-73 only prints: ledgers that differ only in their
      `Amount` values give every payment the same decision, and the same `IndexError`s. */
  lemma DecisionIgnoresAmounts(g: GatewayRow, a: seq<LedgerLine>, b: seq<LedgerLine>, codeTable: Table)
    requires SameButAmounts(a, b) && LegacySafe(g, a, codeTable)
    ensures LegacySafe(g, b, codeTable)
    ensures Decision(g, a, codeTable) == Decision(g, b, codeTable)
  {
    if g.amountRefunded == 0 {
      var ps := MatchPositions(a, g.id, |a|);
      MatchPositionsIgnoreAmounts(a, b, g.id, |a|);
      ScanIgnoresAmounts(a, b, ps);
      OutcomeIgnoresAmounts(g, a, b, ps, LastSettlement(a, ps), ContentLabels(a, ps), codeTable);
    }
  }

  /** The branches after the scan read the label of the chosen record and the session date
      of the second one, never an amount. */
  lemma OutcomeIgnoresAmounts(g: GatewayRow, a: seq<LedgerLine>, b: seq<LedgerLine>, ps: seq<nat>,
                              thank: Option<nat>, labels: set<string>, codeTable: Table)
    requires SameButAmounts(a, b) && InLedger(a, ps) && InLedger(b, ps)
    requires ScanSafe(a, ps, thank, labels, codeTable)
    ensures ScanSafe(b, ps, thank, labels, codeTable)
    ensures Outcome(g, a, ps, thank, labels, codeTable) == Outcome(g, b, ps, thank, labels, codeTable)
  {
    if thank.Some? {
      var p := OtherPosition(thank.value);
      if p < |ps| {
        assert a[ps[p]].program == b[ps[p]].program;
      }
      if 1 < |ps| {
        assert a[ps[1]].sessionDate == b[ps[1]].sessionDate;
      }
    }
  }

  /** Every payment of `payments` is one this version handles without an `IndexError`. */
  predicate AllSafe(payments: seq<GatewayRow>, ledger: seq<LedgerLine>, codeTable: Table) {
    forall i :: 0 <= i < |payments| ==> LegacySafe(payments[i], ledger, codeTable)
  }

  /** The per-payment decisions, in payment order. */
  function Decisions(payments: seq<GatewayRow>, ledger: seq<LedgerLine>, codeTable: Table): (ds: seq<Option<LegacyRow>>)
    requires AllSafe(payments, ledger, codeTable)
    ensures |ds| == |payments|
    ensures forall i :: 0 <= i < |payments| ==> ds[i] == Decision(payments[i], ledger, codeTable)
  {
    var ds := seq(|payments|, i requires 0 <= i < |payments| => Decision(payments[i], ledger, codeTable));
    assert forall i :: 0 <= i < |payments| ==> ds[i] == Decision(payments[i], ledger, codeTable);
    ds
  }

  /** The rows among `ds`, in order. */
  function Collect<U>(ds: seq<Option<U>>): (r: seq<U>)
    ensures |r| <= |ds|
  {
    if ds == [] then []
    else
      var n := |ds| - 1;
      Collect(ds[..n]) + (if ds[n].Some? then [ds[n].value] else [])
  }

  /** A row is collected exactly when it is one of the decisions. */
  lemma {:induction false} CollectExactly<U>(ds: seq<Option<U>>)
    ensures forall r :: r in Collect(ds) <==> exists i :: 0 <= i < |ds| && ds[i] == Some(r)
  {
    if ds != [] {
      var n := |ds| - 1;
      CollectExactly(ds[..n]);
      assert forall i :: 0 <= i < n ==> ds[..n][i] == ds[i];
      forall r | (exists i :: 0 <= i < |ds| && ds[i] == Some(r))
        ensures r in Collect(ds)
      {
        var i :| 0 <= i < |ds| && ds[i] == Some(r);
        if i < n {
          assert ds[..n][i] == Some(r);
        }
      }
    }
  }

  /** Reading one more decision appends its row, if it is one. */
  lemma CollectSnoc<U>(ds: seq<Option<U>>, i: int)
    requires 0 <= i < |ds|
    ensures Collect(ds[..i + 1]) == Collect(ds[..i]) + (if ds[i].Some? then [ds[i].value] else [])
  {
    assert ds[..i + 1][..i] == ds[..i];
  }

  /** The rows the outer loop appends, in payment order: the decisions that are rows. */
  function Emitted(payments: seq<GatewayRow>, ledger: seq<LedgerLine>, codeTable: Table): (rows: seq<LegacyRow>)
    requires AllSafe(payments, ledger, codeTable)
    ensures |rows| <= |payments|
  {
    Collect(Decisions(payments, ledger, codeTable))
  }

  /** Exactly the rows some payment's decision yields are emitted. */
  lemma EmittedExactly(payments: seq<GatewayRow>, ledger: seq<LedgerLine>, codeTable: Table)
    requires AllSafe(payments, ledger, codeTable)
    ensures forall r :: r in Emitted(payments, ledger, codeTable) <==>
      exists i :: 0 <= i < |payments| && Decision(payments[i], ledger, codeTable) == Some(r)
  {
    var ds := Decisions(payments, ledger, codeTable);
    CollectExactly(ds);
    forall r ensures (exists i :: 0 <= i < |ds| && ds[i] == Some(r)) <==>
      (exists i :: 0 <= i < |payments| && Decision(payments[i], ledger, codeTable) == Some(r))
    {
    }
  }

  /** The rows of this version do not depend on the ledger amounts. */
  lemma EmittedIgnoresAmounts(payments: seq<GatewayRow>, a: seq<LedgerLine>, b: seq<LedgerLine>, codeTable: Table)
    requires SameButAmounts(a, b) && AllSafe(payments, a, codeTable)
    ensures AllSafe(payments, b, codeTable)
    ensures Emitted(payments, a, codeTable) == Emitted(payments, b, codeTable)
  {
    forall i | 0 <= i < |payments|
      ensures LegacySafe(payments[i], b, codeTable)
      ensures Decision(payments[i], a, codeTable) == Decision(payments[i], b, codeTable)
    {
      DecisionIgnoresAmounts(payments[i], a, b, codeTable);
    }
    assert Decisions(payments, a, codeTable) == Decisions(payments, b, codeTable);
  }

  /** One pass of the outer loop's body for payment `g`: the early `continue` for a refund,
      the scan of the matched records, then the branches that append a row or not. */
  method DecidePayment(g: GatewayRow, ledger: seq<LedgerLine>, codeTable: Table) returns (d: Option<LegacyRow>)
    requires LegacySafe(g, ledger, codeTable)
    ensures d == Decision(g, ledger, codeTable)
  {
    if g.amountRefunded != 0 {
      return None;
    }
    var ps := MatchPositions(ledger, g.id, |ledger|);
    var thank, labels := ScanRecords(ledger, ps);
    d := Branches(g, ledger, ps, thank, labels, codeTable);
  }

  /** Lines 62-100: the decision on the scan results, with the code looked up by the loop. */
  method Branches(g: GatewayRow, ledger: seq<LedgerLine>, ps: seq<nat>, thank: Option<nat>, labels: set<string>,
                  codeTable: Table) returns (d: Option<LegacyRow>)
    requires InLedger(ledger, ps)
    requires ScanSafe(ledger, ps, thank, labels, codeTable)
    ensures d == Outcome(g, ledger, ps, thank, labels, codeTable)
  {
    var more := |labels| > 1;
    if thank.None? {
      return None;
    }
    if !more {
      var program := ledger[ps[OtherPosition(thank.value)]].program;
      var category := FindKey(Some(program), codeTable);
      if category.None? {
        return None;
      }
      return Some(LegacyRow(ledger[ps[1]].sessionDate, category, program, g.amount, g.fee, g.amount - g.fee, g.id));
    }
    var category := FindKey(Some(Ambiguous), codeTable);
    return Some(LegacyRow(ledger[ps[1]].sessionDate, category, Ambiguous, g.amount, g.fee, g.amount - g.fee, g.id));
  }

  /** The outer loop over the first `RowCap` settled rows, appending the row each payment
      yields, if any. */
  method ProcessRows(payments: seq<GatewayRow>, ledger: seq<LedgerLine>, codeTable: Table)
    returns (rows: seq<LegacyRow>)
    requires AllSafe(Take(payments, RowCap), ledger, codeTable)
    ensures rows == Emitted(Take(payments, RowCap), ledger, codeTable)
  {
    var batch := Take(payments, RowCap);
    ghost var ds := Decisions(batch, ledger, codeTable);
    rows := [];
    var i := 0;
    while i < |batch|
      invariant 0 <= i <= |batch|
      invariant rows == Collect(ds[..i])
    {
      var d := DecidePayment(batch[i], ledger, codeTable);
      CollectSnoc(ds, i);
      if d.Some? {
        rows := rows + [d.value];
      }
      i := i + 1;
    }
    assert ds[..i] == ds;
  }

  /** The matched positions list the matched records in order: position `k` of the
      selection is the ledger line at the `k`-th matched index label. */
  lemma MatchedRecords(ledger: seq<LedgerLine>, id: Option<string>)
    ensures var ps := MatchPositions(ledger, id, |ledger|);
      && |ps| == |Matching(ledger, id)|
      && forall k :: 0 <= k < |ps| ==> Matching(ledger, id)[k] == ledger[ps[k]]
  {
    var ps := MatchPositions(ledger, id, |ledger|);
    MatchPositionsLines(ledger, id, |ledger|);
    assert ledger[..|ledger|] == ledger;
    var shown := seq(|ps|, m requires 0 <= m < |ps| => ledger[ps[m]]);
    assert shown == Matching(ledger, id);
    assert forall k :: 0 <= k < |ps| ==> shown[k] == ledger[ps[k]];
  }

  /** What an emitted row holds: the payment's reference and amounts, the after-fees amount,
      and as category the code-table lookup of the row's program, so a code key, or, for the
      ambiguity marker only, possibly `None`. */
  lemma DecisionRow(g: GatewayRow, ledger: seq<LedgerLine>, codeTable: Table)
    requires LegacySafe(g, ledger, codeTable)
    ensures var d := Decision(g, ledger, codeTable);
      d.Some? ==>
        && d.value.paymentRef == g.id && d.value.amount == g.amount && d.value.fees == g.fee
        && d.value.amountAfterFees == d.value.amount - d.value.fees
        && d.value.category == FirstMatch(Some(d.value.program), codeTable)
        && (d.value.program == Ambiguous || d.value.category.Some?)
        && (d.value.category.Some? ==> exists i :: 0 <= i < |codeTable| && codeTable[i].0 == d.value.category.value)
  {
    if g.amountRefunded == 0 {
      var ps := MatchPositions(ledger, g.id, |ledger|);
      OutcomeRow(g, ledger, ps, LastSettlement(ledger, ps), ContentLabels(ledger, ps), codeTable);
    }
  }

  /** `DecisionRow` on the scan results. */
  lemma OutcomeRow(g: GatewayRow, ledger: seq<LedgerLine>, ps: seq<nat>, thank: Option<nat>, labels: set<string>,
                   codeTable: Table)
    requires InLedger(ledger, ps)
    requires ScanSafe(ledger, ps, thank, labels, codeTable)
    ensures var d := Outcome(g, ledger, ps, thank, labels, codeTable);
      d.Some? ==>
        && d.value.paymentRef == g.id && d.value.amount == g.amount && d.value.fees == g.fee
        && d.value.amountAfterFees == d.value.amount - d.value.fees
        && d.value.category == FirstMatch(Some(d.value.program), codeTable)
        && (d.value.program == Ambiguous || d.value.category.Some?)
        && (d.value.category.Some? ==> exists i :: 0 <= i < |codeTable| && codeTable[i].0 == d.value.category.value)
  {
    var d := Outcome(g, ledger, ps, thank, labels, codeTable);
    if d.Some? && d.value.category.Some? {
      var i :| FirstListingAt(d.value.program, codeTable, i, d.value.category.value);
    }
  }

  /** A row is emitted only for a payment without refund that has a matched line labelled
      exactly with the settlement label. */
  lemma DecisionNeedsSettlement(g: GatewayRow, ledger: seq<LedgerLine>, codeTable: Table)
    requires LegacySafe(g, ledger, codeTable)
    ensures Decision(g, ledger, codeTable).Some? ==>
      g.amountRefunded == 0 && exists l :: l in Matching(ledger, g.id) && l.program == Settlement
  {
    var ps := MatchPositions(ledger, g.id, |ledger|);
    var lines := Matching(ledger, g.id);
    var thank := LastSettlement(ledger, ps);
    if Decision(g, ledger, codeTable).Some? {
      var k :| LastSettlementAt(ledger, ps, k) && ps[k] == thank.value;
      MatchedRecords(ledger, g.id);
      assert lines[k] == ledger[ps[k]];
      assert lines[k] in lines;
    }
  }

  /** Where an emitted row's fields come from among the matched records: the session date
      from the second record, always; the program, with at most one content label, from
      record 0 when the settlement line's index label is 1 and record 1 otherwise. */
  lemma DecisionRecords(g: GatewayRow, ledger: seq<LedgerLine>, codeTable: Table)
    requires LegacySafe(g, ledger, codeTable)
    ensures var d := Decision(g, ledger, codeTable);
      var ps := MatchPositions(ledger, g.id, |ledger|);
      var lines := Matching(ledger, g.id);
      d.Some? ==>
        && |lines| >= 2 && d.value.sessionDate == lines[1].sessionDate
        && (|ContentLabels(ledger, ps)| <= 1 ==>
              d.value.program == lines[OtherPosition(LastSettlement(ledger, ps).value)].program)
        && (|ContentLabels(ledger, ps)| > 1 ==> d.value.program == Ambiguous)
  {
    var ps := MatchPositions(ledger, g.id, |ledger|);
    if Decision(g, ledger, codeTable).Some? {
      MatchedRecords(ledger, g.id);
      if |ContentLabels(ledger, ps)| > 1 {
        TwoLabelsTwoPositions(ledger, ps);
      }
    }
  }

  /** The conditions under which a row is emitted, both ways: not refunded, an exact
      settlement line, and either several content labels or a code for the chosen record. */
  lemma DecisionEmits(g: GatewayRow, ledger: seq<LedgerLine>, codeTable: Table)
    requires LegacySafe(g, ledger, codeTable)
    ensures var ps := MatchPositions(ledger, g.id, |ledger|);
      var thank := LastSettlement(ledger, ps);
      Decision(g, ledger, codeTable).Some? <==>
        && g.amountRefunded == 0
        && (exists k :: 0 <= k < |ps| && ledger[ps[k]].program == Settlement)
        && (|ContentLabels(ledger, ps)| > 1
            || FirstMatch(Some(ledger[ps[OtherPosition(thank.value)]].program), codeTable).Some?)
  {
  }

  /** Two lines that both refer to `id` are matched at positions 0 and 1. */
  lemma TwoPositions(ledger: seq<LedgerLine>, id: Option<string>)
    requires |ledger| == 2 && RefersTo(ledger[0], id) && RefersTo(ledger[1], id)
    ensures MatchPositions(ledger, id, 2) == [0, 1]
  {
    MatchPositionsStep(ledger, id, 0);
    MatchPositionsStep(ledger, id, 1);
  }

  /** An unrelated line, then two that refer to `id`: matched at positions 1 and 2. */
  lemma ThreePositions(ledger: seq<LedgerLine>, id: Option<string>)
    requires |ledger| == 3 && !RefersTo(ledger[0], id) && RefersTo(ledger[1], id) && RefersTo(ledger[2], id)
    ensures MatchPositions(ledger, id, 3) == [1, 2]
  {
    MatchPositionsStep(ledger, id, 0);
    MatchPositionsStep(ledger, id, 1);
    MatchPositionsStep(ledger, id, 2);
  }

  /** A payment with one content line and one settlement line written with a trailing
      space, and a code table that lists the content label. */
  function SpacedLedger(): seq<LedgerLine> {
    [LedgerLine("ch_1", "Yoga", "2024-01-01", "$10.00", 0),
     LedgerLine("ch_1", Settlement + " ", "2024-01-01", "-$10.00", 0)]
  }

  /** The example payment: not refunded, 10.00 with a fee of 0.59. */
  function SamplePayment(): GatewayRow {
    GatewayRow(Some("ch_1"), "TRUE", "Paid", 0, 1000, 59, 0)
  }

  /** The code table of the examples: code `A1` lists the label "Yoga". */
  function SampleTable(): Table {
    [("A1", ["Yoga"])]
  }

  lemma SpacedPositions()
    ensures MatchPositions(SpacedLedger(), SamplePayment().id, 2) == [0, 1]
  {
    var ledger := SpacedLedger();
    var id := SamplePayment().id;
    assert RefersTo(ledger[0], id) && RefersTo(ledger[1], id);
    TwoPositions(ledger, id);
  }

  lemma SpacedScan()
    ensures MatchPositions(SpacedLedger(), SamplePayment().id, 2) == [0, 1]
    ensures LastSettlement(SpacedLedger(), [0, 1]) == None
  {
    SpacedPositions();
    var ledger := SpacedLedger();
    assert ledger[1].program != Settlement by { assert |ledger[1].program| != |Settlement|; }
    assert "Yoga" != Settlement;
    assert [0, 1][..1] == [0];
  }

  /** A settlement line written with a trailing space is not recognised here, so the payment
      gives no row. */
  lemma TrailingSpaceNoRow()
    ensures LegacySafe(SamplePayment(), SpacedLedger(), SampleTable())
    ensures Decision(SamplePayment(), SpacedLedger(), SampleTable()) == None
  {
    SpacedScan();
  }

  /** The later versions trim the label, see the spaced line as a settlement line and take
      the other line's program and date. */
  lemma TrailingSpaceLaterVersions()
    ensures FirstContent(Matching(SpacedLedger(), SamplePayment().id)) == (Some("Yoga"), Some("2024-01-01"))
  {
    var ledger := SpacedLedger();
    assert Matching(ledger, SamplePayment().id) == ledger by {
      assert ledger[1..] == [ledger[1]] && [ledger[1]][1..] == [];
    }
    RStripIdentity("Yoga");
    RStripIdentity("2024-01-01");
    assert IsContent(ledger[0]);
  }

  /** A payment's two lines, content then settlement, at the front of the ledger. */
  function FrontLedger(): seq<LedgerLine> {
    [LedgerLine("ch_1", "Yoga", "2024-01-01", "$10.00", 0),
     LedgerLine("ch_1", Settlement, "2024-01-02", "-$10.00", 0)]
  }

  /** The same two lines after one line of another payment. */
  function ShiftedLedger(): seq<LedgerLine> {
    [LedgerLine("ch_9", "Swim", "2024-01-03", "$5.00", 0),
     LedgerLine("ch_1", "Yoga", "2024-01-01", "$10.00", 0),
     LedgerLine("ch_1", Settlement, "2024-01-02", "-$10.00", 0)]
  }

  lemma FrontPositions()
    ensures MatchPositions(FrontLedger(), SamplePayment().id, 2) == [0, 1]
  {
    var ledger := FrontLedger();
    var id := SamplePayment().id;
    assert RefersTo(ledger[0], id) && RefersTo(ledger[1], id);
    TwoPositions(ledger, id);
  }

  lemma FrontScan()
    ensures MatchPositions(FrontLedger(), SamplePayment().id, 2) == [0, 1]
    ensures LastSettlement(FrontLedger(), [0, 1]) == Some(1)
    ensures ContentLabels(FrontLedger(), [0, 1]) == {"Yoga"}
  {
    FrontPositions();
    assert "Yoga" != Settlement;
    assert [0, 1][..1] == [0];
    assert ContentLabels(FrontLedger(), [0]) == {"Yoga"};
  }

  lemma ShiftedPositions()
    ensures MatchPositions(ShiftedLedger(), SamplePayment().id, 3) == [1, 2]
  {
    var ledger := ShiftedLedger();
    var id := SamplePayment().id;
    assert ledger[0].paymentRef[3] != id.value[3];
    assert !RefersTo(ledger[0], id) && RefersTo(ledger[1], id) && RefersTo(ledger[2], id);
    ThreePositions(ledger, id);
  }

  lemma ShiftedScan()
    ensures MatchPositions(ShiftedLedger(), SamplePayment().id, 3) == [1, 2]
    ensures LastSettlement(ShiftedLedger(), [1, 2]) == Some(2)
    ensures ContentLabels(ShiftedLedger(), [1, 2]) == {"Yoga"}
  {
    ShiftedPositions();
    assert "Yoga" != Settlement;
    assert [1, 2][..1] == [1];
    assert ContentLabels(ShiftedLedger(), [1]) == {"Yoga"};
  }

  /** At the front of the ledger the settlement line's index label is 1, record 0 is chosen
      and a row is emitted, dated with the second record (the settlement line). */
  lemma ChosenRecordAtFront()
    ensures LegacySafe(SamplePayment(), FrontLedger(), SampleTable())
    ensures Decision(SamplePayment(), FrontLedger(), SampleTable()) ==
      Some(LegacyRow("2024-01-02", Some("A1"), "Yoga", 1000, 59, 941, Some("ch_1")))
  {
    FrontScan();
    assert FirstMatch(Some("Yoga"), SampleTable()) == Some("A1");
  }

  /** After one unrelated line the settlement line's index label is 2, so record 1 (the
      settlement line itself) is chosen; its label has no code and no row is emitted. */
  lemma ChosenRecordAfterOtherLine()
    ensures LegacySafe(SamplePayment(), ShiftedLedger(), SampleTable())
    ensures Decision(SamplePayment(), ShiftedLedger(), SampleTable()) == None
  {
    ShiftedScan();
    var ledger := ShiftedLedger();
    assert ScanSafe(ledger, [1, 2], Some(2), {"Yoga"}, SampleTable());
    assert ledger[2].program == Settlement;
    assert Settlement !in SampleTable()[0].1;
    assert FirstMatch(Some(Settlement), SampleTable()) == None;
    assert Outcome(SamplePayment(), ledger, [1, 2], Some(2), {"Yoga"}, SampleTable()) == None;
  }

  /** The evidently intended choice of the record whose program is used: compare the
      settlement line's label with the label of the first matched record, not with 1. */
  function IntendedOtherPosition(ps: seq<nat>, thank: nat): nat {
    if |ps| > 0 && ps[0] == thank then 1 else 0
  }

  /** With two matched records, one settlement line and one content label, the intended
      choice lands on the content line wherever the two records stand in the ledger. */
  lemma IntendedPicksContent(ledger: seq<LedgerLine>, ps: seq<nat>, t: nat)
    requires InLedger(ledger, ps)
    requires |ps| == 2 && ps[0] < ps[1]
    requires LastSettlement(ledger, ps) == Some(t)
    requires |ContentLabels(ledger, ps)| == 1
    ensures IntendedOtherPosition(ps, t) < |ps|
    ensures ledger[ps[IntendedOtherPosition(ps, t)]].program != Settlement
  {
    var k :| LastSettlementAt(ledger, ps, k) && ps[k] == t;
    var x :| x in ContentLabels(ledger, ps);
    var c :| 0 <= c < |ps| && ledger[ps[c]].program == x;
    assert c != k;
  }

  /** On the ledger where the choice as written lands on the settlement line, the intended
      choice lands on the content line "Yoga". */
  lemma IntendedAfterOtherLine()
    ensures var ps := MatchPositions(ShiftedLedger(), SamplePayment().id, 3);
      && ps == [1, 2] && LastSettlement(ShiftedLedger(), ps) == Some(2)
      && ShiftedLedger()[ps[OtherPosition(2)]].program == Settlement
      && ShiftedLedger()[ps[IntendedOtherPosition(ps, 2)]].program == "Yoga"
  {
    ShiftedScan();
  }

  /** The script from line 9 on: drop unsettled rows (no date window), build and scrub the
      raw code table, clean the ledger amounts, decide the rows of the first `RowCap`
      payments and sort them. */
  method ProcessData(gateway: seq<GatewayRow>, ledger: seq<LedgerLine>, entries: seq<CodeEntry>,
                     codeKeys: seq<string>, parses: string -> bool)
    returns (result: Result<seq<LegacyRow>, RunError>)
    requires FirstMalformed(ledger, AmountParses(parses)).None? ==>
      AllSafe(Take(SettledRows(gateway), RowCap), ledger, RawCodeTable(entries, codeKeys))
    ensures FirstMalformed(ledger, AmountParses(parses)).Some? ==>
      result == Failure(MalformedAmount(CleanDollarText(FirstMalformed(ledger, AmountParses(parses)).value)))
    ensures FirstMalformed(ledger, AmountParses(parses)).None? ==>
      var rows := Emitted(Take(SettledRows(gateway), RowCap), ledger, RawCodeTable(entries, codeKeys));
        && (result.Failure? <==> rows == [])
        && (result.Failure? ==> result.error == MissingSessionColumn)
        && (result.Success? ==> SortedBy(result.value, LegacySession) && multiset(result.value) == multiset(rows))
  {
    var cleaned := SettledRows(gateway);
    var grouped := GroupBy(entries, CodeColumn, codeKeys);
    var codeTable := ScrubCodeTable(grouped);
    var malformed := FirstMalformed(ledger, AmountParses(parses));
    if malformed.Some? {
      return Failure(MalformedAmount(CleanDollarText(malformed.value)));
    }
    var rows := ProcessRows(cleaned, ledger, codeTable);
    result := Finalize(rows, LegacySession);
  }
}
