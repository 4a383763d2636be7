/** The latest GUI version (newest_main.py): the data steps inside `process_data`,
    written as one sequence of statements with the per-row loop inline. */
module NewestMain {
  import opened Wrappers
  import opened Text
  import opened Lookup
  import opened CodeBook
  import opened Records
  import opened Report

  /** The `iterrows` loop over the first `RowCap` cleaned rows. Each iteration first assigns
      the provisional program from the number of distinct raw labels (keeping the previous
      iteration's value when there are fewer than two), then overwrites it on both branches:
      with the first content line's right-stripped label and date, or with `None`. Code and
      category are looked up by scanning the tables with the same program. */
  method ProcessRows(payments: seq<GatewayRow>, ledger: seq<LedgerLine>, codeTable: Table, categoryTable: Table)
    returns (rows: seq<ReconciledRow>)
    ensures |rows| == if |payments| <= RowCap then |payments| else RowCap
    ensures rows == Rows(Take(payments, RowCap), ledger, codeTable, categoryTable, FirstContent)
  {
    var batch := Take(payments, RowCap);
    rows := [];
    var programName: Option<string> := None;
    var i := 0;
    while i < |batch|
      invariant 0 <= i <= |batch|
      invariant rows == Rows(batch[..i], ledger, codeTable, categoryTable, FirstContent)
    {
      var g := batch[i];
      var records := Matching(ledger, g.id);
      programName := ProvisionalProgram(records, programName);
      var content := ContentLines(records);
      var sessionDate: Option<string>;
      if content != [] {
        programName := Some(RStrip(content[0].program));
        sessionDate := Some(RStrip(content[0].sessionDate));
      } else {
        programName := None;
        sessionDate := None;
      }
      var categoryCode := FindKey(programName, codeTable);
      var category := FindKey(programName, categoryTable);
      var row := ReconciledRow(sessionDate, category, programName, categoryCode, g.amount, g.fee, g.amount - g.fee, g.id);
      assert row == AssembleRow(g, FirstContent(records), codeTable, categoryTable);
      RowsSnoc(batch[..i], g, ledger, codeTable, categoryTable, FirstContent);
      rows := rows + [row];
      assert batch[..i + 1] == batch[..i] + [g];
      i := i + 1;
    }
    assert batch[..i] == batch;
  }

  /** What a row's program and date mean: `None` for both exactly when every line sharing the
      payment's id is a settlement line, and otherwise the right-stripped label and date of
      the first line that is not. */
  lemma RowResolution(payments: seq<GatewayRow>, ledger: seq<LedgerLine>, codeTable: Table, categoryTable: Table, i: int)
    requires 0 <= i < |payments|
    ensures var r := Rows(payments, ledger, codeTable, categoryTable, FirstContent)[i];
      var lines := Matching(ledger, payments[i].id);
      && (r.program.None? <==> forall k :: 0 <= k < |lines| ==> !IsContent(lines[k]))
      && (r.program.None? <==> r.sessionDate.None?)
      && (r.program.Some? ==>
            exists k :: FirstContentAt(lines, k) && r.program == Some(RStrip(lines[k].program))
              && r.sessionDate == Some(RStrip(lines[k].sessionDate)))
  {
    FirstContentSpec(Matching(ledger, payments[i].id));
  }

  /** The ambiguity marker assigned on more than two distinct labels never reaches a row: a
      row carries it only when a line of that payment is itself labelled with it. */
  lemma AmbiguousOverwritten(payments: seq<GatewayRow>, ledger: seq<LedgerLine>, codeTable: Table, categoryTable: Table, i: int)
    requires 0 <= i < |payments|
    ensures var r := Rows(payments, ledger, codeTable, categoryTable, FirstContent)[i];
      r.program == Some(Ambiguous) ==>
        exists l :: l in ledger && RefersTo(l, payments[i].id) && RStrip(l.program) == Ambiguous
  {
    var lines := Matching(ledger, payments[i].id);
    RowResolution(payments, ledger, codeTable, categoryTable, i);
    var r := Rows(payments, ledger, codeTable, categoryTable, FirstContent)[i];
    if r.program.Some? {
      var k :| FirstContentAt(lines, k) && r.program == Some(RStrip(lines[k].program));
      assert lines[k] in lines;
    }
  }

  /** The sum of the matched amounts is only printed: ledgers that differ only in their
      `Amount` texts give this version the same rows. */
  lemma RowsIgnoreAmounts(payments: seq<GatewayRow>, a: seq<LedgerLine>, b: seq<LedgerLine>,
                          codeTable: Table, categoryTable: Table)
    requires SameButAmounts(a, b)
    ensures Rows(payments, a, codeTable, categoryTable, FirstContent) == Rows(payments, b, codeTable, categoryTable, FirstContent)
  {
    forall m, n | SameButAmounts(m, n) ensures FirstContent(m) == FirstContent(n) {
      FirstContentIgnoresAmounts(m, n);
    }
    RowsIgnoreLedgerAmounts(payments, a, b, codeTable, categoryTable, FirstContent);
  }

  /** The data steps of `process_data`: clean the gateway rows by the caller's day window,
      build and scrub the tables, clean the ledger amounts, build the rows and sort them. */
  method ProcessData(gateway: seq<GatewayRow>, ledger: seq<LedgerLine>, entries: seq<CodeEntry>,
                     codeKeys: seq<string>, categoryKeys: seq<string>, start: int, end: int,
                     parses: string -> bool)
    returns (result: Result<seq<ReconciledRow>, RunError>)
    ensures FirstMalformed(ledger, AmountParses(parses)).Some? ==>
      result == Failure(MalformedAmount(CleanDollarText(FirstMalformed(ledger, AmountParses(parses)).value)))
    ensures FirstMalformed(ledger, AmountParses(parses)).None? && SettledInDays(gateway, start, end) == [] ==>
      result == Failure(MissingSessionColumn)
    ensures FirstMalformed(ledger, AmountParses(parses)).None? && SettledInDays(gateway, start, end) != [] ==>
      && result.Success?
      && SortedBy(result.value, SessionOf)
      && multiset(result.value) == multiset(Rows(Take(SettledInDays(gateway, start, end), RowCap), ledger,
           CodeTable(entries, codeKeys), CategoryTable(entries, categoryKeys), FirstContent))
  {
    var cleaned := SettledInDays(gateway, start, end);
    var categoryCodes, categories := BuildTables(entries, codeKeys, categoryKeys);
    var malformed := FirstMalformed(ledger, AmountParses(parses));
    if malformed.Some? {
      return Failure(MalformedAmount(CleanDollarText(malformed.value)));
    }
    var rows := ProcessRows(cleaned, ledger, categoryCodes, categories);
    result := Finalize(rows, SessionOf);
  }
}
