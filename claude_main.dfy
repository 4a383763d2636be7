/** The GUI version with extracted helpers (claude_main.py): `clean_stripe_data`,
    `get_program_info`, `process_rows` and the data steps of `process_data`. */
module ClaudeMain {
  import opened Wrappers
  import opened Text
  import opened Lookup
  import opened CodeBook
  import opened Records
  import opened Report

  /** `get_program_info`: a provisional program from the number of distinct raw labels, then,
      when a content line exists, its right-stripped label and session date. Without a
      content line the session date is `None` and the provisional program stays. */
  function ProgramInfo(lines: seq<LedgerLine>): (Option<string>, Option<string>) {
    var program := ProvisionalProgram(lines, None);
    var content := ContentLines(lines);
    if content != [] then (Some(RStrip(content[0].program)), Some(RStrip(content[0].sessionDate)))
    else (program, None)
  }

  /** With a content line, the provisional program never survives: the result is the first
      content line's right-stripped label and date, however many distinct labels there are. */
  lemma ProgramInfoWithContent(lines: seq<LedgerLine>, i: int)
    requires FirstContentAt(lines, i)
    ensures ProgramInfo(lines) == FirstContent(lines)
    ensures ProgramInfo(lines) == (Some(RStrip(lines[i].program)), Some(RStrip(lines[i].sessionDate)))
  {
    assert lines[i] in ContentLines(lines);
    FirstContentSpec(lines);
    var j :| FirstContentAt(lines, j) && FirstContent(lines).0 == Some(RStrip(lines[j].program))
      && FirstContent(lines).1 == Some(RStrip(lines[j].sessionDate));
    assert i == j;
  }

  /** Without a content line the session date is `None` and the program is the provisional
      one: `None` with fewer than two distinct raw labels, which includes no lines at all. */
  lemma ProgramInfoWithoutContent(lines: seq<LedgerLine>)
    requires forall i :: 0 <= i < |lines| ==> !IsContent(lines[i])
    ensures ProgramInfo(lines).1 == None
    ensures ProgramInfo(lines).0 == ProvisionalProgram(lines, None)
    ensures |RawLabels(lines)| < 2 ==> ProgramInfo(lines).0 == None
  {
    FirstContentSpec(lines);
  }

  /** Settlement lines spelled with trailing whitespace count as distinct raw labels, so a
      payment with no content line can still get a program here: two spellings give the
      settlement label itself as the program. */
  lemma SettlementTwoSpellings()
    ensures var a := LedgerLine("ch_1", Settlement, "", "-10.00", 0);
      var b := LedgerLine("ch_1", Settlement + " ", "", "-10.00", 0);
      ProgramInfo([a, b]) == (Some(Settlement), None)
  {
    var a := LedgerLine("ch_1", Settlement, "", "-10.00", 0);
    var b := LedgerLine("ch_1", Settlement + " ", "", "-10.00", 0);
    var two := [a, b];
    assert RStrip(Settlement) == Settlement;
    assert RStrip(b.program) == Settlement;
    assert b.program != a.program by { assert |b.program| != |a.program|; }
    assert two[0].program == a.program && two[1].program == b.program;
    assert RawLabels(two) == {a.program, b.program};
    FirstContentSpec(two);
    assert two[1..] == [b] && [b][1..] == [];
    assert Filter(two, IsOtherLabel) == [b];
  }

  /** Three spellings of the settlement label and no content line give the ambiguity marker. */
  lemma SettlementThreeSpellings()
    ensures var a := LedgerLine("ch_1", Settlement, "", "-10.00", 0);
      var b := LedgerLine("ch_1", Settlement + " ", "", "-10.00", 0);
      var c := LedgerLine("ch_1", Settlement + "\t", "", "-10.00", 0);
      ProgramInfo([a, b, c]) == (Some(Ambiguous), None)
  {
    var a := LedgerLine("ch_1", Settlement, "", "-10.00", 0);
    var b := LedgerLine("ch_1", Settlement + " ", "", "-10.00", 0);
    var c := LedgerLine("ch_1", Settlement + "\t", "", "-10.00", 0);
    var three := [a, b, c];
    assert RStrip(Settlement) == Settlement;
    assert RStrip(b.program) == Settlement;
    assert RStrip(c.program) == Settlement;
    assert b.program != a.program by { assert |b.program| != |a.program|; }
    assert c.program != a.program by { assert |c.program| != |a.program|; }
    assert c.program != b.program by { assert c.program[19] != b.program[19]; }
    assert three[0].program == a.program && three[1].program == b.program && three[2].program == c.program;
    assert RawLabels(three) == {a.program, b.program, c.program};
    FirstContentSpec(three);
  }

  /** When every payment has a content line, this version's rows are those of the versions
      that take the first content line only. */
  lemma RowsAgreeWithFirstContent(payments: seq<GatewayRow>, ledger: seq<LedgerLine>, codeTable: Table, categoryTable: Table)
    requires forall i :: 0 <= i < |payments| ==> ContentLines(Matching(ledger, payments[i].id)) != []
    ensures Rows(payments, ledger, codeTable, categoryTable, ProgramInfo) ==
            Rows(payments, ledger, codeTable, categoryTable, FirstContent)
  {
    var a := Rows(payments, ledger, codeTable, categoryTable, ProgramInfo);
    var b := Rows(payments, ledger, codeTable, categoryTable, FirstContent);
    forall i | 0 <= i < |payments| ensures a[i] == b[i] {
      var lines := Matching(ledger, payments[i].id);
      assert ProgramInfo(lines) == FirstContent(lines);
    }
  }

  /** `get_program_info` does not read `Amount`. */
  lemma ProgramInfoIgnoresAmounts(a: seq<LedgerLine>, b: seq<LedgerLine>)
    requires SameButAmounts(a, b)
    ensures ProgramInfo(a) == ProgramInfo(b)
  {
    ProvisionalIgnoresAmounts(a, b, None);
    FirstContentIgnoresAmounts(a, b);
  }

  /** `process_rows` never reads a ledger amount: ledgers that differ only in their
      `Amount` texts give this version the same rows. */
  lemma RowsIgnoreAmounts(payments: seq<GatewayRow>, a: seq<LedgerLine>, b: seq<LedgerLine>,
                          codeTable: Table, categoryTable: Table)
    requires SameButAmounts(a, b)
    ensures Rows(payments, a, codeTable, categoryTable, ProgramInfo) == Rows(payments, b, codeTable, categoryTable, ProgramInfo)
  {
    forall m, n | SameButAmounts(m, n) ensures ProgramInfo(m) == ProgramInfo(n) {
      ProgramInfoIgnoresAmounts(m, n);
    }
    RowsIgnoreLedgerAmounts(payments, a, b, codeTable, categoryTable, ProgramInfo);
  }

  /** `process_rows`: one row per payment, in order, appended by the loop. */
  method ProcessRows(payments: seq<GatewayRow>, ledger: seq<LedgerLine>, codeTable: Table, categoryTable: Table)
    returns (rows: seq<ReconciledRow>)
    ensures rows == Rows(payments, ledger, codeTable, categoryTable, ProgramInfo)
  {
    rows := [];
    var i := 0;
    while i < |payments|
      invariant 0 <= i <= |payments|
      invariant rows == Rows(payments[..i], ledger, codeTable, categoryTable, ProgramInfo)
    {
      var g := payments[i];
      var records := Matching(ledger, g.id);
      var info := ProgramInfo(records);
      var categoryCode := FirstMatch(info.0, codeTable);
      var category := FirstMatch(info.0, categoryTable);
      rows := rows + [ReconciledRow(info.1, category, info.0, categoryCode, g.amount, g.fee, g.amount - g.fee, g.id)];
      assert payments[..i + 1] == payments[..i] + [g];
      i := i + 1;
    }
    assert payments[..i] == payments;
  }

  /** The data steps of `process_data`: clean the gateway rows by the caller's day window,
      build both tables, clean the ledger amounts, build the rows and sort them. */
  method ProcessData(gateway: seq<GatewayRow>, ledger: seq<LedgerLine>, entries: seq<CodeEntry>,
                     codeKeys: seq<string>, categoryKeys: seq<string>, start: int, end: int,
                     parses: string -> bool)
    returns (result: Result<seq<ReconciledRow>, RunError>)
    ensures FirstMalformed(ledger, AmountParses(parses)).Some? ==>
      result == Failure(MalformedAmount(CleanDollarText(FirstMalformed(ledger, AmountParses(parses)).value)))
    ensures FirstMalformed(ledger, AmountParses(parses)).None? && SettledInDays(gateway, start, end) == [] ==>
      result == Failure(MissingSessionColumn)
    ensures FirstMalformed(ledger, AmountParses(parses)).None? && SettledInDays(gateway, start, end) != [] ==>
      && result.Success?
      && SortedBy(result.value, SessionOf)
      && multiset(result.value) == multiset(Rows(SettledInDays(gateway, start, end), ledger,
           CodeTable(entries, codeKeys), CategoryTable(entries, categoryKeys), ProgramInfo))
  {
    var cleaned := SettledInDays(gateway, start, end);
    var stripped := RStripPrograms(entries);
    var categoryCodes := ScrubbedTable(GroupBy(stripped, CodeColumn, codeKeys));
    var categories := GroupBy(stripped, CategoryColumn, categoryKeys);
    var malformed := FirstMalformed(ledger, AmountParses(parses));
    if malformed.Some? {
      return Failure(MalformedAmount(CleanDollarText(malformed.value)));
    }
    var rows := ProcessRows(cleaned, ledger, categoryCodes, categories);
    result := Finalize(rows, SessionOf);
  }
}
