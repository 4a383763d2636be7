/** The script version with the ledger date window (new_main.py). Its per-row loop is the
    same statement sequence as the latest GUI version's, so that loop is shared. */
module NewMain {
  import opened Wrappers
  import opened Text
  import opened Lookup
  import opened CodeBook
  import opened Records
  import opened Report
  import NewestMain

  /** `other_df['Payment Date'].min()` of a non-empty ledger. */
  function EarliestPayment(ledger: seq<LedgerLine>): (m: int)
    requires ledger != []
    ensures forall l :: l in ledger ==> m <= l.paymentDate
    ensures exists l :: l in ledger && l.paymentDate == m
  {
    if |ledger| == 1 then
      assert ledger[0] in ledger;
      ledger[0].paymentDate
    else
      var rest := EarliestPayment(ledger[1..]);
      assert forall l :: l in ledger <==> l == ledger[0] || l in ledger[1..];
      if ledger[0].paymentDate <= rest then ledger[0].paymentDate else rest
  }

  /** `other_df['Payment Date'].max()` of a non-empty ledger. */
  function LatestPayment(ledger: seq<LedgerLine>): (m: int)
    requires ledger != []
    ensures forall l :: l in ledger ==> l.paymentDate <= m
    ensures exists l :: l in ledger && l.paymentDate == m
  {
    if |ledger| == 1 then
      assert ledger[0] in ledger;
      ledger[0].paymentDate
    else
      var rest := LatestPayment(ledger[1..]);
      assert forall l :: l in ledger <==> l == ledger[0] || l in ledger[1..];
      if ledger[0].paymentDate >= rest then ledger[0].paymentDate else rest
  }

  /** The mask of lines 18-19: created between the earliest and the latest ledger payment,
      both included, comparing whole timestamps. On an empty ledger both bounds are missing
      (`NaT`), every comparison is false and no row is kept. A row is kept exactly when some
      ledger payment is no later and some ledger payment is no earlier than its creation. */
  function InLedgerWindow(rows: seq<GatewayRow>, ledger: seq<LedgerLine>): (r: seq<GatewayRow>)
    ensures forall g :: g in r <==>
      g in rows && exists a, b :: a in ledger && b in ledger && a.paymentDate <= g.created <= b.paymentDate
  {
    if ledger == [] then []
    else
      var lo := EarliestPayment(ledger);
      var hi := LatestPayment(ledger);
      Filter(rows, (g: GatewayRow) => lo <= g.created <= hi)
  }

  /** The cleaning of lines 9-19: settled rows inside the ledger's payment window. */
  function LedgerCleaned(gateway: seq<GatewayRow>, ledger: seq<LedgerLine>): (r: seq<GatewayRow>)
    ensures forall g :: g in r <==>
      (g in gateway && Settled(g) &&
       exists a, b :: a in ledger && b in ledger && a.paymentDate <= g.created <= b.paymentDate)
  {
    InLedgerWindow(SettledRows(gateway), ledger)
  }

  /** The ledger-window mask keeps rows in input order: on concatenated inputs it concatenates. */
  lemma InLedgerWindowConcat(s: seq<GatewayRow>, t: seq<GatewayRow>, ledger: seq<LedgerLine>)
    ensures InLedgerWindow(s + t, ledger) == InLedgerWindow(s, ledger) + InLedgerWindow(t, ledger)
  {
    if ledger != [] {
      var lo := EarliestPayment(ledger);
      var hi := LatestPayment(ledger);
      FilterConcat(s, t, (g: GatewayRow) => lo <= g.created <= hi);
    }
  }

  /** The cleaning of lines 9-19 keeps rows in input order, so `head(1000)` takes the first
      surviving rows of the export. */
  lemma LedgerCleanedConcat(s: seq<GatewayRow>, t: seq<GatewayRow>, ledger: seq<LedgerLine>)
    ensures LedgerCleaned(s + t, ledger) == LedgerCleaned(s, ledger) + LedgerCleaned(t, ledger)
  {
    SettledRowsConcat(s, t);
    InLedgerWindowConcat(SettledRows(s), SettledRows(t), ledger);
  }

  /** Later timestamps fall on the same or a later calendar day. */
  lemma DayOfMonotone(s: int, t: int)
    requires s <= t
    ensures DayOf(s) <= DayOf(t)
  {
    var d, e := DayOf(s), DayOf(t);
    assert d * SecondsPerDay <= s < d * SecondsPerDay + SecondsPerDay;
    assert e * SecondsPerDay <= t < e * SecondsPerDay + SecondsPerDay;
  }

  /** The ledger window lies inside the day window from the earliest to the latest payment
      day: every row this version keeps, the day-window cleaning over those days keeps too. */
  lemma LedgerWindowWithinDays(gateway: seq<GatewayRow>, ledger: seq<LedgerLine>, g: GatewayRow)
    requires ledger != []
    requires g in LedgerCleaned(gateway, ledger)
    ensures g in SettledInDays(gateway, DayOf(EarliestPayment(ledger)), DayOf(LatestPayment(ledger)))
  {
    var a, b :| a in ledger && b in ledger && a.paymentDate <= g.created <= b.paymentDate;
    DayOfMonotone(EarliestPayment(ledger), g.created);
    DayOfMonotone(g.created, LatestPayment(ledger));
  }

  /** The ledger window is finer than the day window: a payment made earlier on the same day
      as the only ledger payment is dropped here but kept by the day window. */
  lemma LedgerWindowFinerThanDays()
    ensures var g := GatewayRow(Some("ch_1"), "TRUE", "Paid", 50, 1000, 59, 0);
      var ledger := [LedgerLine("ch_1", "Yoga", "2024-01-01", "$10.00", 100)];
      && LedgerCleaned([g], ledger) == []
      && SettledInDays([g], DayOf(EarliestPayment(ledger)), DayOf(LatestPayment(ledger))) == [g]
  {
    var g := GatewayRow(Some("ch_1"), "TRUE", "Paid", 50, 1000, 59, 0);
    var ledger := [LedgerLine("ch_1", "Yoga", "2024-01-01", "$10.00", 100)];
    assert "TRUE" != "FALSE" && "Paid" != "Failed";
    SettledInDaysSingle(g, 0, 0);
    assert EarliestPayment(ledger) == 100 && LatestPayment(ledger) == 100;
    assert SettledRows([g]) == [g] by { assert [g][1..] == []; }
    assert [g][1..] == [];
  }

  /** The script from line 9 on: clean the gateway rows by the ledger window, build and scrub
      the tables, clean the ledger amounts, build the rows of the first `RowCap` payments and
      sort them. */
  method ProcessData(gateway: seq<GatewayRow>, ledger: seq<LedgerLine>, entries: seq<CodeEntry>,
                     codeKeys: seq<string>, categoryKeys: seq<string>, parses: string -> bool)
    returns (result: Result<seq<ReconciledRow>, RunError>)
    ensures FirstMalformed(ledger, AmountParses(parses)).Some? ==>
      result == Failure(MalformedAmount(CleanDollarText(FirstMalformed(ledger, AmountParses(parses)).value)))
    ensures FirstMalformed(ledger, AmountParses(parses)).None? && LedgerCleaned(gateway, ledger) == [] ==>
      result == Failure(MissingSessionColumn)
    ensures FirstMalformed(ledger, AmountParses(parses)).None? && LedgerCleaned(gateway, ledger) != [] ==>
      && result.Success?
      && SortedBy(result.value, SessionOf)
      && multiset(result.value) == multiset(Rows(Take(LedgerCleaned(gateway, ledger), RowCap), ledger,
           CodeTable(entries, codeKeys), CategoryTable(entries, categoryKeys), FirstContent))
  {
    var cleaned := LedgerCleaned(gateway, ledger);
    var categoryCodes, categories := BuildTables(entries, codeKeys, categoryKeys);
    var malformed := FirstMalformed(ledger, AmountParses(parses));
    if malformed.Some? {
      return Failure(MalformedAmount(CleanDollarText(malformed.value)));
    }
    var rows := NewestMain.ProcessRows(cleaned, ledger, categoryCodes, categories);
    result := Finalize(rows, SessionOf);
  }
}
