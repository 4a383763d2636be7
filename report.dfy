/** The report: one row per gateway payment, the ordering by session date, and the two ways
    a run ends without a report. */
module Report {
  import opened Wrappers
  import opened Text
  import opened Lookup
  import opened Records

  /** One row of the later versions' report. */
  datatype ReconciledRow = ReconciledRow(
    sessionDate: Option<string>, category: Option<string>, program: Option<string>,
    categoryCode: Option<string>, amount: int, fees: int, amountAfterFees: int,
    paymentRef: Option<string>)

  /** The dictionary appended to `rows` for payment `g` once its program and session date
      are resolved: code and category are both looked up with that same program. */
  function AssembleRow(g: GatewayRow, resolved: (Option<string>, Option<string>), codeTable: Table, categoryTable: Table): ReconciledRow {
    ReconciledRow(
      resolved.1, FirstMatch(resolved.0, categoryTable), resolved.0, FirstMatch(resolved.0, codeTable),
      g.amount, g.fee, g.amount - g.fee, g.id)
  }

  /** The session date a report row is sorted by. */
  function SessionOf(r: ReconciledRow): Option<string> {
    r.sessionDate
  }

  /** The report rows of the later versions before sorting: one per payment, in payment order,
      each built from the ledger lines that share the payment's id and resolved by `resolve`. */
  function Rows(payments: seq<GatewayRow>, ledger: seq<LedgerLine>, codeTable: Table, categoryTable: Table,
                resolve: seq<LedgerLine> -> (Option<string>, Option<string>)): (rows: seq<ReconciledRow>)
    ensures |rows| == |payments|
    ensures forall i :: 0 <= i < |payments| ==>
      && rows[i].paymentRef == payments[i].id
      && rows[i].amount == payments[i].amount && rows[i].fees == payments[i].fee
      && rows[i].amountAfterFees == rows[i].amount - rows[i].fees
      && rows[i].program == resolve(Matching(ledger, payments[i].id)).0
      && rows[i].sessionDate == resolve(Matching(ledger, payments[i].id)).1
      && rows[i].categoryCode == FirstMatch(rows[i].program, codeTable)
      && rows[i].category == FirstMatch(rows[i].program, categoryTable)
  {
    var rows := seq(|payments|, i requires 0 <= i < |payments| =>
      AssembleRow(payments[i], resolve(Matching(ledger, payments[i].id)), codeTable, categoryTable));
    assert forall i :: 0 <= i < |payments| ==>
      rows[i] == AssembleRow(payments[i], resolve(Matching(ledger, payments[i].id)), codeTable, categoryTable);
    rows
  }

  /** Appending a payment appends its row. */
  lemma RowsSnoc(payments: seq<GatewayRow>, g: GatewayRow, ledger: seq<LedgerLine>, codeTable: Table,
                 categoryTable: Table, resolve: seq<LedgerLine> -> (Option<string>, Option<string>))
    ensures Rows(payments + [g], ledger, codeTable, categoryTable, resolve)
         == Rows(payments, ledger, codeTable, categoryTable, resolve)
            + [AssembleRow(g, resolve(Matching(ledger, g.id)), codeTable, categoryTable)]
  {
    var a := Rows(payments + [g], ledger, codeTable, categoryTable, resolve);
    var b := Rows(payments, ledger, codeTable, categoryTable, resolve)
            + [AssembleRow(g, resolve(Matching(ledger, g.id)), codeTable, categoryTable)];
    forall i | 0 <= i < |a| ensures a[i] == b[i] {
      if i < |payments| {
        assert (payments + [g])[i] == payments[i];
      }
    }
  }

  /** The refund and zero-sum check only reports: payments that differ only in
      `Amount Refunded` give the same rows. */
  lemma RowsIgnoreRefunds(payments: seq<GatewayRow>, others: seq<GatewayRow>, ledger: seq<LedgerLine>,
                          codeTable: Table, categoryTable: Table,
                          resolve: seq<LedgerLine> -> (Option<string>, Option<string>))
    requires |others| == |payments|
    requires forall i :: 0 <= i < |payments| ==> others[i] == payments[i].(amountRefunded := others[i].amountRefunded)
    ensures Rows(others, ledger, codeTable, categoryTable, resolve) == Rows(payments, ledger, codeTable, categoryTable, resolve)
  {
    var a := Rows(others, ledger, codeTable, categoryTable, resolve);
    var b := Rows(payments, ledger, codeTable, categoryTable, resolve);
    forall i | 0 <= i < |payments| ensures a[i] == b[i] {
      assert others[i].id == payments[i].id;
    }
  }

  /** The zero-sum check only reports: when the resolution does not read `Amount`, ledgers
      that differ only in their `Amount` texts give the same rows. */
  lemma RowsIgnoreLedgerAmounts(payments: seq<GatewayRow>, a: seq<LedgerLine>, b: seq<LedgerLine>,
                                codeTable: Table, categoryTable: Table,
                                resolve: seq<LedgerLine> -> (Option<string>, Option<string>))
    requires SameButAmounts(a, b)
    requires forall m, n :: SameButAmounts(m, n) ==> resolve(m) == resolve(n)
    ensures Rows(payments, a, codeTable, categoryTable, resolve) == Rows(payments, b, codeTable, categoryTable, resolve)
  {
    var ra := Rows(payments, a, codeTable, categoryTable, resolve);
    var rb := Rows(payments, b, codeTable, categoryTable, resolve);
    forall i | 0 <= i < |payments| ensures ra[i] == rb[i] {
      MatchingIgnoresAmounts(a, b, payments[i].id);
    }
  }

  /** Why a run ends without writing a report. */
  datatype RunError =
    | MalformedAmount(text: string)  // `float` rejected the cleaned `Amount` text of this ledger line
    | MissingSessionColumn           // `pd.DataFrame([])` has no `Session Date` column to sort by

  /** Whether `float(clean_dollar_amount(s))` succeeds on the raw `Amount` text `s`;
      `parses` stands for what Python's `float` accepts. */
  function AmountParses(parses: string -> bool): string -> bool {
    s => parses(CleanDollarText(s))
  }

  /** Line `i` is the first ledger line whose `Amount` text `accepts` rejects. */
  predicate FirstMalformedAt(ledger: seq<LedgerLine>, accepts: string -> bool, i: int) {
    0 <= i < |ledger| && !accepts(ledger[i].amount)
    && forall j :: 0 <= j < i ==> accepts(ledger[j].amount)
  }

  /** The position of the first ledger line from `k` on whose `Amount` text `accepts`
      rejects, the lines before `k` being accepted. */
  function FirstMalformedFrom(ledger: seq<LedgerLine>, accepts: string -> bool, k: nat): (r: Option<nat>)
    requires k <= |ledger|
    requires forall j :: 0 <= j < k ==> accepts(ledger[j].amount)
    ensures r.None? <==> forall i :: k <= i < |ledger| ==> accepts(ledger[i].amount)
    ensures r.Some? ==> FirstMalformedAt(ledger, accepts, r.value)
    decreases |ledger| - k
  {
    if k == |ledger| then None
    else if !accepts(ledger[k].amount) then Some(k)
    else FirstMalformedFrom(ledger, accepts, k + 1)
  }

  /** The raw `Amount` text of the first ledger line `accepts` rejects: with
      `AmountParses(parses)`, `other_df['Amount'].apply(clean_dollar_amount)` raises there. */
  function FirstMalformed(ledger: seq<LedgerLine>, accepts: string -> bool): (r: Option<string>)
    ensures r.None? <==> forall i :: 0 <= i < |ledger| ==> accepts(ledger[i].amount)
    ensures r.Some? ==> exists i :: FirstMalformedAt(ledger, accepts, i) && ledger[i].amount == r.value
  {
    match FirstMalformedFrom(ledger, accepts, 0)
    case None => None
    case Some(i) => Some(ledger[i].amount)
  }

  /** The amount column is converted exactly when every cleaned text parses; otherwise the
      run fails at a line whose cleaned text does not, after lines whose cleaned texts do. */
  lemma FirstMalformedCleaned(ledger: seq<LedgerLine>, parses: string -> bool)
    ensures var r := FirstMalformed(ledger, AmountParses(parses));
      && (r.None? <==> forall i :: 0 <= i < |ledger| ==> parses(CleanDollarText(ledger[i].amount)))
      && (r.Some? ==>
            exists i ::
              && 0 <= i < |ledger| && ledger[i].amount == r.value
              && !parses(CleanDollarText(ledger[i].amount))
              && (forall j :: 0 <= j < i ==> parses(CleanDollarText(ledger[j].amount))))
  {
    var accepts := AmountParses(parses);
    assert forall t :: accepts(t) == parses(CleanDollarText(t));
  }

  /** Python's `<=` on strings: code point by code point, a prefix first. */
  predicate LexLe(a: string, b: string)
    decreases |a|
  {
    if a == [] then true
    else if b == [] then false
    else if a[0] != b[0] then a[0] < b[0]
    else LexLe(a[1..], b[1..])
  }

  lemma {:induction false} LexLeReflexive(a: string)
    ensures LexLe(a, a)
    decreases |a|
  {
    if a != [] {
      LexLeReflexive(a[1..]);
    }
  }

  lemma {:induction false} LexLeTotal(a: string, b: string)
    ensures LexLe(a, b) || LexLe(b, a)
    decreases |a|
  {
    if a != [] && b != [] && a[0] == b[0] {
      LexLeTotal(a[1..], b[1..]);
    }
  }

  lemma {:induction false} LexLeTransitive(a: string, b: string, c: string)
    requires LexLe(a, b) && LexLe(b, c)
    ensures LexLe(a, c)
    decreases |a|
  {
    if a != [] && b != [] && c != [] && a[0] == b[0] && b[0] == c[0] {
      LexLeTransitive(a[1..], b[1..], c[1..]);
    }
  }

  lemma {:induction false} LexLeAntisymmetric(a: string, b: string)
    requires LexLe(a, b) && LexLe(b, a)
    ensures a == b
    decreases |a|
  {
    if a != [] && b != [] {
      LexLeAntisymmetric(a[1..], b[1..]);
      assert a == [a[0]] + a[1..] && b == [b[0]] + b[1..];
    }
  }

  /** The order of `sort_values('Session Date')`: ascending strings, missing dates last. */
  predicate SessionLe(a: Option<string>, b: Option<string>) {
    match (a, b)
    case (Some(x), Some(y)) => LexLe(x, y)
    case (Some(_), None) => true
    case (None, Some(_)) => false
    case (None, None) => true
  }

  lemma SessionLeReflexive(a: Option<string>)
    ensures SessionLe(a, a)
  {
    if a.Some? {
      LexLeReflexive(a.value);
    }
  }

  lemma SessionLeTotal(a: Option<string>, b: Option<string>)
    ensures SessionLe(a, b) || SessionLe(b, a)
  {
    if a.Some? && b.Some? {
      LexLeTotal(a.value, b.value);
    }
  }

  lemma SessionLeTransitive(a: Option<string>, b: Option<string>, c: Option<string>)
    requires SessionLe(a, b) && SessionLe(b, c)
    ensures SessionLe(a, c)
  {
    if a.Some? && b.Some? && c.Some? {
      LexLeTransitive(a.value, b.value, c.value);
    }
  }

  /** Rows in ascending session-date order under `key`. */
  predicate SortedBy<T>(s: seq<T>, key: T -> Option<string>) {
    forall i, j :: 0 <= i < j < |s| ==> SessionLe(key(s[i]), key(s[j]))
  }

  /** Insert one row into rows already in order. */
  function Insert<T>(x: T, s: seq<T>, key: T -> Option<string>): (r: seq<T>)
    requires SortedBy(s, key)
    ensures multiset(r) == multiset(s) + multiset{x}
    ensures SortedBy(r, key)
  {
    if s == [] then [x]
    else if SessionLe(key(x), key(s[0])) then
      assert forall j :: 0 <= j < |s| ==> SessionLe(key(x), key(s[j])) by {
        forall j | 0 <= j < |s| ensures SessionLe(key(x), key(s[j])) {
          if j > 0 { SessionLeTransitive(key(x), key(s[0]), key(s[j])); }
        }
      }
      [x] + s
    else
      var rest := Insert(x, s[1..], key);
      assert s == [s[0]] + s[1..];
      SessionLeTotal(key(x), key(s[0]));
      assert forall j :: 0 <= j < |rest| ==> SessionLe(key(s[0]), key(rest[j])) by {
        forall j | 0 <= j < |rest| ensures SessionLe(key(s[0]), key(rest[j])) {
          assert rest[j] in multiset(rest);
          if rest[j] != x {
            assert rest[j] in multiset(s[1..]);
            var m :| 0 <= m < |s[1..]| && s[1..][m] == rest[j];
            assert s[m + 1] == rest[j];
          }
        }
      }
      [s[0]] + rest
  }

  /** A sort by session date: the rows in ascending order, none lost or added. */
  function SortBy<T>(s: seq<T>, key: T -> Option<string>): (r: seq<T>)
    ensures multiset(r) == multiset(s)
    ensures SortedBy(r, key)
  {
    if s == [] then []
    else
      assert s == [s[0]] + s[1..];
      Insert(s[0], SortBy(s[1..], key), key)
  }

  /** `pd.DataFrame(rows).sort_values('Session Date')`: an empty `rows` gives a frame with no
      columns, so the sort raises; otherwise the rows in ascending session-date order. The
      particular order among rows with equal dates is not promised. */
  function Finalize<T>(rows: seq<T>, key: T -> Option<string>): (r: Result<seq<T>, RunError>)
    ensures r.Failure? <==> rows == []
    ensures r.Failure? ==> r.error == MissingSessionColumn
    ensures r.Success? ==> SortedBy(r.value, key) && multiset(r.value) == multiset(rows)
  {
    if rows == [] then Failure(MissingSessionColumn) else Success(SortBy(rows, key))
  }

  /** Dropping one row keeps the rest in order. */
  lemma SortedRemove<T>(a: seq<T>, n: int, key: T -> Option<string>)
    requires SortedBy(a, key) && 0 <= n < |a|
    ensures SortedBy(a[..n] + a[n + 1..], key)
  {
    var a' := a[..n] + a[n + 1..];
    forall i, j | 0 <= i < j < |a'| ensures SessionLe(key(a'[i]), key(a'[j])) {
      var i0 := if i < n then i else i + 1;
      var j0 := if j < n then j else j + 1;
      assert a'[i] == a[i0] && a'[j] == a[j0];
    }
  }

  lemma MultisetRemove<T>(a: seq<T>, n: int)
    requires 0 <= n < |a|
    ensures multiset(a[..n] + a[n + 1..]) == multiset(a) - multiset{a[n]}
  {
    assert a == a[..n] + [a[n]] + a[n + 1..];
  }

  /** In ordered rows, everything up to a row that carries the least date carries it too. */
  lemma SortedLeastBlock<T>(a: seq<T>, n: int, key: T -> Option<string>)
    requires SortedBy(a, key) && 0 <= n < |a| && key(a[n]) == key(a[0])
    ensures forall i :: 0 <= i <= n ==> key(a[i]) == key(a[0])
  {
    forall i | 0 < i < n ensures key(a[i]) == key(a[0]) {
      assert SessionLe(key(a[0]), key(a[i])) && SessionLe(key(a[i]), key(a[n]));
      SessionLeAntisymmetric(key(a[0]), key(a[i]));
    }
  }

  /** Reassembles the positional agreement of keys after the least row was set aside. */
  lemma ShiftKeys<T>(a: seq<T>, b: seq<T>, n: int, key: T -> Option<string>)
    requires |a| == |b| && 0 <= n < |a|
    requires forall i :: 0 <= i <= n ==> key(a[i]) == key(b[0])
    requires forall i :: 0 <= i < |a| - 1 ==> key((a[..n] + a[n + 1..])[i]) == key(b[1..][i])
    ensures forall i :: 0 <= i < |a| ==> key(a[i]) == key(b[i])
  {
    var a' := a[..n] + a[n + 1..];
    forall i | 0 < i < |a| ensures key(a[i]) == key(b[i]) {
      assert key(b[1..][i - 1]) == key(a'[i - 1]);
      if i <= n {
        assert a'[i - 1] == a[i - 1];
      } else {
        assert a'[i - 1] == a[i];
      }
    }
  }

  /** Two orderings of the same rows start with the same date, and the first row of one sits
      somewhere in the other. */
  lemma SharedLeast<T>(a: seq<T>, b: seq<T>, key: T -> Option<string>) returns (n: int)
    requires SortedBy(a, key) && SortedBy(b, key) && multiset(a) == multiset(b) && a != []
    ensures 0 <= n < |a| && |b| > 0 && a[n] == b[0] && key(a[0]) == key(b[0])
  {
    assert b != [] by { assert a[0] in multiset(b); }
    assert a[0] in multiset(b);
    var m :| 0 <= m < |b| && b[m] == a[0];
    assert b[0] in multiset(a);
    n :| 0 <= n < |a| && a[n] == b[0];
    SessionLeReflexive(key(a[0]));
    assert SessionLe(key(b[0]), key(a[0])) by {
      if m > 0 { assert SessionLe(key(b[0]), key(b[m])); }
    }
    assert SessionLe(key(a[0]), key(b[0])) by {
      if n > 0 { assert SessionLe(key(a[0]), key(a[n])); }
    }
    SessionLeAntisymmetric(key(a[0]), key(b[0]));
  }

  /** Setting the shared least row aside leaves equal multisets. */
  lemma RemoveShared<T>(a: seq<T>, b: seq<T>, n: int)
    requires multiset(a) == multiset(b)
    requires 0 <= n < |a| && |b| > 0 && a[n] == b[0]
    ensures multiset(a[..n] + a[n + 1..]) == multiset(b[1..])
  {
    MultisetRemove(a, n);
    assert b == [b[0]] + b[1..];
  }

  /** Two orderings that satisfy the contract agree on the sequence of session dates, even
      though rows with equal dates may be ordered differently. */
  lemma {:induction false} SortedDatesUnique<T>(a: seq<T>, b: seq<T>, key: T -> Option<string>)
    requires SortedBy(a, key) && SortedBy(b, key) && multiset(a) == multiset(b)
    ensures |a| == |b|
    ensures forall i :: 0 <= i < |a| ==> key(a[i]) == key(b[i])
    decreases |a|
  {
    assert |a| == |multiset(a)| == |multiset(b)| == |b|;
    if a != [] {
      var n := SharedLeast(a, b, key);
      SortedLeastBlock(a, n, key);
      RemoveShared(a, b, n);
      SortedRemove(a, n, key);
      SortedRemove(b, 0, key);
      assert b[..0] + b[1..] == b[1..];
      SortedDatesUnique(a[..n] + a[n + 1..], b[1..], key);
      ShiftKeys(a, b, n, key);
    }
  }

  lemma SessionLeAntisymmetric(a: Option<string>, b: Option<string>)
    requires SessionLe(a, b) && SessionLe(b, a)
    ensures a == b
  {
    if a.Some? && b.Some? {
      LexLeAntisymmetric(a.value, b.value);
    }
  }
}
