/** The two input tables (gateway export rows and ledger lines), the filters applied to the
    gateway rows, and the per-payment selection and resolution of ledger lines. */
module Records {
  import opened Wrappers
  import opened Text

  const SecondsPerDay: int := 86400
  /** Label of the ledger line that applies a payment rather than selling something. */
  const Settlement: string := "Payment (Thank you)"
  /** The program written when several distinct labels share one payment. */
  const Ambiguous: string := "More than one unique program"
  /** `head(1000)`: how many filtered gateway rows the scripts look at. */
  const RowCap: nat := 1000

  /** One row of the gateway export: `id` (missing = `None`), `Captured`, `Status`,
      `Created date (UTC)` as a timestamp in seconds, and `Amount`, `Fee`,
      `Amount Refunded` in cents. */
  datatype GatewayRow = GatewayRow(
    id: Option<string>, captured: string, status: string, created: int,
    amount: int, fee: int, amountRefunded: int)

  /** One line of the ledger export: `Payment Ref`, `Program`, `Session Date`, the raw
      `Amount` text and `Payment Date` as a timestamp in seconds. */
  datatype LedgerLine = LedgerLine(
    paymentRef: string, program: string, sessionDate: string, amount: string, paymentDate: int)

  /** A boolean mask applied to a table: the rows that pass, in their original order. */
  function Filter<T(!new)>(s: seq<T>, keep: T -> bool): (r: seq<T>)
    ensures |r| <= |s|
    ensures forall x :: x in r <==> x in s && keep(x)
  {
    if s == [] then []
    else
      assert forall x :: x in s <==> x == s[0] || x in s[1..];
      (if keep(s[0]) then [s[0]] else []) + Filter(s[1..], keep)
  }

  /** Masks distribute over concatenation: kept rows keep their relative order. */
  lemma {:induction false} FilterConcat<T(!new)>(s: seq<T>, t: seq<T>, keep: T -> bool)
    ensures Filter(s + t, keep) == Filter(s, keep) + Filter(t, keep)
  {
    if s == [] {
      assert s + t == t;
    } else {
      assert (s + t)[0] == s[0];
      assert (s + t)[1..] == s[1..] + t;
      FilterConcat(s[1..], t, keep);
    }
  }

  /** The first row a mask keeps is the first row of the input that passes it. */
  lemma {:induction false} FilterFirst<T(!new)>(s: seq<T>, keep: T -> bool)
    requires Filter(s, keep) != []
    ensures exists i ::
      0 <= i < |s| && keep(s[i]) && Filter(s, keep)[0] == s[i] && forall j :: 0 <= j < i ==> !keep(s[j])
  {
    if !keep(s[0]) {
      assert Filter(s, keep) == Filter(s[1..], keep);
      FilterFirst(s[1..], keep);
      var t := s[1..];
      var i :| 0 <= i < |t| && keep(t[i]) && Filter(t, keep)[0] == t[i]
        && forall j :: 0 <= j < i ==> !keep(t[j]);
      assert s[i + 1] == t[i];
      forall j | 0 <= j < i + 1 ensures !keep(s[j]) {
        if j > 0 { assert s[j] == t[j - 1]; }
      }
    } else {
      assert Filter(s, keep)[0] == s[0];
    }
  }

  /** The first `n` rows (`DataFrame.head(n)`). */
  function Take<T>(s: seq<T>, n: nat): (r: seq<T>)
    ensures |r| == if |s| <= n then |s| else n
    ensures r <= s
  {
    if |s| <= n then s else s[..n]
  }

  /** The calendar date (`.dt.date`) of a timestamp, as a day number. */
  function DayOf(t: int): int {
    t / SecondsPerDay
  }

  /** A gateway row that survives `dropna(subset=['id'])` and the Captured/Status mask. */
  predicate Settled(g: GatewayRow) {
    g.id.Some? && g.captured != "FALSE" && g.status != "Failed"
  }

  /** Created on a calendar day between `start` and `end`, both included. */
  predicate CreatedOnDays(g: GatewayRow, start: int, end: int) {
    start <= DayOf(g.created) <= end
  }

  /** The rows without an id, the uncaptured ones and the failed ones dropped. */
  function SettledRows(rows: seq<GatewayRow>): (r: seq<GatewayRow>)
    ensures forall g :: g in r <==> g in rows && Settled(g)
  {
    Filter(rows, Settled)
  }

  /** The settled-row mask keeps rows in input order: on concatenated inputs it concatenates. */
  lemma SettledRowsConcat(s: seq<GatewayRow>, t: seq<GatewayRow>)
    ensures SettledRows(s + t) == SettledRows(s) + SettledRows(t)
  {
    FilterConcat(s, t, Settled);
  }

  /** The cleaning of the later GUI versions: settled rows created on a day of the
      caller's window `[start, end]`, compared by calendar date. */
  function SettledInDays(rows: seq<GatewayRow>, start: int, end: int): (r: seq<GatewayRow>)
    ensures forall g :: g in r <==> g in rows && Settled(g) && CreatedOnDays(g, start, end)
  {
    Filter(SettledRows(rows), g => CreatedOnDays(g, start, end))
  }

  /** The cleaning keeps rows in input order: on concatenated inputs it concatenates. */
  lemma SettledInDaysConcat(s: seq<GatewayRow>, t: seq<GatewayRow>, start: int, end: int)
    ensures SettledInDays(s + t, start, end) == SettledInDays(s, start, end) + SettledInDays(t, start, end)
  {
    FilterConcat(s, t, Settled);
    FilterConcat(SettledRows(s), SettledRows(t), g => CreatedOnDays(g, start, end));
  }

  /** On a single row the cleaning is a yes/no decision on that row. */
  lemma SettledInDaysSingle(g: GatewayRow, start: int, end: int)
    ensures SettledInDays([g], start, end) == if Settled(g) && CreatedOnDays(g, start, end) then [g] else []
  {
    assert [g][1..] == [];
  }

  /** A ledger line whose `Payment Ref` equals the gateway id; a missing id equals nothing. */
  predicate RefersTo(l: LedgerLine, id: Option<string>) {
    id.Some? && l.paymentRef == id.value
  }

  /** The mask `other_df['Payment Ref'] == id`. */
  function RefMask(id: Option<string>): LedgerLine -> bool {
    l => RefersTo(l, id)
  }

  /** `other_df[other_df['Payment Ref'] == id].reset_index(drop=True)`. */
  function Matching(ledger: seq<LedgerLine>, id: Option<string>): (r: seq<LedgerLine>)
    ensures forall l :: l in r <==> l in ledger && RefersTo(l, id)
  {
    Filter(ledger, RefMask(id))
  }

  /** The index labels (positions in the whole ledger) of the lines among the first `n`
      that refer to `id`, ascending: `other_df[other_df['Payment Ref'] == id]` without
      `reset_index`. */
  function MatchPositions(ledger: seq<LedgerLine>, id: Option<string>, n: nat): (ps: seq<nat>)
    requires n <= |ledger|
    ensures forall k :: 0 <= k < |ps| ==> ps[k] < n && RefersTo(ledger[ps[k]], id)
    ensures forall k, m :: 0 <= k < m < |ps| ==> ps[k] < ps[m]
    ensures forall p :: 0 <= p < n && RefersTo(ledger[p], id) ==> p in ps
  {
    if n == 0 then []
    else
      var prev := MatchPositions(ledger, id, n - 1);
      prev + (if RefersTo(ledger[n - 1], id) then [n - 1] else [])
  }

  /** One more ledger line adds its own position when it refers to `id`. */
  lemma MatchPositionsStep(ledger: seq<LedgerLine>, id: Option<string>, n: nat)
    requires n < |ledger|
    ensures MatchPositions(ledger, id, n + 1) == MatchPositions(ledger, id, n) + (if RefersTo(ledger[n], id) then [n] else [])
  {
  }

  /** Reading the lines at two runs of positions one after the other. */
  lemma LinesAtConcat(ledger: seq<LedgerLine>, p: seq<nat>, q: seq<nat>)
    requires forall k :: 0 <= k < |p| ==> p[k] < |ledger|
    requires forall k :: 0 <= k < |q| ==> q[k] < |ledger|
    ensures seq(|p + q|, k requires 0 <= k < |p + q| => ledger[(p + q)[k]])
         == seq(|p|, k requires 0 <= k < |p| => ledger[p[k]]) + seq(|q|, k requires 0 <= k < |q| => ledger[q[k]])
  {
    var pq := p + q;
    var lhs := seq(|pq|, k requires 0 <= k < |pq| => ledger[pq[k]]);
    var left := seq(|p|, k requires 0 <= k < |p| => ledger[p[k]]);
    var right := seq(|q|, k requires 0 <= k < |q| => ledger[q[k]]);
    forall k | 0 <= k < |lhs| ensures lhs[k] == (left + right)[k] {
      if k < |p| {
        assert pq[k] == p[k];
      } else {
        assert pq[k] == q[k - |p|];
      }
    }
  }

  /** The lines at the matched positions are exactly the reset-index selection. */
  lemma {:induction false} MatchPositionsLines(ledger: seq<LedgerLine>, id: Option<string>, n: nat)
    requires n <= |ledger|
    ensures var ps := MatchPositions(ledger, id, n);
      seq(|ps|, k requires 0 <= k < |ps| => ledger[ps[k]]) == Matching(ledger[..n], id)
  {
    if n == 0 {
      assert ledger[..0] == [];
    } else {
      var prev := MatchPositions(ledger, id, n - 1);
      MatchPositionsLines(ledger, id, n - 1);
      var tail: seq<nat> := if RefersTo(ledger[n - 1], id) then [n - 1] else [];
      LinesAtConcat(ledger, prev, tail);
      var last := if RefersTo(ledger[n - 1], id) then [ledger[n - 1]] else [];
      assert seq(|tail|, k requires 0 <= k < |tail| => ledger[tail[k]]) == last;
      assert ledger[..n] == ledger[..n - 1] + [ledger[n - 1]];
      FilterConcat(ledger[..n - 1], [ledger[n - 1]], RefMask(id));
      assert [ledger[n - 1]][1..] == [];
      assert Filter([ledger[n - 1]], RefMask(id)) == last;
    }
  }

  /** A content line: its right-stripped label is not the settlement label. */
  predicate IsContent(l: LedgerLine) {
    RStrip(l.program) != Settlement
  }

  /** `other_records[other_records['Program'].str.rstrip() != "Payment (Thank you)"]`. */
  function ContentLines(lines: seq<LedgerLine>): (r: seq<LedgerLine>)
    ensures forall l :: l in r <==> l in lines && IsContent(l)
  {
    Filter(lines, IsContent)
  }

  /** Line `i` is the first content line of `lines`. */
  predicate FirstContentAt(lines: seq<LedgerLine>, i: int) {
    0 <= i < |lines| && IsContent(lines[i]) && forall j :: 0 <= j < i ==> !IsContent(lines[j])
  }

  /** Program and session date taken from the first content line, both right-stripped;
      `(None, None)` when every line is a settlement line. */
  function FirstContent(lines: seq<LedgerLine>): (Option<string>, Option<string>) {
    var content := ContentLines(lines);
    if content != [] then (Some(RStrip(content[0].program)), Some(RStrip(content[0].sessionDate)))
    else (None, None)
  }

  /** What `FirstContent` means: the right-stripped label and date of the first line whose
      right-stripped label is not the settlement label, else nothing at all. */
  lemma FirstContentSpec(lines: seq<LedgerLine>)
    ensures var (program, date) := FirstContent(lines);
      && (program.None? <==> forall i :: 0 <= i < |lines| ==> !IsContent(lines[i]))
      && (program.None? <==> date.None?)
      && (program.Some? ==>
            exists i :: FirstContentAt(lines, i) && program == Some(RStrip(lines[i].program))
              && date == Some(RStrip(lines[i].sessionDate)))
  {
    var content := ContentLines(lines);
    if content != [] {
      FilterFirst(lines, IsContent);
      var i :| 0 <= i < |lines| && IsContent(lines[i]) && content[0] == lines[i]
        && forall j :: 0 <= j < i ==> !IsContent(lines[j]);
      assert FirstContentAt(lines, i);
    } else {
      forall i | 0 <= i < |lines| ensures !IsContent(lines[i]) {
        assert lines[i] in lines;
      }
    }
  }

  /** The distinct raw labels, `other_records['Program'].unique()` as a set. */
  function RawLabels(lines: seq<LedgerLine>): set<string> {
    set i | 0 <= i < |lines| :: lines[i].program
  }

  /** A line whose raw label is not literally the settlement label (no trimming): the mask
      `other_records['Program'] != "Payment (Thank you)"`. */
  predicate IsOtherLabel(l: LedgerLine) {
    l.program != Settlement
  }

  /** Two distinct raw labels cannot both be the settlement label. */
  lemma TwoLabelsLeaveOther(lines: seq<LedgerLine>)
    requires |RawLabels(lines)| >= 2
    ensures Filter(lines, IsOtherLabel) != []
  {
    var labels := RawLabels(lines);
    var x :| x in labels;
    assert |labels - {x}| == |labels| - 1;
    var y :| y in labels - {x};
    var z := if x != Settlement then x else y;
    var i :| 0 <= i < |lines| && lines[i].program == z;
    assert lines[i] in lines;
  }

  /** The provisional program of the first branch on the number of distinct raw labels:
      with exactly two, the right-stripped first label that is not literally the settlement
      label; with more, `Ambiguous`; otherwise `otherwise` (the caller's value). */
  function ProvisionalProgram(lines: seq<LedgerLine>, otherwise: Option<string>): Option<string> {
    var count := |RawLabels(lines)|;
    if count == 2 then
      TwoLabelsLeaveOther(lines);
      Some(RStrip(Filter(lines, IsOtherLabel)[0].program))
    else if count > 2 then Some(Ambiguous)
    else otherwise
  }

  /** What the count-based branch means: the caller's value with fewer than two distinct raw
      labels, the ambiguity marker with more than two, and with exactly two the right-stripped
      label of the first line not labelled exactly with the settlement label. */
  lemma ProvisionalProgramSpec(lines: seq<LedgerLine>, otherwise: Option<string>)
    ensures |RawLabels(lines)| < 2 ==> ProvisionalProgram(lines, otherwise) == otherwise
    ensures |RawLabels(lines)| > 2 ==> ProvisionalProgram(lines, otherwise) == Some(Ambiguous)
    ensures |RawLabels(lines)| == 2 ==>
      exists i ::
        && 0 <= i < |lines| && IsOtherLabel(lines[i])
        && (forall j :: 0 <= j < i ==> !IsOtherLabel(lines[j]))
        && ProvisionalProgram(lines, otherwise) == Some(RStrip(lines[i].program))
  {
    if |RawLabels(lines)| == 2 {
      TwoLabelsLeaveOther(lines);
      FilterFirst(lines, IsOtherLabel);
    }
  }

  /** Two ledgers that agree line by line on everything but the raw `Amount` text. */
  predicate SameButAmounts(a: seq<LedgerLine>, b: seq<LedgerLine>) {
    |a| == |b| && forall i :: 0 <= i < |a| ==> b[i] == a[i].(amount := b[i].amount)
  }

  lemma SameButAmountsConcat(a: seq<LedgerLine>, b: seq<LedgerLine>, c: seq<LedgerLine>, d: seq<LedgerLine>)
    requires SameButAmounts(a, c) && SameButAmounts(b, d)
    ensures SameButAmounts(a + b, c + d)
  {
    forall i | 0 <= i < |a + b| ensures (c + d)[i] == (a + b)[i].(amount := (c + d)[i].amount) {
      if i >= |a| {
        assert (a + b)[i] == b[i - |a|] && (c + d)[i] == d[i - |a|];
      }
    }
  }

  /** A mask that does not read `Amount` keeps the corresponding lines of two ledgers that
      differ only there. */
  lemma {:induction false} FilterSameButAmounts(a: seq<LedgerLine>, b: seq<LedgerLine>, keep: LedgerLine -> bool)
    requires SameButAmounts(a, b)
    requires forall i :: 0 <= i < |a| ==> keep(a[i]) == keep(b[i])
    ensures SameButAmounts(Filter(a, keep), Filter(b, keep))
  {
    if a != [] {
      var ha := if keep(a[0]) then [a[0]] else [];
      var hb := if keep(b[0]) then [b[0]] else [];
      assert SameButAmounts(ha, hb);
      assert forall i :: 0 <= i < |a| - 1 ==> a[1..][i] == a[i + 1] && b[1..][i] == b[i + 1];
      FilterSameButAmounts(a[1..], b[1..], keep);
      SameButAmountsConcat(ha, Filter(a[1..], keep), hb, Filter(b[1..], keep));
    }
  }

  /** The selection for one payment does not look at amounts. */
  lemma MatchingIgnoresAmounts(a: seq<LedgerLine>, b: seq<LedgerLine>, id: Option<string>)
    requires SameButAmounts(a, b)
    ensures SameButAmounts(Matching(a, id), Matching(b, id))
  {
    assert forall i :: 0 <= i < |a| ==> a[i].paymentRef == b[i].paymentRef;
    FilterSameButAmounts(a, b, RefMask(id));
  }

  /** The matched index labels do not depend on the amounts. */
  lemma {:induction false} MatchPositionsIgnoreAmounts(a: seq<LedgerLine>, b: seq<LedgerLine>, id: Option<string>, n: nat)
    requires SameButAmounts(a, b) && n <= |a|
    ensures MatchPositions(a, id, n) == MatchPositions(b, id, n)
  {
    if n > 0 {
      MatchPositionsIgnoreAmounts(a, b, id, n - 1);
      assert a[n - 1].paymentRef == b[n - 1].paymentRef;
    }
  }

  /** The first content line's label and date do not depend on the amounts. */
  lemma FirstContentIgnoresAmounts(a: seq<LedgerLine>, b: seq<LedgerLine>)
    requires SameButAmounts(a, b)
    ensures FirstContent(a) == FirstContent(b)
  {
    assert forall i :: 0 <= i < |a| ==> a[i].program == b[i].program;
    FilterSameButAmounts(a, b, IsContent);
  }

  /** The provisional program does not depend on the amounts. */
  lemma ProvisionalIgnoresAmounts(a: seq<LedgerLine>, b: seq<LedgerLine>, otherwise: Option<string>)
    requires SameButAmounts(a, b)
    ensures ProvisionalProgram(a, otherwise) == ProvisionalProgram(b, otherwise)
  {
    assert forall i :: 0 <= i < |a| ==> a[i].program == b[i].program;
    assert RawLabels(a) == RawLabels(b);
    FilterSameButAmounts(a, b, IsOtherLabel);
  }
}
