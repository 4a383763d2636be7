/** The code book: the reference table of programs, grouped once by `Code` and once by
    `Category` into ordered label tables. */
module CodeBook {
  import opened Wrappers
  import opened Text
  import opened Lookup

  /** One row of the "Category Codes" sheet; a missing (NaN) `Code` or `Category` is `None`. */
  datatype CodeEntry = CodeEntry(program: string, code: Option<string>, category: Option<string>)

  /** The column a table is grouped by. */
  datatype Column = CodeColumn | CategoryColumn

  function KeyOf(e: CodeEntry, col: Column): Option<string> {
    match col
    case CodeColumn => e.code
    case CategoryColumn => e.category
  }

  /** Some row of the table is filed under key `k`. */
  predicate KeyOccurs(entries: seq<CodeEntry>, col: Column, k: string) {
    exists e :: e in entries && KeyOf(e, col) == Some(k)
  }

  /** `keys` is an order of the groups `groupby` produces: every non-missing key that occurs,
      each once. Which order pandas picks is not modelled; the order is given. */
  predicate KeyOrder(entries: seq<CodeEntry>, col: Column, keys: seq<string>) {
    (forall i, j :: 0 <= i < j < |keys| ==> keys[i] != keys[j])
    && (forall i :: 0 <= i < |keys| ==> KeyOccurs(entries, col, keys[i]))
    && (forall e :: e in entries && KeyOf(e, col).Some? ==> KeyOf(e, col).value in keys)
  }

  /** The labels `groupby(col)['Program'].apply(list)` collects under key `k`, in row order. */
  function GroupOf(entries: seq<CodeEntry>, col: Column, k: string): (g: seq<string>)
    ensures |g| <= |entries|
    ensures forall p :: p in g <==> exists e :: e in entries && KeyOf(e, col) == Some(k) && e.program == p
  {
    if entries == [] then []
    else
      var rest := GroupOf(entries[1..], col, k);
      assert forall e :: e in entries <==> e == entries[0] || e in entries[1..];
      (if KeyOf(entries[0], col) == Some(k) then [entries[0].program] else []) + rest
  }

  /** `groupby(col)['Program'].apply(list).to_dict()`, the dictionary in the key order given. */
  function GroupBy(entries: seq<CodeEntry>, col: Column, keys: seq<string>): (t: Table)
    ensures |t| == |keys|
    ensures forall i :: 0 <= i < |keys| ==> t[i].0 == keys[i]
  {
    seq(|keys|, i requires 0 <= i < |keys| => (keys[i], GroupOf(entries, col, keys[i])))
  }

  /** `codes_df['Program'].str.rstrip()`: every label right-stripped, keys untouched. */
  function RStripPrograms(entries: seq<CodeEntry>): (r: seq<CodeEntry>)
    ensures |r| == |entries|
  {
    seq(|entries|, i requires 0 <= i < |entries| => entries[i].(program := RStrip(entries[i].program)))
  }

  /** `[x.replace("\xa0", " ") for x in v]`. */
  function ScrubLabels(v: seq<string>): (r: seq<string>)
    ensures |r| == |v|
  {
    seq(|v|, j requires 0 <= j < |v| => ReplaceChar(v[j], Nbsp, ' '))
  }

  /** `{k: [x.replace("\xa0", " ") for x in v] for k, v in table.items()}`. */
  function ScrubbedTable(t: Table): (r: Table)
    ensures |r| == |t|
    ensures forall i :: 0 <= i < |t| ==> r[i].0 == t[i].0
  {
    seq(|t|, i requires 0 <= i < |t| => (t[i].0, ScrubLabels(t[i].1)))
  }

  /** The loop form: `for key in table.keys(): table[key] = [x.replace("\xa0", " ") ...]`,
      each key's list reassigned in place, one key per iteration. */
  method ScrubCodeTable(t: Table) returns (r: Table)
    ensures r == ScrubbedTable(t)
  {
    r := t;
    var i := 0;
    while i < |r|
      invariant 0 <= i <= |r| == |t|
      invariant forall j :: 0 <= j < i ==> r[j] == (t[j].0, ScrubLabels(t[j].1))
      invariant forall j :: i <= j < |r| ==> r[j] == t[j]
    {
      r := r[i := (r[i].0, ScrubLabels(r[i].1))];
      i := i + 1;
    }
  }

  /** The code table of the later versions: labels right-stripped, grouped by `Code`,
      then freed of non-breaking spaces. */
  function CodeTable(entries: seq<CodeEntry>, codeKeys: seq<string>): Table {
    ScrubbedTable(GroupBy(RStripPrograms(entries), CodeColumn, codeKeys))
  }

  /** The category table of the later versions: labels right-stripped, grouped by `Category`;
      non-breaking spaces stay. */
  function CategoryTable(entries: seq<CodeEntry>, categoryKeys: seq<string>): Table {
    GroupBy(RStripPrograms(entries), CategoryColumn, categoryKeys)
  }

  /** The only table of the first version: raw labels grouped by `Code`, non-breaking spaces
      replaced, no right-strip. */
  function RawCodeTable(entries: seq<CodeEntry>, codeKeys: seq<string>): Table {
    ScrubbedTable(GroupBy(entries, CodeColumn, codeKeys))
  }

  /** The table build of the later script versions: right-strip the labels, group them by
      `Code` and by `Category`, then scrub the code table key by key. */
  method BuildTables(entries: seq<CodeEntry>, codeKeys: seq<string>, categoryKeys: seq<string>)
    returns (codeTable: Table, categoryTable: Table)
    ensures codeTable == CodeTable(entries, codeKeys)
    ensures categoryTable == CategoryTable(entries, categoryKeys)
  {
    var stripped := RStripPrograms(entries);
    var codes := GroupBy(stripped, CodeColumn, codeKeys);
    categoryTable := GroupBy(stripped, CategoryColumn, categoryKeys);
    codeTable := ScrubCodeTable(codes);
  }

  /** Two tables whose rows carry the same keys, position by position, have the same
      group keys. */
  lemma SameKeysSameOrder(a: seq<CodeEntry>, b: seq<CodeEntry>, col: Column, keys: seq<string>)
    requires |a| == |b|
    requires forall n :: 0 <= n < |a| ==> KeyOf(a[n], col) == KeyOf(b[n], col)
    requires KeyOrder(a, col, keys)
    ensures KeyOrder(b, col, keys)
  {
    forall i | 0 <= i < |keys|
      ensures KeyOccurs(b, col, keys[i])
    {
      assert KeyOccurs(a, col, keys[i]);
      var e :| e in a && KeyOf(e, col) == Some(keys[i]);
      var n :| 0 <= n < |a| && a[n] == e;
      assert b[n] in b;
    }
    forall e | e in b && KeyOf(e, col).Some?
      ensures KeyOf(e, col).value in keys
    {
      var n :| 0 <= n < |b| && b[n] == e;
      assert a[n] in a;
    }
  }

  /** Right-stripping labels leaves every key where it was. */
  lemma RStripKeepsKeyOrder(entries: seq<CodeEntry>, col: Column, keys: seq<string>)
    requires KeyOrder(entries, col, keys)
    ensures KeyOrder(RStripPrograms(entries), col, keys)
  {
    var r := RStripPrograms(entries);
    assert forall n :: 0 <= n < |entries| ==> KeyOf(entries[n], col) == KeyOf(r[n], col);
    SameKeysSameOrder(entries, r, col, keys);
  }

  /** A label is listed in the grouped table exactly when some row with a non-missing key
      carries it: no row is lost, and rows with a missing key are dropped. */
  lemma GroupByListed(entries: seq<CodeEntry>, col: Column, keys: seq<string>, p: string)
    requires KeyOrder(entries, col, keys)
    ensures Listed(p, GroupBy(entries, col, keys)) <==>
      exists e :: e in entries && KeyOf(e, col).Some? && e.program == p
  {
    var t := GroupBy(entries, col, keys);
    if e :| e in entries && KeyOf(e, col).Some? && e.program == p {
      var i :| 0 <= i < |keys| && keys[i] == KeyOf(e, col).value;
      assert t[i].1 == GroupOf(entries, col, keys[i]);
      assert p in t[i].1;
    }
    if Listed(p, t) {
      var i :| 0 <= i < |t| && p in t[i].1;
      assert t[i].1 == GroupOf(entries, col, keys[i]);
    }
  }

  /** A lookup in a grouped table answers a key under which the reference table files the
      label, or `None` exactly when no row with a non-missing key carries it. */
  lemma GroupByLookup(entries: seq<CodeEntry>, col: Column, keys: seq<string>, p: string)
    requires KeyOrder(entries, col, keys)
    ensures var r := FirstMatch(Some(p), GroupBy(entries, col, keys));
      && (r.None? <==> !exists e :: e in entries && KeyOf(e, col).Some? && e.program == p)
      && (r.Some? ==> exists e :: e in entries && KeyOf(e, col) == r && e.program == p)
  {
    var t := GroupBy(entries, col, keys);
    GroupByListed(entries, col, keys, p);
    var r := FirstMatch(Some(p), t);
    if r.Some? {
      var i :| FirstListingAt(p, t, i, r.value);
      assert t[i].1 == GroupOf(entries, col, keys[i]);
    }
  }

  /** Every label of the code table is the right-stripped, scrubbed label of a code-book row
      filed under that code, so it is right-stripped and holds no non-breaking space. */
  lemma CodeTableLabelsClean(entries: seq<CodeEntry>, codeKeys: seq<string>, i: int, x: string)
    requires 0 <= i < |CodeTable(entries, codeKeys)|
    requires x in CodeTable(entries, codeKeys)[i].1
    ensures Nbsp !in x && RStripped(x) && RStrip(x) == x
    ensures exists n :: 0 <= n < |entries| && entries[n].code == Some(codeKeys[i]) && x == ReplaceChar(RStrip(entries[n].program), Nbsp, ' ')
  {
    var stripped := RStripPrograms(entries);
    var g := GroupBy(stripped, CodeColumn, codeKeys);
    var scrubbed := ScrubLabels(g[i].1);
    var j :| 0 <= j < |scrubbed| && scrubbed[j] == x;
    var y := g[i].1[j];
    assert y in GroupOf(stripped, CodeColumn, codeKeys[i]);
    var e :| e in stripped && KeyOf(e, CodeColumn) == Some(codeKeys[i]) && e.program == y;
    var n :| 0 <= n < |stripped| && stripped[n] == e;
    assert y == RStrip(entries[n].program);
    ReplaceKeepsRStripped(y, Nbsp, ' ');
  }

  /** Every label of the first version's code table is the raw label of a code-book row
      filed under that code with its non-breaking spaces replaced; nothing is right-stripped. */
  lemma RawCodeTableLabels(entries: seq<CodeEntry>, codeKeys: seq<string>, i: int, x: string)
    requires 0 <= i < |RawCodeTable(entries, codeKeys)|
    requires x in RawCodeTable(entries, codeKeys)[i].1
    ensures Nbsp !in x
    ensures exists n :: 0 <= n < |entries| && entries[n].code == Some(codeKeys[i]) && x == ReplaceChar(entries[n].program, Nbsp, ' ')
  {
    var g := GroupBy(entries, CodeColumn, codeKeys);
    var scrubbed := ScrubLabels(g[i].1);
    var j :| 0 <= j < |scrubbed| && scrubbed[j] == x;
    var y := g[i].1[j];
    assert y in GroupOf(entries, CodeColumn, codeKeys[i]);
    var e :| e in entries && KeyOf(e, CodeColumn) == Some(codeKeys[i]) && e.program == y;
    var n :| 0 <= n < |entries| && entries[n] == e;
    assert x == ReplaceChar(entries[n].program, Nbsp, ' ');
  }

  /** Scrubbing a list keeps every label, in scrubbed form. */
  lemma ScrubLabelsHas(v: seq<string>, y: string)
    requires y in v
    ensures ReplaceChar(y, Nbsp, ' ') in ScrubLabels(v)
  {
    var j :| 0 <= j < |v| && v[j] == y;
    assert ScrubLabels(v)[j] == ReplaceChar(y, Nbsp, ' ');
  }

  /** The scrubbed group of key `keys[i]` holds exactly the scrubbed labels of the rows filed
      under that key: none is lost and none is invented. */
  lemma ScrubbedGroupOf(entries: seq<CodeEntry>, col: Column, keys: seq<string>, i: int, x: string)
    requires 0 <= i < |keys|
    ensures x in ScrubbedTable(GroupBy(entries, col, keys))[i].1 <==>
      exists n :: 0 <= n < |entries| && KeyOf(entries[n], col) == Some(keys[i]) && ReplaceChar(entries[n].program, Nbsp, ' ') == x
  {
    var g := GroupBy(entries, col, keys)[i].1;
    assert g == GroupOf(entries, col, keys[i]);
    assert ScrubbedTable(GroupBy(entries, col, keys))[i].1 == ScrubLabels(g);
    if x in ScrubLabels(g) {
      var j :| 0 <= j < |g| && ScrubLabels(g)[j] == x;
      assert g[j] in g;
      var e :| e in entries && KeyOf(e, col) == Some(keys[i]) && e.program == g[j];
      var n :| 0 <= n < |entries| && entries[n] == e;
      assert ReplaceChar(entries[n].program, Nbsp, ' ') == x;
    }
    if n :| 0 <= n < |entries| && KeyOf(entries[n], col) == Some(keys[i]) && ReplaceChar(entries[n].program, Nbsp, ' ') == x {
      assert entries[n] in entries;
      ScrubLabelsHas(g, entries[n].program);
    }
  }

  /** Under code `codeKeys[i]` the code table lists exactly the right-stripped, scrubbed labels
      of the code-book rows filed under that code. */
  lemma CodeTableGroup(entries: seq<CodeEntry>, codeKeys: seq<string>, i: int, x: string)
    requires 0 <= i < |codeKeys|
    ensures x in CodeTable(entries, codeKeys)[i].1 <==>
      exists n :: 0 <= n < |entries| && entries[n].code == Some(codeKeys[i]) && ReplaceChar(RStrip(entries[n].program), Nbsp, ' ') == x
  {
    var stripped := RStripPrograms(entries);
    ScrubbedGroupOf(stripped, CodeColumn, codeKeys, i, x);
    assert forall n :: 0 <= n < |entries| ==> stripped[n].code == entries[n].code && stripped[n].program == RStrip(entries[n].program);
  }

  /** Under code `codeKeys[i]` the first version's table lists exactly the scrubbed raw labels
      of the code-book rows filed under that code. */
  lemma RawCodeTableGroup(entries: seq<CodeEntry>, codeKeys: seq<string>, i: int, x: string)
    requires 0 <= i < |codeKeys|
    ensures x in RawCodeTable(entries, codeKeys)[i].1 <==>
      exists n :: 0 <= n < |entries| && entries[n].code == Some(codeKeys[i]) && ReplaceChar(entries[n].program, Nbsp, ' ') == x
  {
    ScrubbedGroupOf(entries, CodeColumn, codeKeys, i, x);
  }

  /** A program is listed somewhere in the code table exactly when it is the right-stripped,
      scrubbed label of some code-book row with a code. */
  lemma CodeTableListed(entries: seq<CodeEntry>, codeKeys: seq<string>, p: string)
    requires KeyOrder(entries, CodeColumn, codeKeys)
    ensures Listed(p, CodeTable(entries, codeKeys)) <==>
      exists n :: 0 <= n < |entries| && entries[n].code.Some? && ReplaceChar(RStrip(entries[n].program), Nbsp, ' ') == p
  {
    var t := CodeTable(entries, codeKeys);
    if Listed(p, t) {
      var i :| 0 <= i < |t| && p in t[i].1;
      CodeTableGroup(entries, codeKeys, i, p);
    }
    if n :| 0 <= n < |entries| && entries[n].code.Some? && ReplaceChar(RStrip(entries[n].program), Nbsp, ' ') == p {
      assert entries[n] in entries && KeyOf(entries[n], CodeColumn).Some?;
      var i :| 0 <= i < |codeKeys| && codeKeys[i] == entries[n].code.value;
      CodeTableGroup(entries, codeKeys, i, p);
    }
  }

  /** A program is listed somewhere in the first version's table exactly when it is the
      scrubbed raw label of some code-book row with a code. */
  lemma RawCodeTableListed(entries: seq<CodeEntry>, codeKeys: seq<string>, p: string)
    requires KeyOrder(entries, CodeColumn, codeKeys)
    ensures Listed(p, RawCodeTable(entries, codeKeys)) <==>
      exists n :: 0 <= n < |entries| && entries[n].code.Some? && ReplaceChar(entries[n].program, Nbsp, ' ') == p
  {
    var t := RawCodeTable(entries, codeKeys);
    if Listed(p, t) {
      var i :| 0 <= i < |t| && p in t[i].1;
      RawCodeTableGroup(entries, codeKeys, i, p);
    }
    if n :| 0 <= n < |entries| && entries[n].code.Some? && ReplaceChar(entries[n].program, Nbsp, ' ') == p {
      assert entries[n] in entries && KeyOf(entries[n], CodeColumn).Some?;
      var i :| 0 <= i < |codeKeys| && codeKeys[i] == entries[n].code.value;
      RawCodeTableGroup(entries, codeKeys, i, p);
    }
  }

  /** The code lookup of the later versions misses a program exactly when no code-book row
      with a code has it as its cleaned label; a hit is a code under which such a row is filed. */
  lemma CodeTableLookup(entries: seq<CodeEntry>, codeKeys: seq<string>, p: string)
    requires KeyOrder(entries, CodeColumn, codeKeys)
    ensures var r := FirstMatch(Some(p), CodeTable(entries, codeKeys));
      && (r.None? <==> !exists n :: 0 <= n < |entries| && entries[n].code.Some? && ReplaceChar(RStrip(entries[n].program), Nbsp, ' ') == p)
      && (r.Some? ==> exists n :: 0 <= n < |entries| && entries[n].code == r && ReplaceChar(RStrip(entries[n].program), Nbsp, ' ') == p)
  {
    var t := CodeTable(entries, codeKeys);
    CodeTableListed(entries, codeKeys, p);
    var r := FirstMatch(Some(p), t);
    if r.Some? {
      var i :| FirstListingAt(p, t, i, r.value);
      CodeTableGroup(entries, codeKeys, i, p);
    }
  }

  /** The code lookup of the first version misses a program exactly when no code-book row
      with a code has it as its scrubbed raw label; a hit is a code under which such a row is
      filed. */
  lemma RawCodeTableLookup(entries: seq<CodeEntry>, codeKeys: seq<string>, p: string)
    requires KeyOrder(entries, CodeColumn, codeKeys)
    ensures var r := FirstMatch(Some(p), RawCodeTable(entries, codeKeys));
      && (r.None? <==> !exists n :: 0 <= n < |entries| && entries[n].code.Some? && ReplaceChar(entries[n].program, Nbsp, ' ') == p)
      && (r.Some? ==> exists n :: 0 <= n < |entries| && entries[n].code == r && ReplaceChar(entries[n].program, Nbsp, ' ') == p)
  {
    var t := RawCodeTable(entries, codeKeys);
    RawCodeTableListed(entries, codeKeys, p);
    var r := FirstMatch(Some(p), t);
    if r.Some? {
      var i :| FirstListingAt(p, t, i, r.value);
      RawCodeTableGroup(entries, codeKeys, i, p);
    }
  }

  /** Every label of the category table is the right-stripped label of a code-book row filed
      under that category, and nothing more: non-breaking spaces inside it stay. */
  lemma CategoryTableLabelsStripped(entries: seq<CodeEntry>, categoryKeys: seq<string>, i: int, x: string)
    requires 0 <= i < |CategoryTable(entries, categoryKeys)|
    requires x in CategoryTable(entries, categoryKeys)[i].1
    ensures RStripped(x) && RStrip(x) == x
    ensures exists n :: 0 <= n < |entries| && entries[n].category == Some(categoryKeys[i]) && x == RStrip(entries[n].program)
  {
    var stripped := RStripPrograms(entries);
    assert x in GroupOf(stripped, CategoryColumn, categoryKeys[i]);
    var e :| e in stripped && KeyOf(e, CategoryColumn) == Some(categoryKeys[i]) && e.program == x;
    var n :| 0 <= n < |stripped| && stripped[n] == e;
    assert x == RStrip(entries[n].program);
    RStripIdentity(x);
  }

  /** Because only the code table is scrubbed, one label can find its category but not its
      code: a reference row "Yoga<nbsp>Class" is listed as "Yoga Class" under its code and
      unchanged under its category. */
  lemma ScrubbingSplitsLookups()
    ensures var entries := [CodeEntry("Yoga" + [Nbsp] + "Class", Some("A1"), Some("Fitness"))];
      var name := Some("Yoga" + [Nbsp] + "Class");
      && FirstMatch(name, CategoryTable(entries, ["Fitness"])) == Some("Fitness")
      && FirstMatch(name, CodeTable(entries, ["A1"])) == None
      && FirstMatch(Some("Yoga Class"), CodeTable(entries, ["A1"])) == Some("A1")
  {
    var raw := "Yoga" + [Nbsp] + "Class";
    var entries := [CodeEntry(raw, Some("A1"), Some("Fitness"))];
    assert RStrip(raw) == raw;
    var stripped := RStripPrograms(entries);
    assert stripped == entries;
    assert GroupOf(entries, CategoryColumn, "Fitness") == [raw];
    assert GroupOf(entries, CodeColumn, "A1") == [raw];
    var scrubbed := ReplaceChar(raw, Nbsp, ' ');
    assert scrubbed == "Yoga Class";
    assert GroupBy(stripped, CodeColumn, ["A1"]) == [("A1", [raw])];
    assert ScrubLabels([raw]) == ["Yoga Class"];
    assert CodeTable(entries, ["A1"]) == [("A1", ["Yoga Class"])];
    assert raw != "Yoga Class" by { assert raw[4] != "Yoga Class"[4]; }
  }
}
