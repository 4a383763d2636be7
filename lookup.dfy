/** First-match lookup in an ordered label table (`get_category_or_code`, `get_category_code`). */
module Lookup {
  import opened Wrappers

  /** A grouped table in the dictionary's iteration order: each key with its list of labels. */
  type Table = seq<(string, seq<string>)>

  /** Whether some key of `t` lists `p`. */
  predicate Listed(p: string, t: Table) {
    exists i :: 0 <= i < |t| && p in t[i].1
  }

  /** `r` is a key at position `i` of `t`, `i` lists `p`, and no earlier key does. */
  predicate FirstListingAt(p: string, t: Table, i: int, r: string) {
    0 <= i < |t| && t[i].0 == r && p in t[i].1
    && forall j :: 0 <= j < i ==> p !in t[j].1
  }

  /** The first key, in table order, whose labels contain the program; `None` when the program
      is `None` (it is in no list of strings) or when no list contains it. This is the
      generator form `next((k for k, v in d.items() if p in v), None)`. */
  function FirstMatch(p: Option<string>, t: Table): (r: Option<string>)
    ensures r.None? <==> p.None? || !Listed(p.value, t)
    ensures r.Some? ==> exists i :: FirstListingAt(p.value, t, i, r.value)
  {
    if p.None? || t == [] then None
    else if p.value in t[0].1 then
      assert FirstListingAt(p.value, t, 0, t[0].0);
      Some(t[0].0)
    else
      var rest := FirstMatch(p, t[1..]);
      assert forall i :: 1 <= i < |t| ==> t[i] == t[1..][i - 1];
      assert rest.Some? ==>
        exists i :: FirstListingAt(p.value, t[1..], i, rest.value) && FirstListingAt(p.value, t, i + 1, rest.value);
      rest
  }

  /** The loop form of the lookup: scan the keys in order and return at the first key whose
      list contains the program; `None` only once every key has been scanned. */
  method FindKey(p: Option<string>, t: Table) returns (r: Option<string>)
    ensures r.None? <==> p.None? || !Listed(p.value, t)
    ensures r.Some? ==> exists i :: FirstListingAt(p.value, t, i, r.value)
    ensures r == FirstMatch(p, t)
  {
    var i := 0;
    while i < |t|
      invariant 0 <= i <= |t|
      invariant p.Some? ==> forall j :: 0 <= j < i ==> p.value !in t[j].1
    {
      if p.Some? && p.value in t[i].1 {
        assert FirstListingAt(p.value, t, i, t[i].0);
        var j :| FirstListingAt(p.value, t, j, FirstMatch(p, t).value);
        FirstListingUnique(p.value, t, i, j, t[i].0, FirstMatch(p, t).value);
        return Some(t[i].0);
      }
      i := i + 1;
    }
    return None;
  }

  /** The first listing key is unique, so the two forms always agree. */
  lemma {:induction false} FirstListingUnique(p: string, t: Table, i: int, j: int, a: string, b: string)
    requires FirstListingAt(p, t, i, a) && FirstListingAt(p, t, j, b)
    ensures i == j && a == b
  {
  }

  /** Lookup on a table extended at the end: the old keys win, the new key answers only a miss. */
  lemma {:induction false} FirstMatchAppend(p: Option<string>, t: Table, k: string, labels: seq<string>)
    ensures FirstMatch(p, t + [(k, labels)]) ==
      if FirstMatch(p, t).Some? then FirstMatch(p, t)
      else if p.Some? && p.value in labels then Some(k)
      else None
  {
    var t' := t + [(k, labels)];
    assert forall i :: 0 <= i < |t| ==> t'[i] == t[i];
    assert t'[|t|] == (k, labels);
    var r := FirstMatch(p, t');
    var q := FirstMatch(p, t);
    if q.Some? {
      var i :| FirstListingAt(p.value, t, i, q.value);
      assert FirstListingAt(p.value, t', i, q.value);
      var j :| FirstListingAt(p.value, t', j, r.value);
      FirstListingUnique(p.value, t', i, j, q.value, r.value);
    } else if p.Some? && p.value in labels {
      assert FirstListingAt(p.value, t', |t|, k);
      var j :| FirstListingAt(p.value, t', j, r.value);
      FirstListingUnique(p.value, t', |t|, j, k, r.value);
    }
  }
}
