/** The ordered mode of `convert_eaf_to_txt`: rows sorted by the key
    (start, end, is_subtier, tier_id), where is_subtier says the tier id
    contains '@'. The sort is not promised to be stable, so the model states
    only that the result is sorted by the key and is a permutation of the
    unordered rows. */
module Ordering {
  import opened Wrappers
  import opened Errors
  import opened EafDocument
  import opened Conversion

  /** ELAN's naming convention for a dependent tier: its id contains '@'. */
  predicate IsSubtier(tierId: string) {
    '@' in tierId
  }

  /** Python's string order: lexicographic by code point, a proper prefix
      first. */
  predicate StrLeq(a: string, b: string) {
    |a| == 0 || (|b| > 0 && (a[0] < b[0] || (a[0] == b[0] && StrLeq(a[1..], b[1..]))))
  }

  lemma {:induction false} StrLeqTotal(a: string, b: string)
    ensures StrLeq(a, b) || StrLeq(b, a)
  {
    if |a| > 0 && |b| > 0 && a[0] == b[0] {
      StrLeqTotal(a[1..], b[1..]);
    }
  }

  lemma {:induction false} StrLeqTransitive(a: string, b: string, c: string)
    requires StrLeq(a, b) && StrLeq(b, c)
    ensures StrLeq(a, c)
  {
    if |a| > 0 && a[0] == b[0] && b[0] == c[0] {
      StrLeqTransitive(a[1..], b[1..], c[1..]);
    }
  }

  lemma {:induction false} StrLeqAntisymmetric(a: string, b: string)
    requires StrLeq(a, b) && StrLeq(b, a)
    ensures a == b
  {
    if |a| > 0 {
      StrLeqAntisymmetric(a[1..], b[1..]);
      assert a == [a[0]] + a[1..] && b == [b[0]] + b[1..];
    }
  }

  /** The sort key of a row. */
  datatype SortKey = SortKey(start: int, end: int, isSubtier: bool, tierId: string)

  function KeyOf(row: OutputRow): SortKey {
    SortKey(row.start, row.end, IsSubtier(row.tierId), row.tierId)
  }

  /** The lexicographic order on keys; `false` sorts before `true`. */
  predicate KeyLeq(x: SortKey, y: SortKey) {
    || x.start < y.start
    || (x.start == y.start && x.end < y.end)
    || (x.start == y.start && x.end == y.end && !x.isSubtier && y.isSubtier)
    || (x.start == y.start && x.end == y.end && x.isSubtier == y.isSubtier && StrLeq(x.tierId, y.tierId))
  }

  lemma KeyLeqTotal(x: SortKey, y: SortKey)
    ensures KeyLeq(x, y) || KeyLeq(y, x)
  {
    StrLeqTotal(x.tierId, y.tierId);
  }

  lemma KeyLeqTransitive(x: SortKey, y: SortKey, z: SortKey)
    requires KeyLeq(x, y) && KeyLeq(y, z)
    ensures KeyLeq(x, z)
  {
    if x.start == y.start == z.start && x.end == y.end == z.end && x.isSubtier == y.isSubtier == z.isSubtier {
      StrLeqTransitive(x.tierId, y.tierId, z.tierId);
    }
  }

  /** Keys that sort both ways are equal. */
  lemma KeyLeqAntisymmetric(x: SortKey, y: SortKey)
    requires KeyLeq(x, y) && KeyLeq(y, x)
    ensures x == y
  {
    StrLeqAntisymmetric(x.tierId, y.tierId);
  }

  predicate RowLeq(a: OutputRow, b: OutputRow) {
    KeyLeq(KeyOf(a), KeyOf(b))
  }

  predicate Sorted(rows: seq<OutputRow>) {
    forall i, j :: 0 <= i < j < |rows| ==> RowLeq(rows[i], rows[j])
  }

  /** `row` put into the sorted `rows` before the first row it sorts at or
      below. */
  function Insert(row: OutputRow, rows: seq<OutputRow>): (r: seq<OutputRow>)
    requires Sorted(rows)
    ensures multiset(r) == multiset(rows) + multiset{row}
    ensures Sorted(r)
  {
    if |rows| == 0 then [row]
    else if RowLeq(row, rows[0]) then
      InsertFront(row, rows);
      [row] + rows
    else
      var rest := Insert(row, rows[1..]);
      assert rows == [rows[0]] + rows[1..];
      KeyLeqTotal(KeyOf(row), KeyOf(rows[0]));
      InsertBehind(row, rows, rest);
      [rows[0]] + rest
  }

  lemma InsertFront(row: OutputRow, rows: seq<OutputRow>)
    requires Sorted(rows) && |rows| > 0 && RowLeq(row, rows[0])
    ensures Sorted([row] + rows)
  {
    forall j | 0 <= j < |rows|
      ensures RowLeq(row, rows[j])
    {
      if j > 0 {
        KeyLeqTransitive(KeyOf(row), KeyOf(rows[0]), KeyOf(rows[j]));
      }
    }
    var r := [row] + rows;
    forall i, j | 0 <= i < j < |r|
      ensures RowLeq(r[i], r[j])
    {
      if i > 0 {
        assert r[i] == rows[i - 1] && r[j] == rows[j - 1];
      } else {
        assert r[j] == rows[j - 1];
      }
    }
  }

  lemma InsertBehind(row: OutputRow, rows: seq<OutputRow>, rest: seq<OutputRow>)
    requires Sorted(rows) && |rows| > 0 && RowLeq(rows[0], row)
    requires Sorted(rest) && multiset(rest) == multiset(rows[1..]) + multiset{row}
    ensures Sorted([rows[0]] + rest)
  {
    forall j | 0 <= j < |rest|
      ensures RowLeq(rows[0], rest[j])
    {
      assert rest[j] in multiset(rest);
      if rest[j] != row {
        assert rest[j] in multiset(rows[1..]);
        var k :| 0 <= k < |rows[1..]| && rows[1..][k] == rest[j];
        assert rows[k + 1] == rest[j];
      }
    }
    var r := [rows[0]] + rest;
    forall i, j | 0 <= i < j < |r|
      ensures RowLeq(r[i], r[j])
    {
      if i > 0 {
        assert r[i] == rest[i - 1] && r[j] == rest[j - 1];
      } else {
        assert r[j] == rest[j - 1];
      }
    }
  }

  /** The rows sorted by their keys (insertion sort). */
  function SortRows(rows: seq<OutputRow>): (r: seq<OutputRow>)
    ensures multiset(r) == multiset(rows)
    ensures Sorted(r)
  {
    if |rows| == 0 then []
    else
      assert rows == [rows[0]] + rows[1..];
      Insert(rows[0], SortRows(rows[1..]))
  }

  /** The rows `convert_eaf_to_txt` writes: the conversion's rows, sorted
      when `order` is set. */
  function ConvertToTxt(doc: Document, order: bool): (r: Result<seq<OutputRow>, Error>)
    ensures r.Success? <==> Convert(doc).Success?
    ensures r.Failure? ==> r.error == Convert(doc).error
    ensures r.Success? && order ==> multiset(r.value) == multiset(Convert(doc).value) && Sorted(r.value)
    ensures r.Success? && !order ==> r.value == Convert(doc).value
  {
    var rows :- Convert(doc);
    if order then Success(SortRows(rows)) else Success(rows)
  }

  /** Two sorted arrangements of the same rows list the same keys in the same
      order: the ordered output is determined up to the order of rows whose
      keys are identical. */
  lemma {:induction false} SortedPermutationsAgreeOnKeys(a: seq<OutputRow>, b: seq<OutputRow>)
    requires Sorted(a) && Sorted(b)
    requires multiset(a) == multiset(b)
    ensures |a| == |b|
    ensures forall i :: 0 <= i < |a| ==> KeyOf(a[i]) == KeyOf(b[i])
  {
    assert |a| == |multiset(a)| == |multiset(b)| == |b|;
    if |a| > 0 {
      var q := LeastKeysAgree(a, b);
      // drop the head of a, and the same row from b
      var b' := b[..q] + b[q + 1..];
      DropHead(a);
      DropOne(b, q);
      SortedWithout(b, q);
      SortedTail(a);
      SortedPermutationsAgreeOnKeys(a[1..], b');
      RestoreDropped(a, b, q);
    }
  }

  /** The step of the induction: keys agree after dropping the head of `a`
      and its copy at `q` in `b`, so they agree before. */
  lemma RestoreDropped(a: seq<OutputRow>, b: seq<OutputRow>, q: nat)
    requires Sorted(b) && |a| == |b| && q < |b|
    requires b[q] == a[0] && KeyOf(a[0]) == KeyOf(b[0])
    requires forall i :: 0 <= i < |a| - 1 ==> KeyOf(a[1..][i]) == KeyOf((b[..q] + b[q + 1..])[i])
    ensures forall i :: 0 <= i < |a| ==> KeyOf(a[i]) == KeyOf(b[i])
  {
    var b' := b[..q] + b[q + 1..];
    forall i | 0 <= i < |a|
      ensures KeyOf(a[i]) == KeyOf(b[i])
    {
      if i > 0 {
        assert a[i] == a[1..][i - 1];
        if i <= q {
          // b[0 .. q] all carry the key of a[0], and a[i] has b[i - 1]'s
          assert b'[i - 1] == b[i - 1];
          SortedRunShareKey(b, 0, i - 1, q);
          SortedRunShareKey(b, 0, i, q);
        } else {
          assert b'[i - 1] == b[i];
        }
      }
    }
  }

  /** The heads of two sorted arrangements of the same rows share a key, and
      the head of `a` sits at some position `q` of `b`. */
  lemma LeastKeysAgree(a: seq<OutputRow>, b: seq<OutputRow>) returns (q: nat)
    requires Sorted(a) && Sorted(b) && |a| > 0
    requires multiset(a) == multiset(b)
    ensures q < |b| && b[q] == a[0] && KeyOf(a[0]) == KeyOf(b[0])
  {
    assert b[0] in multiset(a) by { assert b[0] in multiset(b); }
    var p :| 0 <= p < |a| && a[p] == b[0];
    assert a[0] in multiset(b) by { assert a[0] in multiset(a); }
    q :| 0 <= q < |b| && b[q] == a[0];
    if a[0] != b[0] {
      assert RowLeq(a[0], a[p]) && RowLeq(b[0], b[q]);
      KeyLeqAntisymmetric(KeyOf(a[0]), KeyOf(b[0]));
    }
  }

  lemma DropHead(a: seq<OutputRow>)
    requires |a| > 0
    ensures multiset(a[1..]) == multiset(a) - multiset{a[0]}
  {
    assert a == [a[0]] + a[1..];
  }

  lemma SortedTail(a: seq<OutputRow>)
    requires Sorted(a) && |a| > 0
    ensures Sorted(a[1..])
  {
    forall i, j | 0 <= i < j < |a| - 1
      ensures RowLeq(a[1..][i], a[1..][j])
    {
      assert a[1..][i] == a[i + 1] && a[1..][j] == a[j + 1];
    }
  }

  lemma DropOne(b: seq<OutputRow>, q: nat)
    requires q < |b|
    ensures multiset(b[..q] + b[q + 1..]) == multiset(b) - multiset{b[q]}
  {
    assert b == b[..q] + [b[q]] + b[q + 1..];
  }

  lemma SortedWithout(b: seq<OutputRow>, q: nat)
    requires Sorted(b) && q < |b|
    ensures Sorted(b[..q] + b[q + 1..])
  {
    var b' := b[..q] + b[q + 1..];
    forall i, j | 0 <= i < j < |b'|
      ensures RowLeq(b'[i], b'[j])
    {
      var i' := if i < q then i else i + 1;
      var j' := if j < q then j else j + 1;
      assert b'[i] == b[i'] && b'[j] == b[j'];
    }
  }

  /** In a sorted sequence, every row between two rows of the same key has
      that key too. */
  lemma SortedRunShareKey(b: seq<OutputRow>, lo: nat, m: nat, hi: nat)
    requires Sorted(b) && lo <= m <= hi < |b|
    requires KeyOf(b[lo]) == KeyOf(b[hi])
    ensures KeyOf(b[m]) == KeyOf(b[lo])
  {
    if lo < m < hi {
      assert RowLeq(b[lo], b[m]) && RowLeq(b[m], b[hi]);
      KeyLeqAntisymmetric(KeyOf(b[m]), KeyOf(b[hi]));
    }
  }

  /** In rows sorted by the key, as the ordered output is, of two rows over
      the same time window the row of a main tier comes before the row of a
      subtier. */
  lemma MainTierBeforeSubtier(out: seq<OutputRow>, i: nat, j: nat)
    requires Sorted(out)
    requires i < |out| && j < |out|
    requires out[i].start == out[j].start && out[i].end == out[j].end
    requires !IsSubtier(out[i].tierId) && IsSubtier(out[j].tierId)
    ensures i < j
  {
  }
}
