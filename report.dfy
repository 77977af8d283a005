/**
 * From the per-tag dictionary to the report: `Object.entries`, the in-place
 * sort by tag, and the grand total that `reduce` adds up.
 */
module Report {
  import opened Wrappers
  import opened JsText
  import opened Outline
  import opened Aggregation

  /** Minutes as hours, exactly. */
  function Hours(minutes: int): real
  {
    minutes as real / 60.0
  }

  /** One `[tag, hours]` pair of `Object.entries`. */
  datatype Row = Row(tag: string, hours: real)

  /** The rows in display order and the grand total. */
  datatype Table = Table(rows: seq<Row>, total: real)

  /** Strictly ascending by tag, in JavaScript's string order. */
  ghost predicate Ascending(rows: seq<Row>)
  {
    forall i, j :: 0 <= i < j < |rows| ==> StrLess(rows[i].tag, rows[j].tag)
  }

  ghost predicate DistinctTags(rows: seq<Row>)
  {
    forall i, j :: 0 <= i < j < |rows| ==> rows[i].tag != rows[j].tag
  }

  /** The rows are the dictionary's entries: one row per key, holding that key's minutes as hours. */
  ghost predicate RowsOf(rows: seq<Row>, acc: map<string, int>)
  {
    && DistinctTags(rows)
    && (forall i :: 0 <= i < |rows| ==> rows[i].tag in acc && rows[i].hours == Hours(acc[rows[i].tag]))
    && (forall t :: t in acc ==> exists i :: 0 <= i < |rows| && rows[i].tag == t)
  }

  /** `Object.entries(acc)`: the dictionary's pairs, one per key, in an order the model leaves open. */
  method EntriesOf(acc: map<string, int>) returns (rows: seq<Row>)
    ensures RowsOf(rows, acc) && |rows| == |acc|
  {
    rows := [];
    var rest := acc.Keys;
    while rest != {}
      invariant rest <= acc.Keys
      invariant DistinctTags(rows)
      invariant forall i :: 0 <= i < |rows| ==>
        rows[i].tag in acc.Keys - rest && rows[i].hours == Hours(acc[rows[i].tag])
      invariant forall t :: t in acc.Keys - rest ==> exists i :: 0 <= i < |rows| && rows[i].tag == t
      invariant |rows| + |rest| == |acc.Keys|
      decreases |rest|
    {
      var t :| t in rest;
      var old_rows := rows;
      ghost var old_rest := rest;
      rows := rows + [Row(t, Hours(acc[t]))];
      rest := rest - {t};
      forall u | u in acc.Keys - rest
        ensures exists i :: 0 <= i < |rows| && rows[i].tag == u
      {
        if u == t {
          assert rows[|rows| - 1].tag == u;
        } else {
          assert u in acc.Keys - old_rest;
          var i :| 0 <= i < |old_rows| && old_rows[i].tag == u;
          assert rows[i].tag == u;
        }
      }
    }
    assert acc.Keys - rest == acc.Keys;
  }

  /** The first `n` cells of `a` are strictly ascending by tag. */
  ghost predicate SortedPrefix(a: array<Row>, n: int)
    reads a
  {
    forall p, q :: 0 <= p < q < n && q < a.Length ==> StrLess(a[p].tag, a[q].tag)
  }

  /** Exchanges two neighbouring cells; the rows and their distinct tags stay as they were. */
  method SwapDown(a: array<Row>, j: int)
    requires 0 < j < a.Length && DistinctTags(a[..])
    modifies a
    ensures a[j - 1] == old(a[j]) && a[j] == old(a[j - 1])
    ensures forall k :: 0 <= k < a.Length && k != j - 1 && k != j ==> a[k] == old(a[k])
    ensures multiset(a[..]) == old(multiset(a[..]))
    ensures DistinctTags(a[..])
  {
    ghost var before := a[..];
    a[j - 1], a[j] := a[j], a[j - 1];
    ghost var after := a[..];
    forall p, q | 0 <= p < q < |after|
      ensures after[p].tag != after[q].tag
    {
      var p' := if p == j - 1 then j else if p == j then j - 1 else p;
      var q' := if q == j - 1 then j else if q == j then j - 1 else q;
      assert after[p] == before[p'] && after[q] == before[q'];
      assert p' != q';
    }
  }

  /** One pass of insertion: moves cell `i` down into the sorted prefix `a[..i]`. */
  method InsertDown(a: array<Row>, i: int)
    requires 0 < i < a.Length && SortedPrefix(a, i) && DistinctTags(a[..])
    modifies a
    ensures SortedPrefix(a, i + 1) && DistinctTags(a[..])
    ensures multiset(a[..]) == old(multiset(a[..]))
    ensures forall k :: i < k < a.Length ==> a[k] == old(a[k])
  {
    var j := i;
    while j > 0 && StrLess(a[j].tag, a[j - 1].tag)
      invariant 0 <= j <= i
      invariant forall p, q :: 0 <= p < q <= i && p != j && q != j ==> StrLess(a[p].tag, a[q].tag)
      invariant forall q :: j < q <= i ==> StrLess(a[j].tag, a[q].tag)
      invariant DistinctTags(a[..])
      invariant multiset(a[..]) == old(multiset(a[..]))
      invariant forall k :: i < k < a.Length ==> a[k] == old(a[k])
    {
      SwapDown(a, j);
      j := j - 1;
    }
    if j > 0 {
      assert a[..][j - 1] == a[j - 1] && a[..][j] == a[j];
      StrLessConnected(a[j - 1].tag, a[j].tag);
      forall p | 0 <= p < j - 1
        ensures StrLess(a[p].tag, a[j].tag)
      {
        StrLessTransitive(a[p].tag, a[j - 1].tag, a[j].tag);
      }
    }
  }

  /**
   * `agg.sort((a, b) => (a[0] > b[0] ? 1 : -1))` on rows whose tags are
   * distinct: the array ends up strictly ascending by tag and holds the same rows.
   */
  method SortByTag(a: array<Row>)
    requires DistinctTags(a[..])
    modifies a
    ensures Ascending(a[..])
    ensures multiset(a[..]) == old(multiset(a[..]))
  {
    if a.Length == 0 {
      return;
    }
    var i := 1;
    while i < a.Length
      invariant 1 <= i <= a.Length
      invariant SortedPrefix(a, i) && DistinctTags(a[..])
      invariant multiset(a[..]) == old(multiset(a[..]))
    {
      InsertDown(a, i);
      i := i + 1;
    }
  }

  /** `agg.map((a) => a[1])`: the hours column. */
  function HoursColumn(rows: seq<Row>): (hs: seq<real>)
    ensures |hs| == |rows| && forall i :: 0 <= i < |rows| ==> hs[i] == rows[i].hours
  {
    seq(|rows|, i requires 0 <= i < |rows| => rows[i].hours)
  }

  /** The arithmetic sum, zero for no terms. */
  function Sum(xs: seq<real>): real
  {
    if |xs| == 0 then 0.0 else Sum(xs[..|xs| - 1]) + xs[|xs| - 1]
  }

  /**
   * `reduce((acc, a) => acc + a)` with no initial value: a left-to-right sum
   * that starts from the first term, and throws on an empty list.
   */
  function ReduceAdd(xs: seq<real>): (r: Result<real, Error>)
    ensures r.Failure? <==> |xs| == 0
    ensures r.Failure? ==> r.error == EmptyReduce
    ensures r.Success? ==> r.value == Sum(xs)
  {
    if |xs| == 0 then Failure(EmptyReduce)
    else if |xs| == 1 then Success(xs[0])
    else Success(ReduceAdd(xs[..|xs| - 1]).value + xs[|xs| - 1])
  }

  /** What the run shows on success: the dictionary's rows in ascending tag order and their sum. */
  ghost predicate Reports(s: Table, acc: map<string, int>)
  {
    RowsOf(s.rows, acc) && Ascending(s.rows) && s.total == Sum(HoursColumn(s.rows))
  }

  /** A non-empty list holds its head; stated apart so the empty case of `AscendingUnique` needs no index. */
  lemma HeadIsMember(s: seq<Row>)
    ensures |s| > 0 ==> s[0] in s
  {
  }

  /** Two strictly ascending lists of the same rows are the same list. */
  lemma {:induction false} AscendingUnique(xs: seq<Row>, ys: seq<Row>)
    requires Ascending(xs) && Ascending(ys)
    requires forall x :: x in xs <==> x in ys
    ensures xs == ys
    decreases |xs|
  {
    if |xs| > 0 {
      assert xs[0] in ys;
      assert ys[0] in xs;
      var k :| 0 <= k < |ys| && ys[k] == xs[0];
      var m :| 0 <= m < |xs| && xs[m] == ys[0];
      if k > 0 {
        assert StrLess(ys[0].tag, ys[k].tag);
        if m == 0 {
          StrLessIrreflexive(xs[0].tag);
        } else {
          StrLessAsymmetric(xs[0].tag, xs[m].tag);
        }
      }
      forall x
        ensures x in xs[1..] <==> x in ys[1..]
      {
        if x in xs[1..] {
          var i :| 1 <= i < |xs| && xs[i] == x;
          assert StrLess(xs[0].tag, x.tag);
          StrLessIrreflexive(x.tag);
          assert x in ys && x != ys[0];
        }
        if x in ys[1..] {
          var i :| 1 <= i < |ys| && ys[i] == x;
          assert StrLess(ys[0].tag, x.tag);
          StrLessIrreflexive(x.tag);
          assert x in xs && x != xs[0];
        }
      }
      AscendingUnique(xs[1..], ys[1..]);
      assert xs == [xs[0]] + xs[1..] && ys == [ys[0]] + ys[1..];
    } else {
      HeadIsMember(ys);
    }
  }

  /**
   * Tags `042`, `007` and `100`, in whatever order they arrive, can only be
   * shown as `007`, `042`, `100`.
   */
  lemma SortOrderExample(ys: seq<Row>)
    requires Ascending(ys)
    requires forall y :: y in ys <==> y in [Row("042", 1.5), Row("007", 0.25), Row("100", 2.0)]
    ensures ys == [Row("007", 0.25), Row("042", 1.5), Row("100", 2.0)]
  {
    var sorted := [Row("007", 0.25), Row("042", 1.5), Row("100", 2.0)];
    assert StrLess("007", "042") && StrLess("042", "100") && StrLess("007", "100");
    assert Ascending(sorted);
    AscendingUnique(ys, sorted);
  }

  /** Rows that both state the same dictionary hold the same pairs. */
  lemma RowsOfShared(rows1: seq<Row>, rows2: seq<Row>, acc: map<string, int>, x: Row)
    requires RowsOf(rows1, acc) && RowsOf(rows2, acc) && x in rows1
    ensures x in rows2
  {
    var i :| 0 <= i < |rows1| && rows1[i] == x;
    var j :| 0 <= j < |rows2| && rows2[j].tag == x.tag;
    assert rows2[j] == x;
  }

  /** The report is determined by the dictionary alone, whatever order `Object.entries` gave. */
  lemma ReportUnique(s1: Table, s2: Table, acc: map<string, int>)
    requires Reports(s1, acc) && Reports(s2, acc)
    ensures s1 == s2
  {
    forall x
      ensures x in s1.rows <==> x in s2.rows
    {
      if x in s1.rows {
        RowsOfShared(s1.rows, s2.rows, acc, x);
      }
      if x in s2.rows {
        RowsOfShared(s2.rows, s1.rows, acc, x);
      }
    }
    AscendingUnique(s1.rows, s2.rows);
  }

  /** The minutes the rows' tags stand for, summed over the rows. */
  function RowMinutes(es: seq<Entry>, rows: seq<Row>): int
  {
    if |rows| == 0 then 0 else RowMinutes(es, rows[..|rows| - 1]) + TagMinutes(es, rows[|rows| - 1].tag)
  }

  lemma {:induction false} RowMinutesNoEntries(rows: seq<Row>)
    ensures RowMinutes([], rows) == 0
  {
    if |rows| > 0 {
      RowMinutesNoEntries(rows[..|rows| - 1]);
    }
  }

  /** One more entry adds its minutes to the row of its tag, if there is one, and only there. */
  lemma {:induction false} RowMinutesSnoc(es: seq<Entry>, e: Entry, rows: seq<Row>)
    requires DistinctTags(rows)
    ensures RowMinutes(es + [e], rows) ==
      RowMinutes(es, rows) + (if exists i :: 0 <= i < |rows| && rows[i].tag == e.tag then e.minutes else 0)
  {
    assert (es + [e])[..|es|] == es;
    if |rows| > 0 {
      var init := rows[..|rows| - 1];
      assert forall i :: 0 <= i < |init| ==> init[i] == rows[i];
      RowMinutesSnoc(es, e, init);
    }
  }

  /** Summing each distinct tag's minutes over rows that cover every tag gives all the entries' minutes. */
  lemma {:induction false} RowMinutesTotal(es: seq<Entry>, rows: seq<Row>)
    requires DistinctTags(rows)
    requires forall t :: t in TagSet(es) ==> exists i :: 0 <= i < |rows| && rows[i].tag == t
    ensures RowMinutes(es, rows) == TotalMinutes(es)
  {
    if |es| == 0 {
      RowMinutesNoEntries(rows);
    } else {
      var init, e := es[..|es| - 1], es[|es| - 1];
      assert es == init + [e];
      forall t | t in TagSet(init)
        ensures exists i :: 0 <= i < |rows| && rows[i].tag == t
      {
        var k :| 0 <= k < |init| && init[k].tag == t;
        assert es[k].tag == t;
        assert t in TagSet(es);
      }
      RowMinutesTotal(init, rows);
      RowMinutesSnoc(init, e, rows);
      assert e.tag in TagSet(es);
    }
  }

  /** The hours column sums to the rows' minutes in hours, when each row holds its tag's minutes. */
  lemma {:induction false} HoursColumnSum(es: seq<Entry>, rows: seq<Row>)
    requires forall i :: 0 <= i < |rows| ==> rows[i].hours == Hours(TagMinutes(es, rows[i].tag))
    ensures Sum(HoursColumn(rows)) == Hours(RowMinutes(es, rows))
  {
    if |rows| > 0 {
      var init := rows[..|rows| - 1];
      assert HoursColumn(rows)[..|rows| - 1] == HoursColumn(init);
      HoursColumnSum(es, init);
    }
  }

  /** The entries' hours, each `elapsed / 60`, summed. */
  function EntryHours(es: seq<Entry>): real
  {
    if |es| == 0 then 0.0 else EntryHours(es[..|es| - 1]) + Hours(es[|es| - 1].minutes)
  }

  lemma {:induction false} EntryHoursTotal(es: seq<Entry>)
    ensures EntryHours(es) == Hours(TotalMinutes(es))
  {
    if |es| > 0 {
      EntryHoursTotal(es[..|es| - 1]);
    }
  }

  /**
   * The grand total, which a report makes the sum of the per-tag values, is
   * also the sum of
   * every timed entry's hours.
   */
  lemma GrandTotal(s: Table, es: seq<Entry>)
    requires Reports(s, Totals(es))
    ensures s.total == EntryHours(es)
  {
    var acc := Totals(es);
    assert forall i :: 0 <= i < |s.rows| ==> s.rows[i].hours == Hours(TagMinutes(es, s.rows[i].tag));
    HoursColumnSum(es, s.rows);
    assert forall t :: t in TagSet(es) ==> t in acc;
    RowMinutesTotal(es, s.rows);
    EntryHoursTotal(es);
  }
}
