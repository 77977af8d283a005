/**
 * The whole run behind the `{{renderer journal-summary}}` macro, from the
 * page's root blocks to the report or the error shown in its place.
 */
module Summary {
  import opened Wrappers
  import opened JsText
  import opened Outline
  import opened Flatten
  import opened Aggregation
  import opened Report

  /** The entries of the blocks `nest` levels below the log block, or why there are none. */
  function LogEntries(tree: seq<Node>, settings: Settings, pages: PageStore): Result<seq<Entry>, Error>
  {
    match FindLog(tree, settings.keyword)
    case None => Failure(LogNotFound(settings.keyword))
    case Some(log) => Entries(Descend(log.children, settings.nest), pages)
  }

  /**
   * The outcome a run must have: the first failure along the way; a failure
   * of the total's `reduce` when no block had a time range; otherwise the
   * sorted per-tag report of the entries.
   */
  ghost predicate IsOutcome(tree: seq<Node>, settings: Settings, pages: PageStore, r: Result<Table, Error>)
  {
    match LogEntries(tree, settings, pages)
    case Failure(e) => r == Failure(e)
    case Success(es) =>
      if TagSet(es) == {} then r == Failure(EmptyReduce)
      else r.Success? && Reports(r.value, Totals(es))
  }

  /** A sorted permutation of the dictionary's rows is still exactly the dictionary's rows. */
  lemma SortedRowsOf(rows: seq<Row>, sorted: seq<Row>, acc: map<string, int>)
    requires RowsOf(rows, acc) && multiset(rows) == multiset(sorted) && Ascending(sorted)
    ensures RowsOf(sorted, acc)
  {
    forall i, j | 0 <= i < j < |sorted|
      ensures sorted[i].tag != sorted[j].tag
    {
      if sorted[i].tag == sorted[j].tag {
        StrLessIrreflexive(sorted[i].tag);
      }
    }
    forall i | 0 <= i < |sorted|
      ensures sorted[i].tag in acc && sorted[i].hours == Hours(acc[sorted[i].tag])
    {
      assert sorted[i] in multiset(rows);
    }
    forall t | t in acc
      ensures exists i :: 0 <= i < |sorted| && sorted[i].tag == t
    {
      var k :| 0 <= k < |rows| && rows[k].tag == t;
      assert rows[k] in multiset(sorted);
    }
  }

  /**
   * `Object.entries`, the sort and the total's `reduce`: the report of the
   * dictionary, or the `reduce` failure when the dictionary is empty.
   */
  method BuildReport(acc: map<string, int>) returns (r: Result<Table, Error>)
    ensures |acc| == 0 ==> r == Failure(EmptyReduce)
    ensures |acc| > 0 ==> r.Success? && Reports(r.value, acc)
  {
    var rows := EntriesOf(acc);
    var agg := new Row[|rows|](i requires 0 <= i < |rows| => rows[i]);
    assert agg[..] == rows;
    SortByTag(agg);
    var total := ReduceAdd(HoursColumn(agg[..]));
    if total.Failure? {
      return Failure(total.error);
    }
    SortedRowsOf(rows, agg[..], acc);
    r := Success(Table(agg[..], total.value));
  }

  /** The run, step by step: find the log block, descend, collect, sum per tag, sort, total. */
  method Summarize(tree: seq<Node>, settings: Settings, pages: PageStore) returns (r: Result<Table, Error>)
    ensures FindLog(tree, settings.keyword).None? ==> r == Failure(LogNotFound(settings.keyword))
    ensures IsOutcome(tree, settings, pages, r)
  {
    var found := FindLog(tree, settings.keyword);
    if found.None? {
      return Failure(LogNotFound(settings.keyword));
    }
    var nodes := FlattenNest(found.value.children, settings.nest);
    var collected := CollectEntries(nodes, pages);
    assert LogEntries(tree, settings, pages) == collected;
    if collected.Failure? {
      return Failure(collected.error);
    }
    var es := collected.value;
    var acc := Accumulate(es);
    assert acc == Totals(es);
    r := BuildReport(acc);
  }

  /** Two runs over the same blocks, settings and pages end the same way. */
  lemma OutcomeUnique(tree: seq<Node>, settings: Settings, pages: PageStore, r1: Result<Table, Error>, r2: Result<Table, Error>)
    requires IsOutcome(tree, settings, pages, r1) && IsOutcome(tree, settings, pages, r2)
    ensures r1 == r2
  {
    var le := LogEntries(tree, settings, pages);
    if le.Success? && TagSet(le.value) != {} {
      ReportUnique(r1.value, r2.value, Totals(le.value));
    }
  }

  /** With the default settings and no `## Log` root block, the run fails with the text `"## Log" not exist`. */
  lemma MissingLogExample(tree: seq<Node>, pages: PageStore, r: Result<Table, Error>)
    requires forall i :: 0 <= i < |tree| ==> tree[i].content != "## Log"
    requires IsOutcome(tree, DefaultSettings, pages, r)
    ensures r == Failure(LogNotFound("## Log"))
    ensures Message(r.error) == "\"## Log\" not exist"
  {
  }
}
