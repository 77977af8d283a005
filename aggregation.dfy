/**
 * From the flattened blocks to per-tag totals: every block with a time range
 * becomes an entry (its tag and signed minutes), blocks without one are
 * dropped, and the entries are summed per tag into a dictionary.
 */
module Aggregation {
  import opened Wrappers
  import opened Outline
  import opened TimeRange
  import opened Tags

  /** `{ tag, elapsed }` for one block, with the elapsed time kept in whole minutes. */
  datatype Entry = Entry(tag: string, minutes: int)

  /** The block's text holds a time range. */
  predicate Timed(n: Node)
  {
    ParseRange(n.content).Some?
  }

  /**
   * What the per-block callback yields: nothing for a block without a time
   * range, its entry otherwise, or the failure resolving its tag raised.
   */
  function EntryOf(n: Node, pages: PageStore): Result<Option<Entry>, Error>
  {
    match ParseRange(n.content)
    case None => Success(None)
    case Some(span) =>
      match EntryTag(n, pages)
      case Failure(e) => Failure(e)
      case Success(t) => Success(Some(Entry(t, Elapsed(span))))
  }

  /**
   * The callback on one block: nothing without a time range; with one, it
   * fails exactly when some path reference does not resolve, and otherwise
   * yields the resolved tag and the span's signed minutes.
   */
  lemma CallbackResult(n: Node, pages: PageStore)
    ensures !Timed(n) ==> EntryOf(n, pages) == Success(None)
    ensures Timed(n) ==>
      (EntryOf(n, pages).Failure? <==> exists i :: 0 <= i < |n.pathRefs| && !Resolves(n.pathRefs[i], pages))
    ensures Timed(n) && EntryOf(n, pages).Success? ==>
      EntryOf(n, pages) == Success(Some(Entry(EntryTag(n, pages).value, Elapsed(ParseRange(n.content).value))))
  {
    TagFailsIff(n, pages);
  }

  /** The callback's results for `nodes`, in order: `children.map(callback)`. */
  function Results(nodes: seq<Node>, pages: PageStore): (rs: seq<Result<Option<Entry>, Error>>)
    ensures |rs| == |nodes|
    ensures forall i :: 0 <= i < |nodes| ==> rs[i] == EntryOf(nodes[i], pages)
  {
    seq(|nodes|, i requires 0 <= i < |nodes| => EntryOf(nodes[i], pages))
  }

  /**
   * `Promise.all` followed by `filter((c) => c !== undefined)`: the first
   * failure if there is one, otherwise the entries present, in order.
   */
  function Gather(rs: seq<Result<Option<Entry>, Error>>): Result<seq<Entry>, Error>
  {
    if |rs| == 0 then Success([])
    else
      match Gather(rs[..|rs| - 1])
      case Failure(e) => Failure(e)
      case Success(es) =>
        match rs[|rs| - 1]
        case Failure(e) => Failure(e)
        case Success(None) => Success(es)
        case Success(Some(e)) => Success(es + [e])
  }

  /** The entries of the timed blocks of `nodes`, or the first failure. */
  function Entries(nodes: seq<Node>, pages: PageStore): Result<seq<Entry>, Error>
  {
    Gather(Results(nodes, pages))
  }

  /** Gathering fails exactly when some result is a failure, and then with the first one. */
  lemma {:induction false} GatherFailIff(rs: seq<Result<Option<Entry>, Error>>)
    ensures Gather(rs).Failure? <==> exists i :: 0 <= i < |rs| && rs[i].Failure?
    ensures Gather(rs).Failure? ==>
      exists i :: 0 <= i < |rs| && rs[i] == Failure(Gather(rs).error) &&
        forall j :: 0 <= j < i ==> rs[j].Success?
  {
    if |rs| > 0 {
      var init := rs[..|rs| - 1];
      assert forall i :: 0 <= i < |init| ==> init[i] == rs[i];
      GatherFailIff(init);
    }
  }

  /** Gathering a concatenation: the first failure, or the two entry lists joined. */
  lemma {:induction false} GatherAppend(a: seq<Result<Option<Entry>, Error>>, b: seq<Result<Option<Entry>, Error>>)
    ensures Gather(a + b) ==
      match Gather(a)
      case Failure(e) => Failure(e)
      case Success(x) =>
        match Gather(b)
        case Failure(e) => Failure(e)
        case Success(y) => Success(x + y)
    decreases |b|
  {
    if |b| == 0 {
      assert a + b == a;
      if Gather(a).Success? {
        assert Gather(a).value + [] == Gather(a).value;
      }
    } else {
      var init := b[..|b| - 1];
      assert (a + b)[..|a + b| - 1] == a + init;
      assert (a + b)[|a + b| - 1] == b[|b| - 1];
      GatherAppend(a, init);
      if Gather(a).Success? && Gather(init).Success? {
        var x, y := Gather(a).value, Gather(init).value;
        var last := b[|b| - 1];
        if last.Success? && last.value.Some? {
          assert x + (y + [last.value.value]) == (x + y) + [last.value.value];
        }
      }
    }
  }

  lemma ResultsAppend(a: seq<Node>, b: seq<Node>, pages: PageStore)
    ensures Results(a + b, pages) == Results(a, pages) + Results(b, pages)
  {
    var l, r := Results(a + b, pages), Results(a, pages) + Results(b, pages);
    forall i | 0 <= i < |l|
      ensures l[i] == r[i]
    {
      if i < |a| {
        assert (a + b)[i] == a[i];
      } else {
        assert (a + b)[i] == b[i - |a|];
      }
    }
  }

  /** The run fails exactly when some timed block's tag resolution fails, and then with the first such failure. */
  lemma EntriesFailIff(nodes: seq<Node>, pages: PageStore)
    ensures Entries(nodes, pages).Failure? <==>
      exists i :: 0 <= i < |nodes| && Timed(nodes[i]) && EntryTag(nodes[i], pages).Failure?
    ensures Entries(nodes, pages).Failure? ==>
      exists i :: 0 <= i < |nodes| && Timed(nodes[i]) &&
        EntryTag(nodes[i], pages) == Failure(Entries(nodes, pages).error) &&
        forall j :: 0 <= j < i ==> !Timed(nodes[j]) || EntryTag(nodes[j], pages).Success?
  {
    var rs := Results(nodes, pages);
    GatherFailIff(rs);
    assert forall i :: 0 <= i < |nodes| ==>
      (rs[i].Failure? <==> Timed(nodes[i]) && EntryTag(nodes[i], pages).Failure?);
    assert forall i :: 0 <= i < |nodes| && rs[i].Failure? ==> rs[i] == Failure(EntryTag(nodes[i], pages).error);
  }

  /** A block without a time range contributes nothing, wherever it stands. */
  lemma UntimedContributesNothing(a: seq<Node>, n: Node, b: seq<Node>, pages: PageStore)
    requires !Timed(n)
    ensures Entries(a + [n] + b, pages) == Entries(a + b, pages)
  {
    var ra, rb := Results(a, pages), Results(b, pages);
    ResultsAppend(a + [n], b, pages);
    ResultsAppend(a, [n], pages);
    ResultsAppend(a, b, pages);
    var rn := Results([n], pages);
    assert rn == [Success(None)];
    GatherAppend(ra + rn, rb);
    GatherAppend(ra, rn);
    GatherAppend(ra, rb);
    assert rn[..0] == [];
    if Gather(ra).Success? {
      assert Gather(ra).value + [] == Gather(ra).value;
    }
  }

  /** The `Promise.all` over the blocks, taken one block after another. */
  method CollectEntries(nodes: seq<Node>, pages: PageStore) returns (r: Result<seq<Entry>, Error>)
    ensures r == Entries(nodes, pages)
  {
    ghost var rs := Results(nodes, pages);
    var es: seq<Entry> := [];
    var i := 0;
    while i < |nodes|
      invariant 0 <= i <= |nodes|
      invariant Gather(rs[..i]) == Success(es)
    {
      assert rs[..i + 1][..i] == rs[..i];
      var span := ParseRange(nodes[i].content);
      if span.Some? {
        var tag := ResolveTag(nodes[i], pages);
        if tag.Failure? {
          GatherAppend(rs[..i + 1], rs[i + 1..]);
          assert rs[..i + 1] + rs[i + 1..] == rs;
          return Failure(tag.error);
        }
        es := es + [Entry(tag.value, Elapsed(span.value))];
      }
      i := i + 1;
    }
    assert rs[..i] == rs;
    r := Success(es);
  }

  /** The distinct tags of `es`. */
  function TagSet(es: seq<Entry>): (r: set<string>)
    ensures forall t :: t in r <==> exists i :: 0 <= i < |es| && es[i].tag == t
  {
    if |es| == 0 then {}
    else
      var init := es[..|es| - 1];
      assert forall i :: 0 <= i < |init| ==> init[i] == es[i];
      TagSet(init) + {es[|es| - 1].tag}
  }

  /** The minutes of the entries tagged `t`, summed. */
  function TagMinutes(es: seq<Entry>, t: string): int
  {
    if |es| == 0 then 0
    else TagMinutes(es[..|es| - 1], t) + (if es[|es| - 1].tag == t then es[|es| - 1].minutes else 0)
  }

  /** The minutes of all entries, summed. */
  function TotalMinutes(es: seq<Entry>): int
  {
    if |es| == 0 then 0 else TotalMinutes(es[..|es| - 1]) + es[|es| - 1].minutes
  }

  /** The dictionary the `reduce` builds: each tag that occurs, mapped to its minutes. */
  function Totals(es: seq<Entry>): map<string, int>
  {
    map t | t in TagSet(es) :: TagMinutes(es, t)
  }

  /** A tag no entry carries sums to nothing. */
  lemma {:induction false} TagMinutesAbsent(es: seq<Entry>, t: string)
    requires t !in TagSet(es)
    ensures TagMinutes(es, t) == 0
  {
    if |es| > 0 {
      TagMinutesAbsent(es[..|es| - 1], t);
    }
  }

  /**
   * The `reduce` into `acc`: `acc[tag] = (acc[tag] || 0) + elapsed` for each
   * entry. Its keys are exactly the entries' tags and each value that tag's sum.
   */
  method Accumulate(es: seq<Entry>) returns (acc: map<string, int>)
    ensures acc.Keys == TagSet(es)
    ensures forall t :: t in acc ==> acc[t] == TagMinutes(es, t)
  {
    acc := map[];
    var i := 0;
    while i < |es|
      invariant 0 <= i <= |es|
      invariant acc.Keys == TagSet(es[..i])
      invariant forall t :: t in acc ==> acc[t] == TagMinutes(es[..i], t)
    {
      var e := es[i];
      assert es[..i + 1][..i] == es[..i];
      forall t | t in TagSet(es[..i]) && t != e.tag
        ensures TagMinutes(es[..i + 1], t) == TagMinutes(es[..i], t)
      {
      }
      if e.tag !in acc {
        TagMinutesAbsent(es[..i], e.tag);
      }
      acc := acc[e.tag := (if e.tag in acc then acc[e.tag] else 0) + e.minutes];
      i := i + 1;
    }
    assert es[..i] == es;
  }

  /** The tags of the gathered entries are the tags of the entries present among the results. */
  lemma {:induction false} GatherTags(rs: seq<Result<Option<Entry>, Error>>, t: string)
    requires Gather(rs).Success?
    ensures t in TagSet(Gather(rs).value) <==>
      exists i :: 0 <= i < |rs| && rs[i].Success? && rs[i].value.Some? && rs[i].value.value.tag == t
  {
    if |rs| > 0 {
      var init := rs[..|rs| - 1];
      assert forall i :: 0 <= i < |init| ==> init[i] == rs[i];
      GatherTags(init, t);
      var x := Gather(init).value;
      var last := rs[|rs| - 1];
      if last.value.Some? {
        var e := last.value.value;
        assert TagSet(x + [e]) == TagSet(x) + {e.tag} by {
          assert (x + [e])[..|x|] == x;
        }
      }
    }
  }

  /** The dictionary's key set is exactly the tags resolved for the timed blocks. */
  lemma KeysAreTimedTags(nodes: seq<Node>, pages: PageStore, t: string)
    requires Entries(nodes, pages).Success?
    ensures t in TagSet(Entries(nodes, pages).value) <==>
      exists i :: 0 <= i < |nodes| && Timed(nodes[i]) && EntryTag(nodes[i], pages) == Success(t)
  {
    var rs := Results(nodes, pages);
    GatherTags(rs, t);
    forall i | 0 <= i < |nodes|
      ensures rs[i].Success? && rs[i].value.Some? && rs[i].value.value.tag == t <==>
        Timed(nodes[i]) && EntryTag(nodes[i], pages) == Success(t)
    {
      CallbackResult(nodes[i], pages);
    }
  }
}
