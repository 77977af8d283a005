/**
 * Resolving an entry's category tag from its path references: a three-digit
 * page name first, then a three-digit entry of some page's `tags` property,
 * and the entry's own text when neither exists.
 */
module Tags {
  import opened Wrappers
  import opened Search
  import opened JsText
  import opened Outline

  /** What `^\d{3}$` accepts: exactly three ASCII digits. */
  predicate IsThreeDigits(s: string)
  {
    |s| == 3 && forall i :: 0 <= i < |s| ==> IsDigit(s[i])
  }

  /** `tagMatch`: the name itself when it is a three-digit code, nothing otherwise. */
  function TagMatch(name: string): (r: Option<string>)
    ensures r.Some? <==> IsThreeDigits(name)
    ensures r.Some? ==> r.value == name
  {
    if |name| == 3 && IsDigit(name[0]) && IsDigit(name[1]) && IsDigit(name[2]) then Some(name)
    else None
  }

  /** The reference points at a page whose name is a three-digit code. */
  predicate NamesTag(id: RefId, pages: PageStore)
  {
    id in pages && IsThreeDigits(pages[id].name)
  }

  /** A page whose `properties` exist but hold no `tags` entry. */
  predicate LacksTags(p: Page)
  {
    p.properties.Some? && p.properties.value.tags.None?
  }

  /** The tags a referenced page contributes to the property fallback, in their order. */
  function PageTags(id: RefId, pages: PageStore): seq<string>
  {
    if id in pages && pages[id].properties.Some? && pages[id].properties.value.tags.Some?
    then pages[id].properties.value.tags.value
    else []
  }

  /** Every referenced page's tags, references in order and each page's tags in order. */
  function AllTags(refs: seq<RefId>, pages: PageStore): seq<string>
  {
    if |refs| == 0 then [] else AllTags(refs[..|refs| - 1], pages) + PageTags(refs[|refs| - 1], pages)
  }

  /** Handling the reference throws nothing: its page exists and, if it has properties, has `tags`. */
  predicate Resolves(id: RefId, pages: PageStore)
  {
    id in pages && !LacksTags(pages[id])
  }

  /**
   * What handling one reference throws, if anything. For a missing page the
   * error records whether a direct tag was already set: then `ref.name` is
   * skipped and `ref.properties` is the read that throws.
   */
  function RefCheck(id: RefId, pages: PageStore, tagged: bool): (r: Option<Error>)
    ensures r.None? <==> Resolves(id, pages)
  {
    if id !in pages then Some(PageNotFound(id, tagged))
    else if LacksTags(pages[id]) then Some(TagsNotFound(id))
    else None
  }

  function NameProbe(pages: PageStore): RefId -> Option<string>
  {
    id => if id in pages then TagMatch(pages[id].name) else None
  }

  /** The name of the first referenced page whose name is a three-digit code. */
  function DirectTag(refs: seq<RefId>, pages: PageStore): (r: Option<string>)
    ensures r.None? <==> forall i :: 0 <= i < |refs| ==> !NamesTag(refs[i], pages)
    ensures r.Some? ==>
      exists i :: 0 <= i < |refs| && NamesTag(refs[i], pages) && r.value == pages[refs[i]].name &&
        forall j :: 0 <= j < i ==> !NamesTag(refs[j], pages)
  {
    var probe := NameProbe(pages);
    assert forall i :: 0 <= i < |refs| ==> (probe(refs[i]).Some? <==> NamesTag(refs[i], pages));
    FirstSome(refs, probe)
  }

  /** The first three-digit code in `ts`. */
  function FirstCode(ts: seq<string>): (r: Option<string>)
    ensures r.None? <==> forall k :: 0 <= k < |ts| ==> !IsThreeDigits(ts[k])
    ensures r.Some? ==>
      exists k :: 0 <= k < |ts| && IsThreeDigits(ts[k]) && r.value == ts[k] &&
        forall j :: 0 <= j < k ==> !IsThreeDigits(ts[j])
  {
    var probe := TagMatch;
    var r := FirstSome(ts, probe);
    assert forall k :: 0 <= k < |ts| ==> (probe(ts[k]).Some? <==> IsThreeDigits(ts[k]));
    r
  }

  /** The first three-digit code among all referenced pages' `tags`. */
  function PropertyTag(refs: seq<RefId>, pages: PageStore): Option<string>
  {
    FirstCode(AllTags(refs, pages))
  }

  /**
   * The failure, if any, of the first reference whose handling throws; a
   * missing page is told whether an earlier page name already set the tag.
   */
  function RefError(refs: seq<RefId>, pages: PageStore): Option<Error>
  {
    if |refs| == 0 then None
    else
      var init := refs[..|refs| - 1];
      OrElse(RefError(init, pages), RefCheck(refs[|refs| - 1], pages, DirectTag(init, pages).Some?))
  }

  /**
   * Nothing is thrown exactly when every reference resolves; otherwise the
   * error is the earliest failing reference's, with the tag state it found.
   */
  lemma {:induction false} RefErrorIsFirst(refs: seq<RefId>, pages: PageStore)
    ensures RefError(refs, pages).None? <==> forall i :: 0 <= i < |refs| ==> Resolves(refs[i], pages)
    ensures RefError(refs, pages).Some? ==>
      exists i :: 0 <= i < |refs| && RefError(refs, pages) == RefCheck(refs[i], pages, DirectTag(refs[..i], pages).Some?) &&
        forall j :: 0 <= j < i ==> Resolves(refs[j], pages)
  {
    if |refs| > 0 {
      var init := refs[..|refs| - 1];
      RefErrorIsFirst(init, pages);
      assert forall i :: 0 <= i < |init| ==> init[i] == refs[i] && init[..i] == refs[..i];
      if RefError(init, pages).Some? {
        var i :| 0 <= i < |init| && RefError(init, pages) == RefCheck(init[i], pages, DirectTag(init[..i], pages).Some?) &&
          forall j :: 0 <= j < i ==> Resolves(init[j], pages);
        assert RefError(refs, pages) == RefCheck(refs[i], pages, DirectTag(refs[..i], pages).Some?);
      }
    }
  }

  /** The tag an entry with a time range gets, or the failure resolving it raises. */
  function EntryTag(entry: Node, pages: PageStore): Result<string, Error>
  {
    match RefError(entry.pathRefs, pages)
    case Some(e) => Failure(e)
    case None =>
      var direct := DirectTag(entry.pathRefs, pages);
      var fallback := PropertyTag(entry.pathRefs, pages);
      Success(if direct.Some? then direct.value
              else if fallback.Some? then fallback.value
              else entry.content)
  }

  /** Resolution fails exactly when handling some reference throws. */
  lemma TagFailsIff(entry: Node, pages: PageStore)
    ensures EntryTag(entry, pages).Failure? <==>
      exists i :: 0 <= i < |entry.pathRefs| && !Resolves(entry.pathRefs[i], pages)
  {
    RefErrorIsFirst(entry.pathRefs, pages);
  }

  /** The earliest reference whose page name is a three-digit code decides the tag, whatever the properties say. */
  lemma DirectTagWins(entry: Node, pages: PageStore, i: nat)
    requires RefError(entry.pathRefs, pages).None?
    requires i < |entry.pathRefs| && NamesTag(entry.pathRefs[i], pages)
    requires forall j :: 0 <= j < i ==> !NamesTag(entry.pathRefs[j], pages)
    ensures EntryTag(entry, pages) == Success(pages[entry.pathRefs[i]].name)
  {
    var refs := entry.pathRefs;
    var d := DirectTag(refs, pages);
    var w :| 0 <= w < |refs| && NamesTag(refs[w], pages) && d.value == pages[refs[w]].name &&
      forall j :: 0 <= j < w ==> !NamesTag(refs[j], pages);
    assert w == i;
  }

  /** With no three-digit page name, the earliest three-digit property tag decides. */
  lemma PropertyTagFallback(entry: Node, pages: PageStore, k: nat)
    requires RefError(entry.pathRefs, pages).None?
    requires forall i :: 0 <= i < |entry.pathRefs| ==> !NamesTag(entry.pathRefs[i], pages)
    requires var ts := AllTags(entry.pathRefs, pages);
      k < |ts| && IsThreeDigits(ts[k]) && forall j :: 0 <= j < k ==> !IsThreeDigits(ts[j])
    ensures EntryTag(entry, pages) == Success(AllTags(entry.pathRefs, pages)[k])
  {
    var ts := AllTags(entry.pathRefs, pages);
    var p := FirstCode(ts);
    var w :| 0 <= w < |ts| && IsThreeDigits(ts[w]) && p.value == ts[w] &&
      forall j :: 0 <= j < w ==> !IsThreeDigits(ts[j]);
    assert w == k;
  }

  /** With neither kind of code, the tag is the entry's text, verbatim. */
  lemma ContentFallback(entry: Node, pages: PageStore)
    requires RefError(entry.pathRefs, pages).None?
    requires forall i :: 0 <= i < |entry.pathRefs| ==> !NamesTag(entry.pathRefs[i], pages)
    requires var ts := AllTags(entry.pathRefs, pages);
      forall k :: 0 <= k < |ts| ==> !IsThreeDigits(ts[k])
    ensures EntryTag(entry, pages) == Success(entry.content)
  {
    assert DirectTag(entry.pathRefs, pages).None?;
    assert FirstCode(AllTags(entry.pathRefs, pages)).None?;
  }

  /** A three-digit page name wins over a three-digit property tag on another page. */
  lemma PrecedenceExample()
    ensures var pages := map[1 := Page("project", Some(Props(Some(["007"])))), 2 := Page("042", None)];
      EntryTag(Node("09:00 - 10:30 review", [], [1, 2]), pages) == Success("042")
  {
    var pages := map[1 := Page("project", Some(Props(Some(["007"])))), 2 := Page("042", None)];
    assert IsThreeDigits("042");
    assert !NamesTag(1, pages);
    DirectTagWins(Node("09:00 - 10:30 review", [], [1, 2]), pages, 1);
  }

  lemma DirectTagSnoc(refs: seq<RefId>, id: RefId, pages: PageStore)
    ensures DirectTag(refs + [id], pages) ==
      OrElse(DirectTag(refs, pages), if id in pages then TagMatch(pages[id].name) else None)
  {
    FirstSomeSnoc(refs, id, NameProbe(pages));
  }

  lemma RefErrorSnoc(refs: seq<RefId>, id: RefId, pages: PageStore)
    ensures RefError(refs + [id], pages) ==
      OrElse(RefError(refs, pages), RefCheck(id, pages, DirectTag(refs, pages).Some?))
  {
    assert (refs + [id])[..|refs|] == refs;
  }

  /** Once a prefix of the references has thrown, the rest cannot change the failure. */
  lemma {:induction false} RefErrorPrefix(refs: seq<RefId>, k: nat, pages: PageStore)
    requires k <= |refs| && RefError(refs[..k], pages).Some?
    ensures RefError(refs, pages) == RefError(refs[..k], pages)
    decreases |refs|
  {
    if k < |refs| {
      var init := refs[..|refs| - 1];
      assert init[..k] == refs[..k];
      RefErrorPrefix(init, k, pages);
    } else {
      assert refs[..k] == refs;
    }
  }

  /**
   * A missing page after a direct tag was found fails on `properties`, not
   * on `name`: with page `042` first and page 9 absent, the error records it.
   */
  lemma NullPageAfterTagExample()
    ensures var pages := map[2 := Page("042", None)];
      EntryTag(Node("09:00 - 10:30 review", [], [2, 9]), pages) == Failure(PageNotFound(9, true)) &&
      Message(PageNotFound(9, true)) == "Cannot read properties of null (reading 'properties')"
  {
    var pages := map[2 := Page("042", None)];
    var refs: seq<RefId> := [2, 9];
    assert IsThreeDigits("042");
    assert refs[..1] == [2] && refs[..1][..0] == [];
    assert DirectTag(refs[..1], pages) == Some("042");
    RefErrorSnoc(refs[..1], 9, pages);
    assert refs[..1] + [9] == refs;
  }

  /** The `forEach` over one page's `tags`: `refTag = refTag || tagMatch(t)` for each tag in turn. */
  method ScanTags(ghost seen: seq<string>, refTag: Option<string>, ts: seq<string>) returns (r: Option<string>)
    requires refTag == FirstCode(seen)
    ensures r == FirstCode(seen + ts)
  {
    r := refTag;
    var k := 0;
    assert seen + ts[..0] == seen;
    while k < |ts|
      invariant 0 <= k <= |ts|
      invariant r == FirstCode(seen + ts[..k])
    {
      assert seen + ts[..k + 1] == (seen + ts[..k]) + [ts[k]];
      FirstSomeSnoc(seen + ts[..k], ts[k], TagMatch);
      r := OrElse(r, TagMatch(ts[k]));
      k := k + 1;
    }
    assert ts[..k] == ts;
  }

  /** `resolveTag`'s loop over the path references, with the two running choices `tag` and `refTag`. */
  method ResolveTag(entry: Node, pages: PageStore) returns (r: Result<string, Error>)
    ensures r == EntryTag(entry, pages)
  {
    var refs := entry.pathRefs;
    var tag: Option<string> := None;
    var refTag: Option<string> := None;
    var i := 0;
    while i < |refs|
      invariant 0 <= i <= |refs|
      invariant RefError(refs[..i], pages).None?
      invariant tag == DirectTag(refs[..i], pages)
      invariant refTag == FirstCode(AllTags(refs[..i], pages))
    {
      var id := refs[i];
      assert refs[..i + 1] == refs[..i] + [id];
      RefErrorSnoc(refs[..i], id, pages);
      DirectTagSnoc(refs[..i], id, pages);
      if id !in pages {
        RefErrorPrefix(refs, i + 1, pages);
        return Failure(PageNotFound(id, tag.Some?));
      }
      var page := pages[id];
      tag := OrElse(tag, TagMatch(page.name));
      if page.properties.Some? {
        if page.properties.value.tags.None? {
          RefErrorPrefix(refs, i + 1, pages);
          return Failure(TagsNotFound(id));
        }
        var ts := page.properties.value.tags.value;
        refTag := ScanTags(AllTags(refs[..i], pages), refTag, ts);
      } else {
        assert AllTags(refs[..i], pages) + [] == AllTags(refs[..i], pages);
      }
      assert AllTags(refs[..i + 1], pages) == AllTags(refs[..i], pages) + PageTags(id, pages);
      i := i + 1;
    }
    assert refs[..i] == refs;
    tag := OrElse(tag, refTag);
    if tag.None? {
      r := Success(entry.content);
    } else {
      r := Success(tag.value);
    }
  }
}
