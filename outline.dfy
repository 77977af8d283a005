/**
 * The read-only inputs of one summary run: the page's block tree, the pages
 * that blocks refer to, and the two plugin settings; and the ways a run fails.
 */
module Outline {
  import opened Wrappers

  /** The `id` of a block's path reference. */
  type RefId = int

  /** One block of the outline: its text, its child blocks in order, and its path references. */
  datatype Node = Node(content: string, children: seq<Node>, pathRefs: seq<RefId>)

  /** A page's property bag: the `tags` entry may be missing. */
  datatype Props = Props(tags: Option<seq<string>>)

  /** A page as `getPage` returns it: its name and, when it has any, its properties. */
  datatype Page = Page(name: string, properties: Option<Props>)

  /** What `getPage` answers for each id; an id absent from the map makes `getPage` return null. */
  type PageStore = map<RefId, Page>

  /** The `keyword` and `nest` settings. */
  datatype Settings = Settings(keyword: string, nest: int)

  /** The settings' declared defaults, `"## Log"` and `1`. */
  const DefaultSettings := Settings("## Log", 1)

  /** The failures that end a run, each caught and shown in place of the table. */
  datatype Error =
    | LogNotFound(keyword: string)   // no root block's text equals the keyword
    | PageNotFound(ref: RefId, tagged: bool)  // `getPage` returned null; reading `name`, or `properties` when `tagged`, throws
    | TagsNotFound(ref: RefId)       // the page has properties but no `tags`, so `forEach` throws
    | EmptyReduce                    // `reduce` without an initial value on an empty list

  /** The error text as it is thrown; the last three are the JavaScript engine's own messages. */
  function Message(e: Error): (r: string)
    ensures e.LogNotFound? ==>
      |r| == |e.keyword| + 12 && r[0] == '"' && r[1..|e.keyword| + 1] == e.keyword &&
      r[|e.keyword| + 1..] == "\" not exist"
  {
    match e
    case LogNotFound(keyword) => "\"" + keyword + "\" not exist"
    case PageNotFound(_, tagged) =>
      "Cannot read properties of null (reading '" + (if tagged then "properties" else "name") + "')"
    case TagsNotFound(_) => "Cannot read properties of undefined (reading 'forEach')"
    case EmptyReduce => "Reduce of empty array with no initial value"
  }
}
