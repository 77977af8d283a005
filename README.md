# Journal summary: a Dafny model of the time aggregation

This project models the core of the Logseq plugin *journal-summary*: the
handler that runs when a `{{renderer journal-summary}}` macro is rendered.
The handler finds the page's log block (the first root block whose text is the
`keyword` setting, `## Log` by default), descends `nest` levels below it
(default 1), reads an `HH:MM - HH:MM` range from each block's text, gives each
timed block a category tag, adds up hours per tag, sorts the tags and appends a
grand total. A failure at any step replaces the table with the error text.

Modules, one per stage of the handler:

- `Wrappers`: `Option`, `Result`, and `OrElse`, which is JavaScript's `a || b` on values that are either unset or a non-empty string.
- `Search`: `FirstSome`, the scan `acc = acc || probe(x)` that the handler performs for the log block, page names, property tags and thrown errors.
- `JsText`: the regex classes `\d` and `\s`, and JavaScript's string order with its order lemmas.
- `TimeRange`: the regular expression `(?<start>\d{2}:\d{2})\s*-\s*(?<end>\d{2}:\d{2})`, written out as a scanner (pure functions), and the signed elapsed minutes.
- `Outline`: the inputs (block tree, page store, settings) and the errors.
- `Flatten`: the log-block lookup, and the `nest` loop as a method proved against `Descend`.
- `Tags`: `tagMatch`, plus the reference loop as a method (`ResolveTag`, with `ScanTags` for the inner `forEach`) proved against a declarative `EntryTag`.
- `Aggregation`: the per-block callback, `Promise.all` followed by the `undefined` filter, and the `reduce` into a dictionary as a loop (`Accumulate`).
- `Report`: `Object.entries`, the in-place sort on an array, and the total's `reduce`.
- `Summary`: the whole run (`Summarize`) and the result it must produce (`IsOutcome`).

Numbers: durations are whole minutes (`int`). Hours are `real`, `minutes / 60`, so
sums are exact. A tag's value in the source is the float sum of `elapsed / 60`
over its entries. In exact arithmetic that equals the tag's minutes divided by 60,
which is what the model stores.

Inputs in place of host calls: the page's root blocks are a `seq<Node>`. `getPage`
is a `map<RefId, Page>`: an id missing from the map is a `getPage` that returned
`null`. The two settings are a `Settings` value passed in.

Failures, all caught at index.js:159-165 and shown as text:
- `LogNotFound(keyword)`: no root block's text equals the keyword. The message is `"<keyword>" not exist`.
- `PageNotFound(id, tagged)`: `getPage` returned null. Reading `ref.name` throws, unless an earlier page name already set `tag`: then `||` skips `ref.name` and reading `ref.properties` throws. The flag records which, because the two messages differ.
- `TagsNotFound(id)`: the page has `properties` but no `tags`, so `forEach` throws.
- `EmptyReduce`: no block had a time range, so the total's `reduce` has no initial value and throws on the empty list.

## Model

| member | source | states |
|---|---|---|
| `Search.FirstSome` | index.js:84-89 | the `x = x \|\| f(y)` scan yields nothing iff every probe yields nothing; otherwise it yields the probe of the earliest element whose probe is set |
| `Search.FirstSomePrefix` | index.js:82-91 | once a prefix has produced a value, later elements never change it (the first throw or first tag is final) |
| `JsText.StrLessTransitive` | index.js:118 | JavaScript's string `<` is transitive |
| `JsText.StrLessConnected` | index.js:118 | two different strings are always ordered one way or the other, so the comparator is consistent on distinct keys |
| `JsText.StrLessAsymmetric` | index.js:118 | the string `<` never holds both ways |
| `JsText.StrLessIrreflexive` | index.js:118 | no string is below itself |
| `TimeRange.SkipSpaces` | index.js:66 | greedy `\s*`: the returned position ends a run of whitespace that cannot be extended |
| `TimeRange.ClockValue` | index.js:72-78 | `parseInt` of two digits gives an hour and a minute in 0..99, with no range check |
| `TimeRange.MatchAtIsPattern` | index.js:65-67 | the scanner matches at a position exactly when the regular expression does, with the same `start` and `end` groups |
| `TimeRange.LeftmostFromIsLeftmost` | index.js:65-67 | the search from a position returns the match at the first position at or after it where one exists |
| `TimeRange.ParseRangeIsLeftmost` | index.js:65-70 | `match` yields nothing iff the pattern matches nowhere; otherwise it yields the leftmost match only |
| `TimeRange.ParseRangeClocks` | index.js:65-78 | every clock a match yields has hour and minute in 0..99, with no check that they are a valid time |
| `TimeRange.Elapsed` | index.js:75-78 | end minus start in minutes, signed and not wrapped; for two-digit clocks it lies within ±(99·60+99) |
| `TimeRange.ElapsedExamples` | index.js:65-78 | `09:00 - 10:30` parses and spans 90 minutes; `14:05-14:50` parses and spans 45; `23:30-00:15` parses and spans -1395, since nothing wraps at midnight |
| `Flatten.FindLog` | index.js:51-56 | yields nothing iff no root block's text equals the keyword; otherwise yields the first block whose text equals it |
| `Flatten.ChildrenAppend` | index.js:60 | a round of `map(children).flat()` distributes over concatenation, keeping order |
| `Flatten.ChildlessContributesNothing` | index.js:60 | a block without children adds nothing to the next round |
| `Flatten.ChildrenMembers` | index.js:60 | a block is in the next round iff it is a child of some block of this round |
| `Flatten.DescendOneMore` | index.js:59-61 | `k+1` rounds are `k` rounds followed by one more, in the loop's order |
| `Flatten.FlattenNest` | index.js:58-61 | the loop's list equals `Descend(children, nest)`; with `nest <= 0` it is the log block's children unchanged |
| `Tags.TagMatch` | index.js:22-25 | returns the name itself exactly when it is three ASCII digits, and nothing otherwise |
| `Tags.DirectTag` | index.js:82-84 | the name of the earliest referenced page whose name is three digits; nothing iff there is none |
| `Tags.FirstCode` | index.js:86-90 | the earliest three-digit string in the list; nothing iff there is none |
| `Tags.RefErrorIsFirst` | index.js:82-91 | nothing is thrown iff every reference's page exists and has `tags` whenever it has properties; otherwise the error is the earliest failing reference's, and for a missing page it records whether an earlier page name had set `tag` |
| `Tags.RefErrorPrefix` | index.js:82-91 | once a reference has thrown, the later references cannot change the failure |
| `Tags.NullPageAfterTagExample` | index.js:84-86 | with page `042` first and page 9 missing, the failure is the null read of `properties`, not of `name` |
| `Tags.TagFailsIff` | index.js:82-91 | resolving a tag fails exactly when some reference's page is missing or has properties without `tags` |
| `Tags.DirectTagWins` | index.js:84 | the earliest three-digit page name is the tag, whatever the property tags are |
| `Tags.PropertyTagFallback` | index.js:86-92 | with no three-digit page name, the earliest three-digit property tag (references in order, then tags in order) is the tag |
| `Tags.ContentFallback` | index.js:93-100 | with neither kind of code, the tag is the block's text, verbatim |
| `Tags.PrecedenceExample` | index.js:80-100 | a page named `042` wins over a property tag `007` on another referenced page |
| `Tags.ScanTags` | index.js:87-89 | the `forEach` leaves `refTag` at the first three-digit code among the tags seen so far and then this page's tags |
| `Tags.ResolveTag` | index.js:80-100 | the reference loop's result equals `EntryTag`: the failure of the first throwing reference, else page-name tag, else property tag, else the text |
| `Aggregation.CallbackResult` | index.js:64-106 | the callback yields nothing for a block without a time range; for a timed block it fails iff some path reference does not resolve, and otherwise yields the resolved tag with the span's signed minutes |
| `Aggregation.GatherFailIff` | index.js:63-64 | `Promise.all` fails iff some callback fails; the error is the first failing block's |
| `Aggregation.GatherAppend` | index.js:107-111 | gathering a concatenation gives the first failure, or the two entry lists joined in order |
| `Aggregation.EntriesFailIff` | index.js:63-107 | collecting fails iff some timed block's tag cannot be resolved, with the first such block's error; blocks without a time range never fail |
| `Aggregation.UntimedContributesNothing` | index.js:68-70 | a block without a time range yields nothing, wherever it stands |
| `Aggregation.CollectEntries` | index.js:63-111 | the loop's result equals `Entries`: one entry per timed block, in order, or the first failure |
| `Aggregation.TagSet` | index.js:109-116 | a tag is in the set iff some entry carries it |
| `Aggregation.TagMinutesAbsent` | index.js:113 | a tag that no entry carries sums to zero |
| `Aggregation.Accumulate` | index.js:109-116 | the dictionary's keys are exactly the entries' tags, and each value is the sum of that tag's minutes |
| `Aggregation.GatherTags` | index.js:109-116 | the gathered entries' tags are exactly the tags of the entries among the callback results |
| `Aggregation.KeysAreTimedTags` | index.js:63-116 | a tag is a key iff some block with a time range resolved to it |
| `Report.EntriesOf` | index.js:109 | `Object.entries` gives one row per key, holding that key's hours, with distinct tags |
| `Report.SwapDown` | index.js:118 | exchanging two neighbouring cells keeps the same rows and distinct tags |
| `Report.InsertDown` | index.js:118 | one insertion step extends the strictly ascending prefix by one cell, keeps the same rows and leaves the cells after it untouched |
| `Report.SortByTag` | index.js:118 | after the sort the rows are strictly ascending by tag and a permutation of the rows before it |
| `Report.ReduceAdd` | index.js:134-136 | `reduce` without an initial value fails iff the list is empty; otherwise it returns the sum of the list |
| `Report.AscendingUnique` | index.js:118 | two strictly ascending lists of the same rows are equal |
| `Report.SortOrderExample` | index.js:118 | rows tagged `042`, `007`, `100`, in any arrival order, can only be shown as `007`, `042`, `100` |
| `Report.RowsOfShared` | index.js:109 | two row lists that both state a dictionary hold the same pairs |
| `Report.ReportUnique` | index.js:109-136 | the table is determined by the dictionary alone, whatever order `Object.entries` produced |
| `Report.RowMinutesSnoc` | index.js:113 | one more entry adds its minutes to the row of its tag and nowhere else |
| `Report.RowMinutesNoEntries` | index.js:112-115 | with no entries every row sums to zero |
| `Report.RowMinutesTotal` | index.js:112-116 | summing each distinct tag's minutes, over rows that cover every tag, gives all the entries' minutes |
| `Report.HoursColumnSum` | index.js:104 | the hours column sums to the rows' total minutes divided by 60 |
| `Report.EntryHoursTotal` | index.js:104 | the sum of every entry's `elapsed / 60` is the total minutes divided by 60 |
| `Report.GrandTotal` | index.js:134-136 | the total row, the sum of the per-tag values, also equals the sum of every timed entry's hours |
| `Summary.SortedRowsOf` | index.js:118 | a sorted permutation of the dictionary's rows still states exactly the dictionary |
| `Outline.Message` | index.js:55 | the missing-log text is the keyword in double quotes followed by ` not exist`, so the keyword can be read back from it |
| `Summary.BuildReport` | index.js:109-136 | an empty dictionary fails with the `reduce` error; otherwise the result is the strictly ascending rows of the dictionary and their sum |
| `Summary.Summarize` | index.js:51-136 | a missing log block fails naming the keyword; otherwise it fails with the first resolution error, or with the `reduce` error when no block is timed, or returns the sorted per-tag table of the timed entries |
| `Summary.OutcomeUnique` | index.js:42-166 | two runs on the same blocks, settings and pages have the same outcome |
| `Summary.MissingLogExample` | index.js:51-56 | with the default settings and no `## Log` root block, the run fails with `LogNotFound("## Log")`, whose text is `"## Log" not exist` |

## Left out

- The host calls `getBlock`, `getPage` and `getPageBlocksTree` (index.js:47-49, 83) are I/O. The model takes the page's root blocks and a page map as inputs. A `getPage` that rejects, rather than returning null, is not modelled.
- `Promise.all` runs the callbacks concurrently (index.js:63-64). The model runs them in block order. When several blocks fail, the model reports the first failing block's error; JavaScript reports whichever rejection happens first in time.
- The `console.warn` diagnostics and their fire-and-forget `getPage` calls (index.js:93-98) are side effects with no effect on the result.
- The HTML (rows, total row, `provideUI`, `data-slot-id`, the `journal-summary-<slot>` key) is not modelled (index.js:120-158, 160-165). Nor is the `Error: ` / `TypeError: ` prefix that `${e}` puts before the message. `Outline.Message` gives only the message text.
- Not modelled: the settings schema, the slash command, `jumpTag` navigation and bootstrap (index.js:2-20, 28-40, 172).
- IEEE-754 rounding of `elapsed / 60` and of the sums is not modelled. Hours are exact reals.
- `JsText.StrLess` orders characters by code point. JavaScript orders strings by UTF-16 code unit. The two orders differ only when comparing a character above U+FFFF with one in U+E000-U+FFFF.
- `Report.SortByTag` is an insertion sort, not the engine's own algorithm. With distinct keys, any correct sort gives the same result (`Report.AscendingUnique`).
- `Report.EntriesOf` leaves the order of `Object.entries` open. JavaScript puts integer-like keys first and then uses insertion order. The order is irrelevant once the rows are sorted.
- `nest` is an integer. A fractional `nest` would make the JavaScript loop run `ceil(nest)` times; this is not modelled. A negative `nest` gives zero rounds, as in the source.
- Page names and `tags` entries are strings, and `tags` is a list. A `tags` value of another type is not modelled.
- Dictionary keys that collide with `Object.prototype` members (`constructor`, `toString`, ...) are not modelled. Such a key cannot occur: every tag is either three digits or a block text that contains a time range.
