# Developer directory page: a Dafny model

This project models the single React page of the talent-particles
directory (`src/pages/Index.jsx`). The page fetches developer records from a
key-value store under the key prefix `developer:`, shows them as cards, lets
the user filter them by a case-insensitive search term, and adds a new record
from a three-field form.

The model has five modules:

- `Strings` (strings.dfy): the JavaScript string operations the page uses.
  These are `toLowerCase`, `includes`, `trim` and `split`. The page never
  joins; `Join` is there only to state that `split` loses nothing. Lower-casing
  and trimming are ASCII approximations of JavaScript's Unicode behaviour.
  Only `A`..`Z` are lower-cased. Only space, tab, CR and LF count as whitespace.
- `Options` (options.dfy): `Option`, where `None` stands for a null answer.
- `KeyValue` (keyvalue.dfy): the store client. `Store` is a class whose
  contents are a map. `Set` is the keyed write. `IsPrefixListing` says which
  answers a prefix query may give: every binding under the prefix, each once,
  in any order. `PrefixListing` shows that every store has such an answer.
- `Developers` (developers.dfy): records and the page's pure logic. This is
  the entry-to-record mapping, the search filter (`Matches`, `Filter`), and the
  draft-to-record conversion (`SplitTrim`, `DraftKey`, `DraftProfile`).
- `IndexPage` (index_page.dfy): the component as a class `Page`. Its fields
  are the four `useState` values. Its methods are the event handlers, and each
  one states the whole new state in terms of the `Developers` functions.

Three behaviours of the code are easy to misread, and the model follows the
code in each:

- A loaded record's `id` is the whole store key, prefix included
  (`"developer:Ada"`), because line 19 spreads `d.value` and sets `id: d.key`.
  Nothing strips the prefix. `LoadedIds`, `ToRecordsAt` and `LoadOneExample`
  state this.
- An empty list from the store is truthy in JavaScript. So `Load(Some([]))`
  empties both lists; only a null answer is ignored.
- An empty technologies field gives `[""]`, one empty technology, not an
  empty list (`SplitTrimEmpty`).

External inputs are parameters. `Add` takes the store's answer to the write
(`success`) and its answer to the reload's prefix query (`listing`, `None`
for a null answer). `Load`
takes the query's answer (`data`). `Search` takes the search box's new
contents (`raw`). The `Edit…` methods take the form field's new value.

## Model

| member | source | states |
|---|---|---|
| `Strings.LowerChar` | src/pages/Index.jsx:25 | each ASCII capital becomes its small letter (32 code points on), the result is never a capital, and non-capitals are kept |
| `Strings.Lower` | src/pages/Index.jsx:25 | `toLowerCase` keeps the length, lower-cases every character in place (each capital becomes its small letter), leaves no ASCII capital and keeps every other character |
| `Strings.LowerIdempotent` | src/pages/Index.jsx:25-30 | lower-casing the stored search term again changes nothing |
| `Strings.Contains` | src/pages/Index.jsx:30 | `includes` never finds a term longer than the string |
| `Strings.ContainsIffOccurs` | src/pages/Index.jsx:30 | `includes` holds exactly when the term occurs at some index of the string (both directions) |
| `Strings.ContainsEmpty` | src/pages/Index.jsx:27-30 | the empty term is contained in every string |
| `Strings.LeadingIsSpaceRun` | src/pages/Index.jsx:48 | the leading run counted is all whitespace and is followed by a non-whitespace character or the end |
| `Strings.TrailingIsSpaceRun` | src/pages/Index.jsx:48 | the trailing run counted is all whitespace and is preceded by a non-whitespace character or the start |
| `Strings.Trim` | src/pages/Index.jsx:48 | `trim` leaves no whitespace at either edge of the result |
| `Strings.TrimCutsOnlySpace` | src/pages/Index.jsx:48 | `trim` returns a contiguous piece of its input, and every character cut off on either side is whitespace |
| `Strings.TrimAll` | src/pages/Index.jsx:48 | `map((tech) => tech.trim())` gives one piece per piece, none with whitespace at an edge |
| `Strings.TrimNoEdgeSpace` | src/pages/Index.jsx:48 | a string with no whitespace at its edges trims to itself |
| `Strings.TrimIdempotent` | src/pages/Index.jsx:48 | trimming twice is the same as trimming once |
| `Strings.CountIsMultiplicity` | src/pages/Index.jsx:48 | proof tool: the separator count is the number of occurrences of the character in the string |
| `Strings.Split` | src/pages/Index.jsx:48 | `split` yields one piece more than there are separators, so empty pieces are kept |
| `Strings.SplitOmitsSeparator` | src/pages/Index.jsx:48 | no piece of a split contains the separator |
| `Strings.SplitNoSeparator` | src/pages/Index.jsx:48 | a string without the separator splits into itself alone |
| `Strings.SplitFirst` | src/pages/Index.jsx:48 | the piece before the first separator comes first, then the split of the rest |
| `Strings.SplitTwo` | src/pages/Index.jsx:48 | `a,b` with separator-free halves splits into `[a, b]` |
| `Strings.JoinConsFirst` | src/pages/Index.jsx:48 | proof tool for `JoinSplit`: a character at the front of the first piece stays at the front of the join |
| `Strings.JoinSplit` | src/pages/Index.jsx:48 | joining the split pieces with the same separator gives the original string back |
| `KeyValue.IsPrefixListing` | src/pages/Index.jsx:17 | an answer to `getWithPrefix` has exactly the store's prefixed keys as its key set |
| `KeyValue.ListingSkip` | src/pages/Index.jsx:17 | a binding outside the prefix does not change which answers the prefix query may give |
| `KeyValue.ListingAppend` | src/pages/Index.jsx:17 | appending a new prefixed binding to an answer gives an answer for the larger store |
| `KeyValue.PrefixListing` | src/pages/Index.jsx:17 | every store has an answer to `getWithPrefix`: each prefixed binding exactly once and nothing else |
| `KeyValue.Store.constructor` | src/pages/Index.jsx:4 | a client starts with the given contents |
| `KeyValue.Store.Set` | src/pages/Index.jsx:49 | `set` reports the store's answer; on success the value replaces whatever was at the key, on failure nothing is written |
| `Developers.ToRecord` | src/pages/Index.jsx:19 | a record's id is its pair's whole key, and the pair can be rebuilt from the record |
| `Developers.ToRecords` | src/pages/Index.jsx:19-20 | the mapping keeps the number of entries |
| `Developers.ToEntries` | src/pages/Index.jsx:19 | proof tool for `ToRecordsRoundTrip`: rebuilding pairs from records keeps their number |
| `Developers.ToRecordsAt` | src/pages/Index.jsx:19 | record i comes from pair i: `id` is the full key, and name, location and technologies are copied |
| `Developers.ToRecordsRoundTrip` | src/pages/Index.jsx:19 | the mapping loses nothing: the pairs are rebuilt from the records, in order |
| `Developers.LoadedIds` | src/pages/Index.jsx:17-19 | loaded ids still start with `developer:`, are keys of the store, and are pairwise distinct |
| `Developers.SomeTechMatches` | src/pages/Index.jsx:30 | `technologies.some(...)` is false for an empty list and, for the empty term, true for every other list |
| `Developers.SomeTechMatchesIff` | src/pages/Index.jsx:30 | `technologies.some(...)` holds exactly when some lower-cased technology contains the term (both directions) |
| `Developers.Matches` | src/pages/Index.jsx:30 | a record matches exactly when its lower-cased name, its lower-cased location or some lower-cased technology contains the term (both directions) |
| `Developers.MatchesWithoutTechnologies` | src/pages/Index.jsx:30 | with no technologies, a record matches exactly when its name or location does |
| `Developers.MatchesEmptyTerm` | src/pages/Index.jsx:27-30 | every record matches the empty term |
| `Developers.Filter` | src/pages/Index.jsx:30 | the filter never grows the list, and every record it keeps matches the term |
| `Developers.FilterIsSubsequence` | src/pages/Index.jsx:30 | the filtered list is an order-preserving subsequence of `developers` |
| `Developers.FilterCount` | src/pages/Index.jsx:30 | each matching record is kept as often as it occurs, and each non-matching record is dropped |
| `Developers.FilterMembership` | src/pages/Index.jsx:30 | a record is in the filtered list exactly when it is in `developers` and matches (both directions) |
| `Developers.FilterKeepsAll` | src/pages/Index.jsx:30 | the filter returns its input unchanged exactly when every record matches (both directions) |
| `Developers.FilterEmptyTerm` | src/pages/Index.jsx:27-30 | the empty term keeps every record, so the `term === ""` shortcut agrees with the filter |
| `Developers.FilterIdempotent` | src/pages/Index.jsx:30-31 | filtering the filtered list again with the same term returns it unchanged |
| `Developers.TrimKeepsOut` | src/pages/Index.jsx:48 | trimming a piece without a comma leaves no comma |
| `Developers.TrimAllKeepsOut` | src/pages/Index.jsx:48 | trimming every piece keeps pieces free of a character they were free of |
| `Developers.SplitTrim` | src/pages/Index.jsx:48 | the technologies list has (number of commas) + 1 entries, empty ones kept, none with a comma or edge whitespace |
| `Developers.SplitTrimPieces` | src/pages/Index.jsx:48 | each entry is the trimmed piece at that position, and the untrimmed pieces joined with `,` are the input |
| `Developers.SplitTrimEmpty` | src/pages/Index.jsx:48 | an empty technologies field gives `[""]` |
| `Developers.SplitTrimTwo` | src/pages/Index.jsx:48 | a field with one comma gives its two trimmed halves |
| `Developers.DraftKey` | src/pages/Index.jsx:49 | the key starts with `developer:` and what follows the prefix is exactly the draft's name |
| `Developers.DraftKeyCollides` | src/pages/Index.jsx:49 | two drafts share a key exactly when their names agree (both directions) |
| `Developers.DraftProfile` | src/pages/Index.jsx:49 | name and location are copied, and technologies has one entry per comma-separated piece |
| `Developers.DraftRecordLoaded` | src/pages/Index.jsx:49-58 | after the write, any reload answer holds the draft's record, and it is the only record with that id |
| `Developers.LoadOneExample` | src/pages/Index.jsx:19 | one entry `developer:Ada` loads as a record with id `developer:Ada` |
| `Developers.SearchLocationExample` | src/pages/Index.jsx:30 | the term `nyc` matches a record located in `NYC` |
| `Developers.TrimExample` | src/pages/Index.jsx:48 | `"React"` and `" Node "` trim to `"React"` and `"Node"` |
| `Developers.SplitTrimExample` | src/pages/Index.jsx:48 | `"React, Node "` becomes `["React", "Node"]` |
| `IndexPage.Page.constructor` | src/pages/Index.jsx:7-9 | the page starts with empty lists, an empty search term and an empty form |
| `IndexPage.Page.Load` | src/pages/Index.jsx:16-22 | an answer replaces both lists with the mapped records, even when a search term is set; no answer changes nothing |
| `IndexPage.Page.Search` | src/pages/Index.jsx:24-33 | the stored term is the lower-cased input, the shown list is `developers` filtered by it (all records for `""`), filtering it again changes nothing, and `developers` is unchanged |
| `IndexPage.Page.EditName` | src/pages/Index.jsx:90 | only the draft's name changes |
| `IndexPage.Page.EditLocation` | src/pages/Index.jsx:91 | only the draft's location changes |
| `IndexPage.Page.EditTechnologies` | src/pages/Index.jsx:92 | only the draft's technologies string changes |
| `IndexPage.Page.Add` | src/pages/Index.jsx:47-60 | writes `DraftProfile` under `DraftKey`, overwriting; on success reloads both lists from a non-null answer, which then hold the new record, and keeps them on a null answer; on failure nothing changes; the draft is kept |

## Left out

- Rendering (src/pages/Index.jsx:62-98): the card layout, Chakra components and icons are presentational. The form fields' `onChange` handlers are modelled as the `Edit…` methods.
- Toasts: `sendMessage` (src/pages/Index.jsx:35-43) and the success toast (src/pages/Index.jsx:51-57) are UI side effects with no state.
- The `lib/crud` client is not part of this model. It is an abstract map with a prefix query and a keyed write. What a failed write does to the store is unknown, so the model writes nothing then.
- IndexPage.Page.Add: the store's two answers are inputs. a non-null `listing` is required to be one of the answers `IsPrefixListing` allows for the store after the write, in whatever order the store chooses. A null reload answer is allowed and leaves both lists as they were.
- `async`/`await` ordering, the `useEffect` mount trigger (src/pages/Index.jsx:12-14), the race between the first load and typing, stale closures, and double submits. These are event-loop matters. Each method is one atomic transition.
- Unicode: `toLowerCase` and `trim` are modelled for ASCII only. Non-ASCII capitals are not lower-cased, and non-ASCII whitespace, vertical tab and form feed are not trimmed.
- Malformed stored values (such as a missing `technologies`, which would crash the filter) and fields beyond name, location and technologies. A stored value is always a well-formed `Profile`.
