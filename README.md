# tap: a model of the Trade-a-Plane scraper

`tap.js` is a command-line scraper for the Trade-a-Plane aircraft
marketplace. It has two commands:

- `category` fetches one category page and prints the title of every make or
  model link on it, except "Show All Makes".
- `search` builds a search URL from its options and fetches the first results
  page. It reads the number of results from that page's heading, caps it with
  `--number`, and works out how many pages of 96 results to request. It
  fetches the remaining pages one after another. It then writes one JSON
  record per result block, page by page, stopping a page once the running
  count reaches the cap. In `--deep` mode it also fetches each listing's own
  page and adds its seven detail sections to the record.

Every request goes through `tapFetchSync`. It makes up to five blocking
attempts, sleeps 5000 ms after every non-200 response, and returns the first
status-200 body. After five failures it returns "".

The model is split into modules:

- `Url`: `parseRange` and `buildURL`.
- `Fetcher`: `tapFetchSync`.
- `ResultCount`: the heading match, the cap and the page plan.
- `Listing`: one result block turned into a record, and the detail sections.
- `Emission`: which blocks the cap lets through.
- `Search`: the two commands, as functions and as the loops the scraper runs.
- `Text`, `JsNumbers` and `Wrappers`: the JavaScript string and number
  operations the scraper relies on.

The network is an oracle. It answers attempt number `n` of the whole run for
a URL. A fetched page is read through the selector results it yields (`Dom`).

The model follows the code as written, including four behaviours a reader
of the scraper's intent might not expect:

- **Page count.** The number of pages is `Math.round(n / 96)`, plus one more
  page when 96 does not divide `n`. A ceiling division would give the pages
  needed. Whenever the remainder is 48 or more, the code asks for one page
  too many: 150 results give 3 pages, not 2. `PagesNeeded` is the ceiling
  division, and `PageCountVersusNeeded` states exactly when the two differ.
- **The cap is checked per page.** Reaching it ends only the current page's
  `each` loop. If the cap is reached before the last page, the later pages
  are still written whole (`CapOverrun`). With the extra page above, this
  happens, for instance, when the cap is 150.
- **No back-off after a thrown error.** The back-off sleep follows only a
  non-200 response, never a thrown transport error.
- **Five thrown errors crash the run.** When all five attempts throw, the
  final log line dereferences an undefined response and throws. The model
  calls this a `Fault`. It ends the command, and records already written
  stay written.

## Model

| member | source | states |
|---|---|---|
| Url.ParseRange | tap.js:34-45 | Both bounds are present exactly when the text has a single '-'. The text is then `min-max`, with no '-' in either bound. A malformed range gives no bounds. |
| Url.EncodeFraction | tap.js:63-64 | The encoded fraction contains no '/'. A choice without '/' passes through unchanged. A lone '/' becomes "%2F" and any other single character is kept. |
| Url.EncodeFractionAppend | tap.js:64 | Encoding a concatenation encodes each part and joins the results. With the one-character case, every '/' becomes "%2F" and every other character is kept, in order. |
| Url.EncodeFractionOf | tap.js:64 | A fraction `p/q` is sent as `p%2Fq`. |
| Url.FractionalValue | tap.js:57-66 | There is no `fractional_ownership` parameter exactly for "Any". "None" sends the whole-aircraft fraction `1%2F1`. Any other choice is sent as its encoded form. |
| Url.RangeParamsSpec | tap.js:74-94 | A `lo-hi` range yields `name-min=lo` and `name-max=hi` exactly when both bounds are non-empty, and nothing otherwise. |
| Url.RangeParamsMalformed | tap.js:34-45 | A range that does not split into two parts on '-' adds no parameter. |
| Url.SearchNames | tap.js:52-98 | The search query names its parameters in the scraper's fixed order. Each optional group appears exactly when its option is given: the fraction unless "Any", make, model and model group when set, each range when both bounds are given, the sort pair when a sort key is given. |
| Url.AircraftValue | tap.js:71-73 | Model group, model and make take their value in a search from the aircraft parameters, since no other parameter of the search carries those names. |
| Url.AircraftValues | tap.js:71-73 | A search sends the model group upper-cased with every space turned to '+', but the model and the make only upper-cased. Each is absent when its option is empty. |
| Url.ModelKeepsSpaces | tap.js:71-72 | A space in the model option reaches the query as a space, while the model group's spaces all become '+'. |
| Url.BuildURL | tap.js:47-114 | A URL is built exactly for the actions search, category and listing. Each such URL starts with the search prefix and '&'. A listing URL is the prefix plus the listing id. Any other action is an error with the scraper's message. |
| Url.CategoryURLForm | tap.js:100-104 | The category URL is the search prefix, `&s-type=aircraft;` with its stray ';', `&category_level1=` and the type with spaces turned to '+', then `&s-lvl=` and the level. |
| Url.ListingURLForm | tap.js:105-107 | The listing URL is the search prefix, `&listing_id=` and the id. Different ids give different URLs. |
| Url.RenderJoin | tap.js:52-107 | The query text of the search and category parameter lists is the `name=value` pieces joined with '&', after an initial '&'. |
| Url.QuerySplit | tap.js:214-215 | Splitting a rendered query on '&' gives back exactly its pieces, after the empty text in front. |
| Url.PairSplit | tap.js:217-219 | Splitting one `name=value` piece on '=' gives back the name and the value. |
| Fetcher.Fetch | tap.js:120-138 | One to five attempts are made. A fault comes only after all five attempts, and with no sleep taken. |
| Fetcher.FetchSpec | tap.js:120-138 | At most five attempts are made. The fetch stops at the first status-200 response and returns its body. Every earlier attempt failed. Without a 200, all five attempts are used, and the result is "" if any attempt responded and a fault otherwise. One sleep is taken per non-200 response. |
| Fetcher.FaultSleepsNone | tap.js:124-136 | A fetch that faults never slept, because no attempt responded. |
| Fetcher.RetryFrom | tap.js:125-137 | The same outcome and attempt count, for a fetch already some attempts in. |
| Fetcher.RetrySleeps | tap.js:125-134 | The sleeps taken are exactly the non-200 responses among the attempts made. |
| Fetcher.LastAttemptSucceeds | tap.js:125-130 | Four non-200 responses and then a 200 give that body on the fifth attempt, after four sleeps. |
| Fetcher.AllFailuresGiveEmpty | tap.js:125-137 | Five non-200 responses give "" after five attempts and five sleeps. |
| Fetcher.AllThrownFaults | tap.js:124-136 | Five thrown errors give a fault after five attempts and no sleep. |
| Fetcher.TapFetchSync | tap.js:120-138 | The retry loop, with its mutable last response, returns the result, the attempt count and the sleep count that `Fetch` specifies. |
| JsNumbers.ParseInt10 | tap.js:178 | `parseInt(_, 10)` is NaN exactly when, after leading white space and an optional sign, no decimal digit follows. A negative result needs a '-' in front. |
| JsNumbers.ParseIntIsNaN | tap.js:226 | Without a `0x` prefix, `isNaN(parseInt(s))` holds exactly when `parseInt(s, 10)` is NaN. |
| JsNumbers.NatToString | tap.js:55 | The decimal form of a number is non-empty, all digits, and has no leading zero. |
| JsNumbers.ParseInt10Digits | tap.js:178 | `parseInt(d, 10)` of a digit string is that string's decimal value. |
| JsNumbers.NatToStringRoundTrip | tap.js:178-186 | Reading a rendered number back with `parseInt(_, 10)` gives the number. |
| JsNumbers.NatToStringInjective | tap.js:186 | Different numbers render differently. |
| Text.TrimStart | tap.js:155 | Only leading white space is removed: the result is a suffix of the text, everything cut is white space, and the result does not start with white space. |
| Text.TrimEnd | tap.js:155 | Only trailing white space is removed: the result is a prefix of the text, everything cut is white space, and the result does not end with white space. |
| Text.Trim | tap.js:155 | `trim()` is never longer than the text and leaves no white space at either end. A blank text trims to "". |
| Text.TrimMiddle | tap.js:155 | `trim()` keeps one contiguous part of the text, and everything before and after that part is white space. With the result trimmed, that part runs from the first to the last character that is not white space. |
| Text.TrimSpacesBefore | tap.js:155 | Leading white space before a value that does not start with white space is removed exactly. |
| Text.TrimSpacesAfter | tap.js:155 | Trailing white space after a value that does not end with white space is removed exactly. |
| Text.TrimPadded | tap.js:155 | White space around a trimmed text is exactly what `trim()` removes. |
| Text.TrimTrimmed | tap.js:155 | `trim()` leaves a text without white space at its ends unchanged. |
| Text.RemoveSpaces | tap.js:174 | Removing `\s` never lengthens a text. A single white-space character is removed, and any other single character is kept. |
| Text.RemoveSpacesAppend | tap.js:174 | Removing white space from a concatenation removes it from each part. With the one-character case, exactly the white-space characters are deleted, and the rest keep their order. |
| Text.RemoveSpacesSpec | tap.js:173-174 | Removing `\s` leaves no white space. A text without white space is unchanged. |
| Text.MapChar | tap.js:69 | `replaceAll` of one character changes exactly that character, at every position, and keeps the length. |
| Text.ToUpper | tap.js:71-73 | Every character is upper-cased in place, and no lower-case ASCII letter is left. |
| Text.DeleteChar | tap.js:178 | The character is removed wherever it occurs. A text without it is unchanged. A single character is dropped exactly when it is that character. |
| Text.DeleteCharAppend | tap.js:178 | Deleting a character from a concatenation deletes it from each part. With the one-character case, exactly its occurrences are deleted, and the rest keep their order. |
| Text.DeleteSeparator | tap.js:178 | One separator between two separator-free parts is deleted, and the parts are joined. |
| Text.Split | tap.js:215-217 | A text has one more part than separators, and no part contains the separator. |
| Text.JoinSplit | tap.js:215-217 | Joining the parts of a split gives back the text. |
| Text.SplitJoin | tap.js:215-217 | Splitting separator-free parts joined by the separator gives back the parts. |
| ResultCount.ShowingMatch | tap.js:175-176 | The match found is the one the regular expression reports: it starts with "Showing", and its "of" is the last one that still leaves a "result" after it. It is absent exactly when the pattern cannot match. |
| ResultCount.CountText | tap.js:171-178 | There is a count text exactly when the heading is non-empty and matches once white space is removed. The count text has no ','. |
| ResultCount.CountOf | tap.js:171-178 | A number is read exactly when the heading yields a count text. |
| ResultCount.MatchIsLast | tap.js:175-176 | With no later "result" and no later "of" before it, the match is at that "of" and that "result". |
| ResultCount.CountTextOfMatch | tap.js:171-178 | The count text is the match's capture with every ',' deleted. |
| ResultCount.CountReadsBack | tap.js:171-178 | A heading whose capture, once its ',' are deleted, is the decimal form of `n` reports `n`. |
| ResultCount.CountWithSeparator | tap.js:171-178 | A capture with a thousands separator, such as "1,234", reports the number its digits spell, 1234. |
| ResultCount.EffectiveCap | tap.js:179-180 | Without `--number` the cap is the count. NaN on either side gives NaN. Otherwise the cap is the smaller of the count and the limit. |
| ResultCount.PageCount | tap.js:183 | A numeric count gives at least one page, and a count of at most 96 (zero and negative counts included) gives exactly one. |
| ResultCount.PagesNeeded | tap.js:183 | For a positive count, the fewest pages of 96 that hold it. A count of at most 96, zero and negative included, needs one page. |
| ResultCount.PageCountCovers | tap.js:183 | There is always at least one page, and the pages hold all the results. |
| ResultCount.PageCountVersusNeeded | tap.js:183 | The page count equals the pages needed exactly when the count is at most 96 or the remainder is below 48. Otherwise it is one page more. |
| ResultCount.PageCountOverCounts | tap.js:183 | 150 results give 3 pages where 2 are needed. |
| ResultCount.PageCountMultiple | tap.js:183 | `q` times 96 results give exactly `q` pages. |
| ResultCount.PageURLInjective | tap.js:186 | Different page numbers give different page URLs. |
| ResultCount.PageURLs | tap.js:184-187 | The page loop makes exactly the URLs of pages 1 to `totalPages`, in order. |
| Listing.Record.ModelGroup | tap.js:206-207 | The model group is trimmed and no longer than the attribute. |
| Listing.Record.Title | tap.js:211-212 | The title is trimmed and no longer than the link text. |
| Listing.Record.Year | tap.js:225-226 | The year is the title's first space-separated word exactly when `parseInt` reads a number from that word, and is otherwise "Not Listed". A listed year is a space-free word the title starts with. |
| Listing.Record.Price | tap.js:227-228 | The price is trimmed and no longer than its area's text. |
| Listing.Record.Registration | tap.js:229-230 | The registration is no longer than its area's text. |
| Listing.Record.TotalTime | tap.js:231-232 | The total time is no longer than its area's text. |
| Listing.Record.Address | tap.js:233-234 | The address is trimmed and no longer than its area's text. |
| Listing.Record.LastUpdated | tap.js:235 | The last update is no longer than its area's text. |
| Listing.Record.Sections | tap.js:237-255 | The detail sections are present exactly when the listing page was read, and each of the seven is trimmed. |
| Listing.CutFirst | tap.js:235 | The single removal never lengthens the text. Without the label it changes nothing. Otherwise everything before the label's first occurrence is kept. |
| Listing.CutAll | tap.js:230-232 | The global removal never lengthens the text. Without the label it changes nothing. Otherwise everything before the label's first occurrence is kept. |
| Listing.CutText | tap.js:214 | A string `replace` with no occurrence changes nothing. A leading occurrence is cut off. |
| Listing.KeyValue | tap.js:217-219 | A query piece is used exactly when it contains a single '='. It is then `key=value`. |
| Listing.ApplyPiece | tap.js:216-224 | One piece sets the field it names to its value with '+' turned to space. Every other field keeps its presence and value. |
| Listing.ApplyPieces | tap.js:216-224 | Applying the pieces never drops a field. |
| Listing.LastValue | tap.js:216-224 | A value found for a field is the value of some well-formed piece naming that field. |
| Listing.LastValueSpec | tap.js:216-224 | No value is found exactly when no piece names the field. A value found is that of a piece naming the field after which no piece names it. |
| Listing.ApplyPiecesLast | tap.js:216-224 | The later piece wins. Each field holds the '+'-to-space form of the last piece that names it. A field no piece names keeps its old value. |
| Listing.LinkFields | tap.js:211-224 | A link field is present exactly when some piece of the title link's query names it. It then holds the '+'-to-space form of the last such piece's value. |
| Listing.LinkFieldsOfQuery | tap.js:211-224 | A title link written like a search query reads back, for make, model, type and category, the last parameter naming each field, with '+' turned to space. A field no parameter names is absent. |
| Listing.YearOf | tap.js:225-226 | The year is the title's first space-separated word whenever `parseInt` reads a number from it, and is "Not Listed" otherwise. That word contains no space and starts the title. |
| Listing.YearOfTitle | tap.js:225-226 | A title starting with a number and a space lists that number as its year. |
| Listing.YearNotListed | tap.js:225-226 | A title whose first character cannot start a number lists no year. |
| Listing.LabelStripped | tap.js:229-235 | A label, white space and a value with no label in it lose the label and the white space under both the global and the single removal. |
| Listing.FirstVersusAll | tap.js:229-235 | For a label repeated twice, the single removal (Last Update) keeps the second copy, and the global removal (Reg#, TT:) removes both. |
| Listing.CutAllJoins | tap.js:230 | The global removal deletes a label in the middle of a text and joins the two sides. |
| Listing.CutAllNotIdempotent | tap.js:230 | The global removal does not search the text it brings together again, so a second pass can remove more. |
| Listing.LabelledArea | tap.js:229-235 | A labelled area with white space around it, once trimmed and cleaned, reads as its bare value under either removal. |
| Listing.RecordLabels | tap.js:229-235 | A record's registration, total time and last update are the values after "Reg#", "TT:" and "Last Update:", whatever white space surrounds the areas. |
| Listing.RegistrationOf | tap.js:229-230 | The registration is the value after "Reg#" and white space, with the white space around the area cut. |
| Listing.TotalTimeOf | tap.js:231-232 | The total time is the value after "TT:" and white space, with the white space around the area cut. |
| Listing.LastUpdatedOf | tap.js:235 | The last update is the value after "Last Update:" and white space, with the white space around the area cut. |
| Listing.ModelGroupOf | tap.js:206-207 | For any white space around it, a record's model group is its area's text without that white space. |
| Listing.TitleOf | tap.js:211-212 | For any white space around it, a record's title is the link text without that white space. |
| Listing.PriceOf | tap.js:227-228 | For any white space around it, a record's price is its area's text without that white space. |
| Listing.AddressOf | tap.js:233-234 | For any white space around it, a record's address is its area's text without that white space. |
| Emission.Emit | tap.js:198-265 | No more blocks are written than the pages hold. The first block of the first page is always written, since the cap is tested only after a write. |
| Emission.PageTake | tap.js:261-263 | A page writes at least one block if it has any. The count never passes the cap within the page. A page is cut short only where the count hits the cap. |
| Emission.PageTakeAll | tap.js:203-264 | A page on which the cap cannot be hit is written whole. |
| Emission.EmitUncapped | tap.js:198-265 | A NaN cap, a cap of zero or less, or a count already at the cap lets every block of every page through. |
| Emission.EmitCapOnLastPage | tap.js:198-265 | When the cap falls on the last page, exactly the first `cap` blocks across all pages are written. |
| Emission.CapOverrun | tap.js:198-265 | A cap reached on the first page ends only that page. The later pages are written whole. |
| Search.Written | tap.js:204-256 | The record written for a block holds that block and the run's time stamp. Without deep mode it always exists, has no details and fetches nothing. It is missing only when deep mode's listing fetch faults. |
| Search.WrittenDeep | tap.js:237-255 | In deep mode the record holds the sections of the page its listing fetch gave. |
| Search.WriteBlocks | tap.js:203-264 | The count rises by one per record written, and a page writes at most one record per block. Only deep mode can abort. |
| Search.WritePages | tap.js:198-265 | Over all pages, the count rises by one per record written. Only deep mode can abort. |
| Search.FetchAll | tap.js:192-194 | Without a fault, one text is fetched per URL. Attempts only accumulate. |
| Search.FetchAllContents | tap.js:192-194 | Each text fetched is the body a fetch of the URL at its position gave. A stop means that the fetch of the next URL faulted. |
| Search.LaterPages | tap.js:184-194 | After the first page, pages 2 to `totalPages` are fetched in order. Each comes from its own URL, and none is the search URL the first page came from. |
| Search.FetchPages | tap.js:192-194 | The page loop produces the texts, the fault and the attempt count of `FetchAll`. |
| Search.WriteBlocksShallow | tap.js:203-264 | Without deep mode, a page writes its blocks up to the cap as records without details. Nothing is fetched and nothing aborts. |
| Search.WritePagesShallow | tap.js:198-265 | Without deep mode, the run writes exactly the blocks the cap lets through, as records without details. The count rises by their number. |
| Search.WriteBlocksDeep | tap.js:203-264 | In deep mode, one page writes the records a shallow run writes, with details added. A listing fetch fault cuts them short. |
| Search.WritePagesDeep | tap.js:198-265 | The same holds over all pages, with the same final count when no fault occurs. |
| Search.DeepBlocks | tap.js:203-256 | In deep mode, every record a page writes holds the sections of its own listing page, as a fetch made during the run gave them. |
| Search.DeepPages | tap.js:198-265 | The same holds for every record of every page. |
| Search.DeepSelection | tap.js:198-265 | Deep mode writes the blocks the cap lets through: all of them, or a prefix of them when a listing fetch faults. Each record holds the sections of its own listing page. |
| Search.StampedPages | tap.js:236 | Every written record carries the run's single time stamp. |
| Search.ResultsFrom | tap.js:183-265 | After the first page, every record written carries the run's time stamp. In deep mode each holds the sections of its own listing page. |
| Search.SearchFrom | tap.js:165-267 | Records are written only when the first page arrives and its heading reports a count. Each carries the run's time stamp. In deep mode each holds the sections of its own listing page. |
| Search.Search | tap.js:161-268 | Every record written carries the run's time stamp. In deep mode each holds the sections of its own listing page. |
| Search.SearchShallow | tap.js:161-268 | Without deep mode, a search writes nothing when the heading gives no count. Otherwise, once every page arrives, it writes exactly the blocks the effective cap lets through from the first page and the later pages. |
| Search.SearchDeep | tap.js:161-268 | In deep mode, a search writes nothing when the heading gives no count. Otherwise, once every page arrives, it writes the blocks the effective cap lets through, with details added: all of them, or a prefix of them when a listing fetch faults. |
| Search.SearchShallowRecords | tap.js:204-236 | Without deep mode, every record a search writes carries the run's time stamp and no details. |
| Search.SearchUnmatched | tap.js:169-177 | A first page whose heading does not match ends the search with nothing written and nothing more fetched. |
| Search.FetchListing | tap.js:237-240 | Deep mode sets the id option to the listing's id and fetches that listing's URL. |
| Search.WriteOne | tap.js:204-256 | One block's step yields the record, and the attempts of its listing fetch, that `Written` specifies. |
| Search.WritePage | tap.js:203-264 | The `each` loop over one page writes what `WriteBlocks` specifies. |
| Search.WriteListings | tap.js:197-265 | The loop over the page texts writes what `WritePages` specifies. |
| Search.WriteResults | tap.js:183-265 | The page plan, the page fetches and the writing give what `ResultsFrom` specifies. |
| Search.SearchPages | tap.js:165-267 | `searchCmd` after the URL is built gives what `SearchFrom` specifies. |
| Search.SearchCmd | tap.js:161-268 | `searchCmd` gives what `Search` specifies. |
| Search.Levels | tap.js:152-158 | No more titles are printed than the page has. Every printed title is trimmed and is not "Show All Makes". |
| Search.LevelsMembers | tap.js:154-158 | A text is printed exactly when some title trims to it and it is not "Show All Makes". |
| Search.PrintLevels | tap.js:152-158 | The printing loop prints the titles that `Levels` gives, trimmed and in page order. |
| Search.CategoryFrom | tap.js:148-158 | The command aborts exactly when the category page's fetch faults, and then prints nothing. "Show All Makes" is never printed. |
| Search.Category | tap.js:147-158 | "Show All Makes" is never printed, and a fault prints nothing. |
| Search.CategoryCmd | tap.js:147-158 | `categoryCmd` gives what `Category` specifies. |

## Left out

- HTTP, sleeping and logging: the network is an oracle parameter indexed by attempt number, and a sleep is counted, not timed. log4js output, including the final warning's text, is not modelled.
- HTML parsing with cheerio and its CSS selectors: a page is read through `Dom`, which gives the heading text, the result blocks' raw texts, a listing page's sections and a category page's link titles.
- Missing attributes: `attr()` returns `undefined` for a block without `data-model_group`, a title link without `href` or a category link without `title`, and the scraper then throws. `Dom` always yields strings, so these crashes are not modelled.
- Command-line parsing with commander, option choices and defaults, the `preSubcommand` hook, `shutdown`, the signal handlers and `main`: options arrive as an `Options` value.
- `--number` arrives already parsed, as `Cap`. Its absence (Infinity) is `Unlimited`.
- JSON output: the key order and text of `JSON.stringify` and the stdout writes are not modelled. A written record is its block, the time stamp and the detail sections, and one member function gives each field.
- `Date.now()` is the `now` parameter of a run.
- Floating point: the page count divides integers, which matches `Math.round` for integer counts. Precision loss of `parseInt` on very long digit strings is not modelled.
- `encodeURIComponent` escapes only '/', which is all the fraction choices need. `toUpperCase` covers ASCII letters only. `options.distance.toString()` is modelled by passing the distance as text.
- The `\r?\n|\r` replacement before the white-space removal is subsumed by it, since `\s` matches those characters.
- The mutation of `options.id` in deep mode: `FetchListing` returns the updated options and `WritePage` threads them. Nothing else reads the id.
- Search.LevelsMembers: states which titles are printed, not how often or in which order. `PrintLevels` ties the loop to `Levels`, which keeps the page order.
- Url.Render, Url.SearchParams, Url.CategoryParams: these build the query and carry no contract of their own. `RenderJoin` and `QuerySplit` state how a parameter list is written and read back, `SearchNames` states the names and their order, `FractionalValue` and `AircraftValues` state the fraction, model group, model and make values, and `CategoryURLForm` states the whole category URL. No lemma states the search values of distance, category type, the year, total time and price bounds, or the sort key and order; only the bodies give them.
- Fetcher.Retry: carries no contract of its own. `Fetch`, `FetchSpec`, `RetryFrom` and `RetrySleeps` state what it computes.
- Text.Trim: its own contract gives only the shape of the result. `TrimMiddle` and `TrimPadded` state which part of the text is kept.
- Listing.Record.Registration, Listing.Record.TotalTime, Listing.Record.LastUpdated: their own contracts only bound the length. `RecordLabels`, `RegistrationOf`, `TotalTimeOf` and `LastUpdatedOf` state the values.
- Listing.Record.ModelGroup, Listing.Record.Title, Listing.Record.Price, Listing.Record.Address: their own contracts give only the shape of the field. `ModelGroupOf`, `TitleOf`, `PriceOf` and `AddressOf` state the values.
- Listing.CutFirst, Listing.CutAll: their own contracts keep only the text before the label. `LabelStripped`, `FirstVersusAll`, `CutAllJoins` and `LabelledArea` state what is removed.
- Listing.ApplyPieces: its own contract only keeps the fields already set. `ApplyPiecesLast` states each field's value.
- Listing.LastValue: its own contract names some piece. `LastValueSpec` states that it is the last one, and when none is found.
- Emission.Emit: its own contract bounds the result and fixes its first block. `PageTake`, `PageTakeAll`, `EmitUncapped`, `EmitCapOnLastPage` and `CapOverrun` state which blocks are selected.
