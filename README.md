# bonita calculator: a Dafny model

This project models the two PHP scripts of the bonita calculator. `bonita_calculator.php`
computes the average official land price ("bonita") of a set of cadastral parcels. It
does this in five steps:

- It reads the parcels and the cadastral-area code from a pasted land-register extract,
  or else from the configured values. It asks the operator before using the extract.
- It decides whether to use the local price cache `bpej.json`, and whether to refresh
  it by running `bpej_fetch.php`.
- It queries the cadastre once per parcel. It adds up the area per soil-valuation
  (BPEJ) code, collects the title-deed (LV) numbers and lists the parcels that have
  no BPEJ data.
- It gives every code a price, from the cache or from the code's own web page. It
  retries that page until a price is found.
- It prints the weighted sum, the average price, the subtotal of the parcels without
  BPEJ data, the LV classification and a spreadsheet formula.

`bpej_fetch.php` builds the price cache. It downloads the overview page, takes a
five-digit code and a price from each qualifying table row, lets later rows overwrite
earlier ones, sorts the result by code and saves it.

The modules follow the scripts:

| module | models |
|---|---|
| `Input` (input.dfy) | `parseRawKNData`, the go-ahead prompt, the parcel-list split and the parcel-number split |
| `CacheRefresh` (cache.dfy) | the cache decision, the refresh report and the table that is loaded |
| `Aggregation` (aggregation.dfy) | the parcel loop |
| `Pricing` (pricing.dfy) | the per-code price with its retries |
| `Report` (report.dfy) | the summaries |
| `PriceTable` (pricetable.dfy) | `bpej_fetch.php` |
| `Calculator` (bonita.dfy) | chains everything into one run |

`Text`, `Numeric` and `Seqs` model the PHP runtime functions the scripts rely on. These
are `trim`, `explode`, `implode`, `preg_split`, `stripos`, `is_numeric`, the `(int)`
and `(float)` casts and `array_unique`.

The network, the clock, standard input and the file system are not modelled as effects:

- The operator's answers are a sequence of lines. At the end of input `fgets` returns
  false, and that trims to "".
- The cache file is a value: absent, or present with an age, a text and a decoded table.
- The cadastre is a function from query to reply.
- Each code's web page is a finite sequence of fetch attempts.
- The overview page arrives as rows that have already been taken apart into cells
  and anchors.

Prices are exact decimals: a mantissa divided by a power of ten.

Two behaviours of the code differ from what its comments and its callers expect. The
model follows the code, states the intended behaviour beside it, and reports both under
"## Findings":

- `bpej_fetch.php:71-73` replaces commas only after `is_numeric` has accepted the text,
  and `is_numeric` never accepts a comma. So a decimal-comma price is stored as 0.
- `die()` with a message exits with status 0. So the calculator's error branch at
  `bonita_calculator.php:235-236` never sees a cURL error or a non-200 status. The only
  failure it sees is the crash of `loadHTML` on an empty body.

## Model

| member | source | states |
|---|---|---|
| Text.TrimEdges | bonita_calculator.php:72 | trim's result neither starts nor ends with one of PHP's default trim characters |
| Text.TrimMiddle | bonita_calculator.php:72 | trim keeps one contiguous middle part of its input and removes only trim characters around it |
| Text.TrimIdempotent | bonita_calculator.php:83 | trimming an already trimmed line changes nothing |
| Text.ContainsOccurs | bonita_calculator.php:383 | `strpos(...) !== false` holds exactly when the searched text occurs at some index |
| Text.LowerAllPointwise | bonita_calculator.php:84 | stripos's case folding lowers each ASCII capital and keeps every other character in place |
| Text.JoinExplode | bonita_calculator.php:174 | explode loses nothing: joining its pieces with the separator gives back the input |
| Text.ExplodeJoin | bonita_calculator.php:457 | exploding imploded pieces gives them back when no piece holds the separator |
| Text.SplitLines | bonita_calculator.php:65 | the line split yields at least one line, and no line holds a CR or LF |
| Text.JoinSplitLines | bonita_calculator.php:65 | the lines joined with "\n" are the input with every CRLF, CR or LF written as "\n" |
| Text.NatText | bonita_calculator.php:454 | an integer's text is digits only, has no leading zero, and is "0" exactly for zero |
| Text.DigitsValueNatText | bonita_calculator.php:454 | reading an integer's text back gives the integer |
| Numeric.ScanNumber | bpej_fetch.php:71 | a numeric prefix consists of number characters and contains at least one digit |
| Numeric.IsNumeric | bpej_fetch.php:71 | a string is_numeric accepts consists of whitespace, signs, digits, points and exponent letters only |
| Numeric.CommaIsNotNumeric | bpej_fetch.php:71 | no string with a comma is numeric |
| Numeric.Truncate | bonita_calculator.php:283-286 | a float converts to int by truncating toward zero |
| Numeric.IntCastDigits | bonita_calculator.php:283-286 | `(int)` of a string of digits is the number it spells |
| Seqs.FilterMembers | bonita_calculator.php:176-181 | the filter keeps exactly the elements its test accepts |
| Seqs.FirstSomeIsFirst | bonita_calculator.php:71-78 | the first-match search returns the value of the first accepted element, and none only when no element is accepted |
| Seqs.FirstFromIsFirst | bonita_calculator.php:384 | the leftmost-index search returns the first accepted index, and none only when none is accepted |
| Seqs.TakeWhileMaximal | bonita_calculator.php:88-97 | the collected run is a prefix, every element of it is accepted, and it stops at the first rejected element |
| Seqs.AfterFirstMarker | bonita_calculator.php:84-87 | collecting starts right after the first header line |
| Seqs.AfterFirstNoMarker | bonita_calculator.php:84-87 | without a header line nothing is collected |
| Seqs.DedupMembers | bonita_calculator.php:441 | array_unique keeps every value, each exactly once |
| Seqs.DedupOrder | bonita_calculator.php:441 | array_unique lists the values in the order of their first occurrence |
| Input.SpacesFromEnds | bonita_calculator.php:73 | a greedy `\s*` run takes every whitespace character and stops at the first other one, with `\s` in the Unicode mode the u modifier sets (no-break space U+00A0 and the other Unicode spaces included) |
| Input.BracketAtMeaning | bonita_calculator.php:73 | `\[(\d+)\]` matches at q exactly when '[' is followed by a non-empty digit run and ']', and it captures that run |
| Input.FirstBracketLeftmost | bonita_calculator.php:73 | the lazy group ends at the first bracketed number, and with none there is no match |
| Input.ColonEndSound | bonita_calculator.php:73 | a reported match of "Katastrální\s+území\s*:" has the label, whitespace, the word, whitespace and a colon |
| Input.ColonEndComplete | bonita_calculator.php:73 | every such label-word-colon shape is found, whatever Unicode whitespace (a no-break space, say) stands between its parts, and it ends at its colon |
| Input.GroupFromSound | bonita_calculator.php:73 | a reported `\s*(.+?)\[(\d+)\]` match is whitespace, a non-empty group and a bracketed number |
| Input.GroupFromComplete | bonita_calculator.php:73 | wherever that shape occurs, a match is found |
| Input.MatchAtSound | bonita_calculator.php:73 | every match the pattern reports at p has the whole pattern's shape and captures the group and the digits |
| Input.MatchAtComplete | bonita_calculator.php:73 | wherever the whole pattern's shape starts at p, a match is reported at p |
| Input.FindAreaLeftmost | bonita_calculator.php:73 | preg_match reports the match at the leftmost start position, and nothing only when no position matches |
| Input.ParcelNumberShape | bonita_calculator.php:92 | `/^\d+(\/\d+)?$/` accepts exactly the non-empty digit strings and two digit strings around one "/" |
| Input.ParseRawKNData | bonita_calculator.php:57-101 | the result is the area of the first line that states one, with the parcel numbers listed right after the first header |
| Input.ScanArea | bonita_calculator.php:71-78 | the first loop yields the area of the first trimmed line that matches the pattern |
| Input.CollectParcels | bonita_calculator.php:81-98 | the second loop collects the run of parcel-number lines right after the first header line |
| Input.HeaderRunShape | bonita_calculator.php:81-98 | without a header nothing is collected; otherwise the run follows the first header, and every element is a parcel number that is neither "" nor "0" |
| Input.Prompt | bonita_calculator.php:149-161 | the go-ahead loop always reads at least one line |
| Input.PromptAnswered | bonita_calculator.php:149-161 | the loop stops at the first yes or no, after only other answers; it proceeds exactly on a yes (an empty answer counts as yes) |
| Input.AnsweredAtUnique | bonita_calculator.php:149-161 | the input determines the line at which the loop stops |
| Input.AskProceed | bonita_calculator.php:149-161 | the loop's decision and the number of lines it reads are those of Prompt |
| Input.SplitParcelList | bonita_calculator.php:173-183 | a parcel list given as text becomes its non-empty trimmed lines, in order |
| Input.SelectParcels | bonita_calculator.php:133-183 | the extract replaces the configured area and parcels exactly when it yields a non-zero code and at least one parcel and the operator agrees; a "no" ends the run; otherwise the configured values are used with nothing read |
| Input.SplitAtSlash | bonita_calculator.php:282 | `explode('/', $s, 2)` splits at the first "/": the two parts around it give back the input |
| Input.ParseParcelId | bonita_calculator.php:278-287 | a parcel number has a subdivision exactly when it contains "/" |
| Input.ParseParcelIdDigits | bonita_calculator.php:278-287 | "N/M" gives principal N and subdivision M; "N" gives N and no subdivision |
| Input.QueryFor | bonita_calculator.php:289-298 | the query carries the area code, "PKN", 2 and the principal number; the subdivision is sent exactly when it is positive |
| Aggregation.Pad5 | bonita_calculator.php:324 | padding gives length 5, or the code's own length when that is longer |
| Aggregation.Pad5Shape | bonita_calculator.php:324 | padding only puts zeros in front of the code |
| Aggregation.Pad5Value | bonita_calculator.php:324 | a numeric code keeps its value when padded, and padding twice is padding once |
| Aggregation.SumsMapMeaning | bonita_calculator.php:323-330 | the keys of `$bpejSums` are exactly the padded codes seen, and each entry is the total area of that code's items |
| Aggregation.RecordsPrefix | bonita_calculator.php:301-311 | the records used are those of the leading replies that found data, and the first reply without data is where the loop stops |
| Aggregation.AggregateParcels | bonita_calculator.php:266-339 | the loop exits with the index of the first parcel without data; otherwise its totals are those of all the parcels: area, per-code sums in first-seen order, LV numbers and the parcels without BPEJ data |
| Aggregation.AddParcel | bonita_calculator.php:313-338 | one parcel adds its area, its items to the sums, its LV number when present, and itself to the no-BPEJ list exactly when its BPEJ list is missing or empty |
| Aggregation.AddItems | bonita_calculator.php:323-330 | the inner loop leaves `$bpejSums` equal to the sums over all the items seen so far |
| Aggregation.AddItemStep | bonita_calculator.php:326-329 | one item: a new code starts at 0 at the end of the key order, and the item's area is added under its code |
| Aggregation.CodeSumConcat | bonita_calculator.php:323-330 | a code's sum over two runs of items is the sum over each, in either order |
| Aggregation.TotalAreaConcat | bonita_calculator.php:313-315 | the total area of two runs of parcels is the sum of their totals, in either order |
| Aggregation.AreaConserved | bonita_calculator.php:323-330 | the per-code sums add up to the area of all the items: nothing is lost or counted twice |
| Aggregation.AreaPartition | bonita_calculator.php:313-338 | the total area is the area of the parcels with BPEJ data plus that of the listed parcels without it |
| Aggregation.WithoutBpejMembers | bonita_calculator.php:321-338 | a parcel is listed without BPEJ data exactly when its list is missing or empty |
| CacheRefresh.UseLocalCache | bonita_calculator.php:187-194 | the cache is off exactly when the answer is "n" in either case; an empty answer means yes |
| CacheRefresh.Decide | bonita_calculator.php:197-226 | the decision reads one or two answers |
| CacheRefresh.DecisionTable | bonita_calculator.php:197-226 | cache off on "n"; a missing file is always fetched; a forced run always refetches; an outdated file is refetched on a yes; otherwise the file is kept; the second question is asked exactly for an outdated file in an unforced run |
| CacheRefresh.DefaultsAtEndOfInput | bonita_calculator.php:187-226 | with no answers left the defaults apply: use the cache and refresh an outdated file |
| CacheRefresh.Load | bonita_calculator.php:106-120 | a non-empty loaded table is the decoded table of a present file |
| CacheRefresh.Compare | bonita_calculator.php:228-245 | a non-zero exit status is reported as an error; otherwise the file is "unchanged" exactly when its hash is the same before and after |
| CacheRefresh.CacheStep | bonita_calculator.php:187-263 | the step consumes the answers the decision reads |
| CacheRefresh.AlwaysLoads | bonita_calculator.php:259-262 | with the cache on, the file is loaded as it then is, even after a failed fetch; with it off nothing is loaded; a failed fetch is reported |
| CacheRefresh.RunIgnoredUnlessFetched | bonita_calculator.php:208-257 | the fetch script's behaviour matters only when the step runs it |
| Pricing.IndexOf | bonita_calculator.php:384 | `[^>]*` stops at the first '>' |
| Pricing.SpanAtSound | bonita_calculator.php:384 | what the span pattern captures at p is a match of `<span[^>]*>([0-9]+(\.[0-9]+)?)<\/span>` |
| Pricing.SpanAtComplete | bonita_calculator.php:384 | every match of the span pattern at p is what is captured there |
| Pricing.GroupAtSound | bonita_calculator.php:384 | the captured group is a price literal followed by `</span>` |
| Pricing.GroupAtComplete | bonita_calculator.php:384 | a price literal followed by `</span>` is captured |
| Pricing.SpanSearchLeftmost | bonita_calculator.php:384 | preg_match returns the capture at the first matching index, and nothing only when no index matches |
| Pricing.LiteralValue | bonita_calculator.php:385 | floatval of a captured literal is its digits without the point, scaled by the number of decimals, and the literal is numeric |
| Pricing.FindPrice | bonita_calculator.php:380-390 | the line scan returns the price of the first line that has the marker and a span match |
| Pricing.ResolvePrice | bonita_calculator.php:360-399 | the retry loop stops at the first attempt that yields a price and returns it; failed attempts before it are skipped; with no such attempt all attempts are used |
| Pricing.ResolvePrices | bonita_calculator.php:341-403 | all codes are priced exactly when each has a price; `$bpejPrices` has exactly the codes as keys, each with its cached or fetched price; otherwise the first code with no price is named |
| Pricing.PricedStep | bonita_calculator.php:353-357 | pricing one more code keeps the keys equal to the codes done so far, each with its price |
| Pricing.CachedPriceWins | bonita_calculator.php:353-357 | a cached code takes the cached price whatever its page would say |
| PriceTable.FirstCode | bpej_fetch.php:48 | a found code is five digits |
| PriceTable.FirstCodeLeftmost | bpej_fetch.php:48 | `(\d{5})` finds the leftmost run of five digits |
| PriceTable.FirstCodeNone | bpej_fetch.php:48-57 | nothing is found exactly when no five digits stand together |
| PriceTable.RowCode | bpej_fetch.php:37-64 | a row yields only a five-digit code, and only with at least five cells |
| PriceTable.RowCodeRules | bpej_fetch.php:37-64 | rows with fewer than five cells or no anchor are skipped; the code comes from the first anchor's href, else from its text |
| PriceTable.CommaToDot | bpej_fetch.php:73 | `str_replace(',', '.', ...)` replaces each comma by a point and leaves every other character |
| PriceTable.CommaFree | bpej_fetch.php:71-73 | on a numeric text the replacement changes nothing |
| PriceTable.CommaPriceIsZero | bpej_fetch.php:67-75 | as written, a price cell with a comma is stored as 0 |
| PriceTable.RowPriceAgrees | bpej_fetch.php:67-75 | the corrected price agrees with the written one on every cell without a comma, and it reads a comma as a decimal point |
| PriceTable.CommaPrice | bpej_fetch.php:67-75 | "12,50"-style cells are 0 as written, and the decimal number as intended |
| PriceTable.PointPrice | bpej_fetch.php:74 | digits "." digits is numeric, with its digits as mantissa and its decimals as scale |
| PriceTable.ReadPrice | bpej_fetch.php:67-75 | the price as written: a numeric cell is read unchanged and anything else is 0; it equals the intended reading on every cell without a comma |
| PriceTable.TableKeys | bpej_fetch.php:33-80 | the table's keys are exactly the codes the rows yield, all five digits |
| PriceTable.LastRowWins | bpej_fetch.php:78 | when several rows give a code, the table holds the price of the last one, read as written or as intended |
| PriceTable.ReadingsAgree | bpej_fetch.php:67-78 | the table as written and the intended table have the same codes, and are equal when no row with a code has a comma in its price cell |
| PriceTable.CommaRowTables | bpej_fetch.php:67-78 | a code whose last row has a "12,50"-style price holds 0 in the table as written and the comma-read number in the intended table |
| PriceTable.CollectRows | bpej_fetch.php:33-80 | the row loop builds the table as written, each code with the price of its last row |
| PriceTable.InsertByCode | bpej_fetch.php:83 | inserting a new code keeps the entries ascending and adds exactly that entry |
| PriceTable.InsertedAscending | bpej_fetch.php:83 | an entry placed between smaller and larger codes keeps the list ascending |
| PriceTable.SortByCode | bpej_fetch.php:83 | ksort yields the table's entries, each once, in ascending code order |
| PriceTable.CodeValueInjective | bpej_fetch.php:83 | two different codes have different numeric values |
| PriceTable.LexMatchesValue | bpej_fetch.php:83 | for digit strings of one length, string order is numeric order |
| PriceTable.AscendingIsLexical | bpej_fetch.php:83 | the sorted codes are in string order too |
| PriceTable.FetchScript | bpej_fetch.php:9-86 | the script dies exactly on a cURL error or a status other than 200, crashes exactly when an accepted reply has an empty body, and otherwise saves the entries of the table as written, each once, in ascending code order |
| PriceTable.FileAfter | bpej_fetch.php:18-86 | a failed download or an empty body leaves the file as it was; otherwise the file holds the table as written |
| PriceTable.RunAsWritten | bpej_fetch.php:18-25 | as written, the exit status is 0 after die() and after the normal end; it is non-zero (255) exactly when loadHTML throws on an empty body |
| PriceTable.FailureLooksUnchanged | bonita_calculator.php:228-245 | as written, a failed download over an existing file is reported as "no changes", and the old table is loaded |
| PriceTable.FailureLooksFinished | bonita_calculator.php:247-257 | as written, a failed download with no file is reported as finished, and the cache is empty |
| PriceTable.CrashReported | bonita_calculator.php:228-262 | as written, the crash on an empty body is the only failure reported as an error, and the file that was there is loaded |
| PriceTable.ScriptRun | bpej_fetch.php:18-20 | corrected: a failed download exits with status 1, and the status is non-zero exactly on a failed download or the crash |
| PriceTable.FailureReported | bonita_calculator.php:228-262 | corrected: every failed download is reported as an error with status 1, the crash with 255, and every completed download loads the new table |
| Report.ComputeWeightedSum | bonita_calculator.php:409-416 | the loop sums area times price over the codes, an unpriced code counting 0 |
| Report.WeightedBounds | bonita_calculator.php:409-416 | with every price between lo and hi, the weighted sum lies between lo and hi times the summed area |
| Report.AverageIsMean | bonita_calculator.php:418-424 | when the BPEJ areas make up the whole area, the average lies between the lowest and highest price |
| Report.MeanBounds | bonita_calculator.php:418-424 | the same bound for any per-code rate |
| Report.SqmTotalOfItems | bonita_calculator.php:323-330 | the areas in `$bpejSums` add up to the area of all the BPEJ items |
| Report.NoBpejSubtotal | bonita_calculator.php:426-438 | the subtotal is printed only for a non-empty list, and it is the listed parcels' area |
| Report.LvNone | bonita_calculator.php:440-448 | "No LV detected" exactly when no parcel has an LV number |
| Report.LvSame | bonita_calculator.php:440-448 | one LV is reported exactly when every parcel with an LV has that LV |
| Report.LvMultiple | bonita_calculator.php:440-448 | several LVs are reported exactly when two parcels differ, and the list holds each of them exactly once |
| Report.DecimalText | bonita_calculator.php:454 | a price's text is digits, a point and a sign only |
| Report.Term | bonita_calculator.php:454 | a formula term contains no '+' |
| Report.Terms | bonita_calculator.php:451-455 | one term per code |
| Report.TermsPointwise | bonita_calculator.php:451-455 | the k-th term is "(area*price)" of the k-th code |
| Report.FormulaReadsBack | bonita_calculator.php:450-461 | without area or codes the formula is the no-data message; otherwise it is "=(" sum ")/" total, and splitting the sum at '+' gives back one term per code |
| Report.BuildFormula | bonita_calculator.php:450-461 | the loop builds that formula |
| Report.Summarize | bonita_calculator.php:405-461 | the summary is the one the totals and prices determine |
| Calculator.TotalsCover | bonita_calculator.php:343 | every code of `$bpejSums` has a summed area |
| Calculator.PriceAndSummarize | bonita_calculator.php:341-461 | the price phase finishes exactly when every code has a cached or fetched price, with exactly the codes priced, and otherwise names the first code without one; a finished phase's summary is the one the totals and prices determine |
| Calculator.Run | bonita_calculator.php:133-461 | a "no" at the prompt stops the run; without a usable extract the defaults are used with nothing read, with one the prompt decides and the extract's area and parcels are used; the run fails exactly at the first parcel without data; otherwise it finishes exactly when every code has a cached or fetched price, and else names the first code without one; a finished run's totals describe all parcels, every code has its price, and the summary is the one these determine; the cache is what the refresh step leaves with bpej_fetch.php as written |

## Left out

- HTTP (cURL, the API key, the user agent, timeouts), JSON decoding and HTML DOM parsing are left out. The cadastre's replies, the price pages and the overview page's rows are parameters. Of the overview page's body only whether it is empty is modelled, because `loadHTML` throws on an empty body.
- The records are the decoded `data[0]`. Their area is a natural number or absent; negative or fractional areas are not modelled.
- Standard input is a sequence of lines. The clock is the cache file's age in seconds; `date()` formatting is not modelled.
- The file system is not modelled as such. The `bpej.json` path, `file_exists` and `filemtime` become the `CacheFile` value.
- `sha256` is not modelled: the hash comparison compares the file texts.
- `json_encode` is not modelled: its text is a parameter. `file_put_contents` is not modelled.
- The configuration files `apikey.secret.php` and `parcels.php`, and `$argv`, are parameters of the run.
- `echo` output is left out, except as the outcome and report values.
- `sleep(5)` is left out.
- `round($averageBpejPrice, 2)` is left out. Floating-point arithmetic is left out: prices are exact decimals and sums are exact reals.
- Report.DecimalText writes a price as its exact decimal. PHP's string interpolation of a float follows the `precision` setting instead: 14 significant digits by default, with an exponent for very large or very small magnitudes. That text is not modelled.
- Integer overflow is not modelled.
- PHP turns a numeric string key such as "43746" into an integer key. This is not modelled; codes stay strings, and ksort compares them numerically.
- Strings are sequences of code points. Invalid UTF-8, on which a pattern with the u modifier fails, is not modelled. stripos folds ASCII letters only.
- Input.DigitsFrom: reads `\d` in the area pattern as the ASCII digits. Under the u modifier PCRE also takes the other Unicode decimal digits (category Nd). A bracketed code written in, say, Arabic-Indic digits matches in PHP, where `(int)` then gives 0, but not in the model.
- PriceTable.FileAfter: assumes the file bpej_fetch.php writes is the file the calculator loads. The script writes `bpej.json` in the working directory (bpej_fetch.php:86). The calculator reads the file next to itself (bonita_calculator.php:198) and starts the script without changing directory (bonita_calculator.php:233-234, 250-251). Started from another directory, a refresh leaves the loaded file as it was; this case is not modelled.
- `if (!$lines)` in parseRawKNData is not modelled as a branch: the line split always yields at least one line.
- Pricing.ResolvePrice: the source retries forever. The model takes a finite sequence of attempts and reports StillRetrying when they run out without a price.
- Pricing.ResolvePrices: the source never returns without prices. The model reports the first code whose finite attempts ran out.
- PriceTable.SortByCode: requires every key to be a five-digit code. The source's ksort has no such condition, but every key of the table is such a code (PriceTable.TableKeys).
- PriceTable.InsertByCode: requires the codes to be five digits and new. It is the insertion step of SortByCode.
- Report.ComputeWeightedSum: requires every listed code to be a key of the sums. The source iterates the map itself; Calculator.TotalsCover proves this holds in a run.

## Findings

| source | as written | input that shows it | evidently intended | confidence | as-written member | corrected member |
|---|---|---|---|---|---|---|
| bpej_fetch.php:67-75 | the price text is tested with `is_numeric` before commas become points, so the replacement never applies | a fifth cell "12,50" | a decimal-comma price is read as 12.5, as the comment above the replacement says | not executed | PriceTable.CommaPriceIsZero, PriceTable.CommaPrice, PriceTable.CommaRowTables | PriceTable.RowPrice, PriceTable.RowPriceAgrees, PriceTable.ReadingsAgree |
| bpej_fetch.php:18-20 | `die("...")` with a message exits with status 0, so `$retCode !== 0` in bonita_calculator.php:235 never holds for a cURL error or a non-200 status | the overview page answers with HTTP 500 | a failed download exits non-zero and is reported as "Error running bpej_fetch.php" | not executed | PriceTable.RunAsWritten, PriceTable.FailureLooksUnchanged, PriceTable.FailureLooksFinished | PriceTable.ScriptRun, PriceTable.FailureReported |
