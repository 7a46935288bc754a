# Trove query parser, modelled in Dafny

`trove_query_parser` turns the URL of a search made in the Trove web
interface (newspapers and gazettes) into the parameters the Trove API
expects. This project models its two parts:

- **`format_date`**: a web-interface date `YYYY-MM-DD` becomes the API timestamp
  `YYYY-MM-DDT00:00:00Z`, moved back one calendar day when it opens a range.
  The open marker `*` passes through unchanged. The model (`Dates`) uses its
  own calendar, a strict date reader and a zero-padded formatter.
- **`parse_query`'s translation**: one pass over the decoded `(key, value)`
  pairs of the query string dispatches on a fixed key vocabulary. Collected
  keys keep lists; `q`, `zone` and `l-illustrated` hold single strings, and
  so does `l-word` whenever an `l-advWord` pair occurs. The
  pass buffers a `dates` map and a list of keyword fragments. After the
  pass, the post-processing builds `q` from the `keyword` seed, the
  fragments and a `date:[F TO T]` range, then fills in the defaults
  `q = " "` and `zone = "newspaper,gazette"`.

The Python loop is modelled as the imperative method `Query.Translate`
(`Pass`, `Absorb`, `AbsorbField` and `Finish`), which updates the same
three locals. It is proved equal to `Query.Translation`, a declarative
reference that defines each output key on its own from the pairs:
- `ValuesFor` collects a list in input order, with aliases merged;
- `LastValue` takes the last pair that wins;
- `ZoneOf` takes the zone;
- `Fragments` collects the keyword fragments.

The proof goes through a loop invariant: after the first `i` pairs, the
locals are what `Translation`'s parts say about `params[..i]`.
`QueryProperties` then states what those parts mean against the input.
`DateExamples` and `QueryExamples` work through small concrete queries.

Failures are results, not preconditions:
- `BadDate(Malformed(t))` for a date token that is not `*` and not a real
  `YYYY-MM-DD` date;
- `BadDate(BeforeYearOne(t))` for a range opening on 0001-01-01, whose day
  before does not exist;
- `WordNotAList` for an `l-word` pair after an `l-advWord` pair. The
  `l-advWord` pair has made `l-word` a plain string, so Python's `.append`
  on it fails.

Files:
- `results.dfy`: `Option` and `Result`.
- `text.dfy`: `str.split()` and `str.join`.
- `dates.dfy`: the calendar and `format_date`.
- `date_examples.dfy`: worked date examples.
- `query.dfy`: the key vocabulary, the reference translation and the imperative pass.
- `query_properties.dfy`: properties of the translation.
- `query_examples.dfy`: worked query examples.

Some functions only compute a piece of the output: `Query.Fragment`,
`Query.ZoneFor`, `Query.DateRange`, `Query.AssembleQuery`,
`Query.WordEntry`, `Dates.ShowDate` and `Text.Join`. Lemmas beside them
state what these mean, and the table below names those lemmas.

## Model

| member | source | states |
|---|---|---|
| Dates.PrevDay | trove_query_parser/parser.py:19-20 | the day before a valid date (other than 0001-01-01) is valid and earlier in calendar order |
| Dates.NextOfPrev | trove_query_parser/parser.py:20 | moving back one day and then forward one day returns the date |
| Dates.PrevOfNext | trove_query_parser/parser.py:20 | moving forward one day and then back one day returns the date |
| Dates.PrevDayNumber | trove_query_parser/parser.py:20 | moving back one day lowers the running day count by exactly one, across month ends, year ends and February 29 |
| Dates.DayNumberOrder | trove_query_parser/parser.py:20 | the running day count follows calendar order |
| Dates.PrevDayUnique | trove_query_parser/parser.py:20 | the shifted date is the one valid date whose day count is one less, so the shift is exactly one calendar day |
| Dates.Pad | trove_query_parser/parser.py:21 | a zero-padded field has exactly its width and holds only digits |
| Dates.NumberPad | trove_query_parser/parser.py:21 | reading a zero-padded field gives its number back |
| Dates.PadNumber | trove_query_parser/parser.py:18 | padding the number a digit string reads as gives the string back |
| Dates.Timestamp | trove_query_parser/parser.py:21 | the API timestamp has 20 characters: the `YYYY-MM-DD` text, then `T00:00:00Z` |
| Dates.ParseDate | trove_query_parser/parser.py:18 | a token that reads as a date reads as a valid date |
| Dates.ShowDateFields | trove_query_parser/parser.py:21 | a date's text is its year, month and day as zero-padded digit fields that read back as those numbers, with `-` at positions 4 and 7 |
| Dates.ParseShowDate | trove_query_parser/parser.py:18-21 | every valid date reads back from its own `YYYY-MM-DD` text |
| Dates.ShowParseDate | trove_query_parser/parser.py:18-21 | every token that reads as a date is that date's text |
| Dates.FormatDate | trove_query_parser/parser.py:11-22 | `*` gives `*` for a start and for an end; any other token that is not a date is a `Malformed` error; a success is a 20-character timestamp at midnight |
| Dates.FormatRangeEnd | trove_query_parser/parser.py:17-21 | as a range end, a date becomes the timestamp of the same day |
| Dates.FormatRangeStart | trove_query_parser/parser.py:17-21 | as a range start, a date becomes the timestamp of the previous day, whose day count is one less |
| Dates.FormatAccepts | trove_query_parser/parser.py:17-21 | a token other than `*` that formats is a valid date's own text, and not 0001-01-01 when it opens a range |
| Dates.FormatDateAccepts | trove_query_parser/parser.py:17-21 | formatting succeeds exactly on `*` and on the text of a valid date (excluding 0001-01-01 for a start) |
| DateExamples.FormatDateExample | trove_query_parser/parser.py:11-22 | 2020-01-15 opens a range as 2020-01-14T00:00:00Z and closes one as 2020-01-15T00:00:00Z |
| DateExamples.FormatDateYearEnd | trove_query_parser/parser.py:19-21 | 2020-01-01 opens a range as 2019-12-31T00:00:00Z |
| DateExamples.FormatDateMonthEnd | trove_query_parser/parser.py:21 | 2020-01-31 closes a range as 2020-01-31T00:00:00Z |
| DateExamples.FormatDateFirstDay | trove_query_parser/parser.py:18-20 | 0001-01-01 cannot open a range |
| DateExamples.LeapDayExamples | trove_query_parser/parser.py:20 | the day before 1 March is 29 February in 2020 and 2000, and 28 February in 2019 and 1900 |
| Text.Split | trove_query_parser/parser.py:84-86 | `value.split()` yields non-empty tokens without whitespace |
| Text.SplitSpaced | trove_query_parser/parser.py:84-86 | tokens laid out with any whitespace runs (non-empty between tokens, possibly empty at either end) split back into those tokens |
| Text.SpacedSplit | trove_query_parser/parser.py:84-86 | every value is its own split tokens laid out with such whitespace runs |
| Text.SplitExactly | trove_query_parser/parser.py:84-86 | a list of tokens is the split of a value exactly when the value lays those tokens out with whitespace, so the tokens are the maximal whitespace-free runs |
| Text.SplitKeepsNonSpace | trove_query_parser/parser.py:84-86 | the tokens laid end to end are the value with its whitespace removed |
| Text.SplitJoin | trove_query_parser/parser.py:84-86 | splitting tokens joined by single spaces gives the same tokens |
| Text.JoinEnds | trove_query_parser/parser.py:84-96 | `sep.join(parts)` of a non-empty list starts with the first part and ends with the last |
| Query.ListTarget | trove_query_parser/parser.py:40-74 | every key that appends to a list appends to one of the output's list keys |
| Query.Fields | trove_query_parser/parser.py:46-74 | each output key other than `q` and `zone` holds exactly the entry its pairs determine |
| Query.Translation | trove_query_parser/parser.py:38-110 | a successful translation always has `q` and `zone`, has keys only from the eight directly copied keys, `l-illustrated`, `l-illtype`, `q` and `zone`, and holds every other key's entry as its pairs determine |
| Query.Grouped | trove_query_parser/parser.py:35-37 | the API branch has a key exactly when some pair has that key, and that key holds the values of its pairs in input order |
| Query.Append | trove_query_parser/parser.py:48-51 | the append-or-create idiom fails exactly when the key holds a string, and otherwise extends or creates the list |
| Query.StepFacts | trove_query_parser/parser.py:75-91 | one more pair changes the last `keyword`, `l-advWord`, `date.from` and `date.to` values, the zone and the fragments only as its key says |
| Query.ConflictStep | trove_query_parser/parser.py:49-53 | one more pair creates a conflict exactly when it is `l-word` and some `l-advWord` came before |
| Query.ConflictExtends | trove_query_parser/parser.py:46-53 | a conflict in a prefix of the pairs is a conflict in all of them |
| Query.FieldEntryStep | trove_query_parser/parser.py:47-74 | one more pair changes only the entry of the list, flag or word it feeds |
| Query.ListStep | trove_query_parser/parser.py:47-68 | a direct or aliased list key appends its value to its list and changes nothing else |
| Query.IllustrationStep | trove_query_parser/parser.py:69-74 | an illustration key sets `l-illustrated` to `true`, appends to `l-illtype` and changes nothing else |
| Query.WordStep | trove_query_parser/parser.py:47-51 | `l-word`, while no `l-advWord` has come, appends to the `l-word` list |
| Query.AdvancedWordStep | trove_query_parser/parser.py:52-53 | `l-advWord` replaces `l-word` by its single value |
| Query.KeywordStep | trove_query_parser/parser.py:79-80 | `keyword` replaces `q` |
| Query.ZoneStep | trove_query_parser/parser.py:87-91 | an art type of `newspapers` or `gazette` sets the zone |
| Query.QuietStep | trove_query_parser/parser.py:75-91 | date pairs, fragment pairs, art types with other values and unknown keys leave the output map as it is |
| Query.WordAppend | trove_query_parser/parser.py:47-53 | appending an `l-word` fails exactly when an earlier `l-advWord` has made it a string, and otherwise gives the new collected map |
| Query.AbsorbField | trove_query_parser/parser.py:47-74 | storing a pair into the output map fails exactly on an `l-word` after an `l-advWord`, and otherwise leaves the map collected from one more pair |
| Query.Absorb | trove_query_parser/parser.py:46-91 | one pass step fails exactly when the new pair creates a conflict, and otherwise keeps the output map, `dates` and `keywords` equal to what the longer prefix determines |
| Query.Pass | trove_query_parser/parser.py:41-91 | the loop fails exactly on an input with a conflict, and otherwise ends with the locals the whole input determines |
| Query.Finish | trove_query_parser/parser.py:92-110 | the post-processing turns the collected locals into the reference translation, including the date errors |
| Query.Translate | trove_query_parser/parser.py:38-110 | the imperative translation equals the reference translation on every input |
| Query.ParseQuery | trove_query_parser/parser.py:34-112 | an API URL gives its parameters grouped by key; any other URL gives the translation |
| QueryProperties.ValuesForAppend | trove_query_parser/parser.py:47-74 | a list collected over two stretches of input is the first stretch's list followed by the second's, so input order is kept |
| QueryProperties.ValuesForFound | trove_query_parser/parser.py:47-74 | a list is non-empty exactly when some pair feeds it |
| QueryProperties.ListField | trove_query_parser/parser.py:47-74 | a list key is in the output exactly when some direct or aliased pair feeds it, and then it holds all their values in input order |
| QueryProperties.ListTargetAliases | trove_query_parser/parser.py:54-68 | `l-state` is fed exactly by `l-state` and `l-advstate`, `l-category` exactly by `l-category` and `l-advcategory`, and `l-title` exactly by `l-title` and `l-advtitle` |
| QueryProperties.ListTargetDirect | trove_query_parser/parser.py:40-51 | `l-decade`, `l-year`, `l-month` and `include` are each fed by their own key only, and no key feeds `l-word` as a plain list (it is left to the word entry) |
| QueryProperties.IllustrationTarget | trove_query_parser/parser.py:69-74 | only the two illustration keys feed `l-illtype` |
| QueryProperties.IllustratedFlag | trove_query_parser/parser.py:69-70 | `l-illustrated` is present, and `true`, exactly when an illustration key occurs |
| QueryProperties.LastValueIsLast | trove_query_parser/parser.py:52-80 | a single-valued key holds the value of its last pair; no later pair has that key |
| QueryProperties.ZoneOfIsLast | trove_query_parser/parser.py:87-91 | the zone is unset exactly when no art-type pair names a zone, and otherwise it comes from the last art-type pair that does |
| QueryProperties.DefaultZone | trove_query_parser/parser.py:109-110 | without an art-type pair naming a zone, both zones are searched |
| QueryProperties.ConflictAtWord | trove_query_parser/parser.py:49-53 | a conflict is exactly an `l-word` pair met when an `l-advWord` has already been seen |
| QueryProperties.ConflictIsError | trove_query_parser/parser.py:46-53 | the translation fails on the word list exactly when there is a conflict |
| QueryProperties.DateRangeFails | trove_query_parser/parser.py:97-102 | the date range fails exactly when the last date token given for one side is not accepted for that side |
| QueryProperties.TranslationSucceeds | trove_query_parser/parser.py:46-110 | the translation succeeds exactly when there is no conflict and every given date token is accepted |
| QueryProperties.DateRangeOfDays | trove_query_parser/parser.py:75-102 | two dates give the range from midnight of the day before the first to midnight of the second |
| QueryProperties.DateRangeToOnly | trove_query_parser/parser.py:97-102 | with only `date.to` given, the start is written `*`: the range is `date:[* TO <midnight of that day>]` |
| QueryProperties.DateRangeFromOnly | trove_query_parser/parser.py:97-102 | with only `date.from` given, the end is written `*`: the range is `date:[<midnight of the day before> TO *]` |
| QueryProperties.FragmentsAppend | trove_query_parser/parser.py:81-86 | the fragments of two stretches of input follow each other in input order |
| QueryProperties.AnyOfWords | trove_query_parser/parser.py:83-86 | `keyword.any` and `keyword.not` on words separated by any whitespace runs give `(a OR b)` and `NOT (a OR b)` over those words |
| QueryProperties.FragmentKinds | trove_query_parser/parser.py:81-86 | `Query.Fragment`: exactly `keyword.phrase`, `keyword.not` and `keyword.any` contribute a fragment, and a phrase is its value in double quotes |
| QueryProperties.DateRangeGiven | trove_query_parser/parser.py:97-102 | `Query.DateRange`: there is no range exactly when neither date key occurs, and the range fails exactly when a given token fails to format for its side (a missing side, `*`, never fails) |
| QueryProperties.AssembleQueryParts | trove_query_parser/parser.py:92-108 | `Query.AssembleQuery`: `q` starts with the seed, followed by ` AND ` and the fragments joined by ` AND ` when there are fragments; with no seed it starts with the fragments; it ends with the date range, with a single space before it when any text comes first; it is the range alone when there is nothing else, and a single space when all three are absent; with a range and some text, `q` is exactly the text without the range, one space and the range; the seed alone is the whole text; with fragments the text is exactly as long as the seed, ` AND ` (five characters) and the joined fragments, so nothing else lies between them |
| QueryProperties.ZoneChoice | trove_query_parser/parser.py:88-91 | `Query.ZoneFor`: `newspapers` selects exactly the `newspaper` zone, `gazette` exactly the `gazette` zone, and no other value selects one |
| QueryProperties.WordEntryOccurs | trove_query_parser/parser.py:49-53 | `Query.WordEntry`: `l-word` is absent exactly when neither `l-word` nor `l-advWord` occurs, and is a single string exactly when `l-advWord` occurs |
| QueryProperties.IgnoredPair | trove_query_parser/parser.py:46-91 | a pair with an unrecognised key, or an art type with another value, leaves the translation unchanged wherever it stands in the input |
| QueryProperties.LastValueAppend | trove_query_parser/parser.py:52-80 | over two stretches of input, a single-valued key takes the second stretch's last value if it has one, and otherwise the first's |
| QueryProperties.ZoneOfAppend | trove_query_parser/parser.py:87-91 | over two stretches of input, the zone is the second stretch's if it names one, and otherwise the first's |
| QueryProperties.ConflictSkip | trove_query_parser/parser.py:49-53 | a pair with neither word key, inserted anywhere, neither creates nor removes a conflict |
| QueryProperties.FieldsSkip | trove_query_parser/parser.py:47-74 | a pair that leaves the lists and the word entry of what precedes it as they were leaves every field of the whole input unchanged, wherever it stands |
| QueryProperties.QueryOf | trove_query_parser/parser.py:92-110 | a successful translation's `q` is the seed, fragments and range assembled, and its `zone` is the chosen zone or both |
| QueryProperties.ValuesWithKeyAppend | trove_query_parser/parser.py:37 | an API parameter's values over two stretches of input follow each other in input order |
| QueryProperties.GroupedCount | trove_query_parser/parser.py:37 | an API parameter holds one value per pair with its key |
| QueryExamples.EmptySearch | trove_query_parser/parser.py:107-110 | an empty search gives `q = " "` and `zone = "newspaper,gazette"` and nothing else |
| QueryExamples.KeywordAndPhrase | trove_query_parser/parser.py:79-94 | `keyword=cats&keyword.phrase=black cat` gives `q = cats AND "black cat"` |
| QueryExamples.DateClause | trove_query_parser/parser.py:75-106 | January 2020 gives `q = date:[2019-12-31T00:00:00Z TO 2020-01-31T00:00:00Z]` |
| QueryExamples.OpenEndedClause | trove_query_parser/parser.py:75-106 | `date.from=2020-01-01` alone gives `q = date:[2019-12-31T00:00:00Z TO *]` |
| QueryExamples.NewspaperZone | trove_query_parser/parser.py:87-89 | `l-ArtType=newspapers` searches the newspaper zone |
| QueryExamples.IllustrationType | trove_query_parser/parser.py:69-74 | `l-illustrationType=Photo` sets `l-illustrated` to `true` and `l-illtype` to `[Photo]` |
| QueryExamples.AnyOfTabbedWords | trove_query_parser/parser.py:85-86 | `keyword.any` with the value `  cat\tdog ` gives `(cat OR dog)` |
| QueryExamples.StatesInOrder | trove_query_parser/parser.py:47-58 | `l-state=Victoria&l-advstate=Tasmania` collects `[Victoria, Tasmania]` under `l-state` |
| QueryExamples.WordAfterAdvancedWord | trove_query_parser/parser.py:49-53 | `l-advWord=cat&l-word=dog` fails with `WordNotAList` |

## Left out

- URL parsing (lines 7, 34, 37, 44): `urlparse`, `parse_qsl` and `parse_qs` are library code. They do percent-decoding, `+` to space, dropping blank values and splitting on `&`. The model starts from the decoded pairs.
- The API-URL test (line 35): the substring test on the URL is a boolean argument of `ParseQuery`. `parse_qs` there is modelled as grouping the same decoded pairs by key (`Grouped`). It does not model that `parse_qs` and `parse_qsl` would each see the raw query string.
- Dates.ParseDate: accepts exactly `YYYY-MM-DD` naming a real day in years 1 to 9999. `arrow.get` also reads many other formats, which become `Malformed` errors here.
- Dates.FormatDate: a range opening on 0001-01-01 is the error `BeforeYearOne`. arrow overflows there, and the model does not follow what it raises.
- Query.Translate: the `AttributeError` of an `l-word` after an `l-advWord` is the result `WordNotAList`, not an exception. The partially filled dict that Python abandons is not returned.
- Text.Split: whitespace is the ASCII set Python uses (space, tab to carriage return, and 0x1C-0x1F). Unicode whitespace beyond ASCII is not modelled.
- The `requests` import (line 8) and the commented-out `urlencode` line (line 111) carry no logic.
- Python dict insertion order: the output is a Dafny `map`, so the order of its keys is not modelled.
