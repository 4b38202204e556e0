# yelp-roulette query parser and unit converter, in Dafny

yelp-roulette answers a text message with a random business from Yelp's
search API. This project models the two pieces that turn the message into
a search request:

- `ParseRequest` (pkg/yelp/request.go) splits the message into tokens and
  reads the following from it:
  - a free-text search term;
  - a location after `in`;
  - an "open now" flag from `open`;
  - price codes from `$` to `$$$$`;
  - a search radius after `within`.
- `ToMeters` (pkg/convert/convert.go) converts a distance in a named unit
  (miles, kilometres, metres and their spellings) into metres.

The model follows the parser's own steps:
- the split on single spaces;
- one classifying pass over the tokens;
- the sorted list of phrase boundaries;
- `indexOf`;
- the cut at the next boundary;
- the `within` regular expression `(\d+)(\w*)`.

It proves that these steps compute a declarative reading of the query
language (`RequestSpec.SpecParse`). The phrase a keyword opens runs up to
the next boundary position. The result is assembled from the last `in`,
`open` and `within`. The per-field properties of `ParseRequest` are then
read off that reading.

Modules:

| file | module | contents |
|---|---|---|
| results.dfy | `Results` | `Option` and `Result`; a Go `(T, error)` return is a `Result<T>` holding the error text |
| go_strings.dfy | `GoStrings` | `strings.ToLower` (ASCII), `Split` on one character, `Join`, `Count` |
| go_strconv.dfy | `GoStrconv` | decimal digits, `fmt.Sprint` of a natural number, `strconv.ParseFloat` on decimal literals, `int(x)` truncation, `strconv.Quote` |
| go_sort.dfy | `GoSort` | `sort.Ints` as an insertion sort |
| within_pattern.dfy | `WithinPattern` | `FindStringSubmatch` for `(\d+)(\w*)` |
| convert.dfy | `Convert` | `unitMap` and `ToMeters` |
| tokens.dfy | `Tokens` | token kinds, last keyword positions, term tokens, price codes, phrase boundaries |
| request.dfy | `Request` | `ParseRequest` step by step, and `indexOf` |
| request_spec.dfy | `RequestSpec` | the declarative reading, and the proof that the parser computes it |
| request_properties.dfy | `RequestProperties` | what `ParseRequest` promises about each field and each error |
| request_examples.dfy | `RequestExamples` | the cases of convert_test.go, and the seven request_test.go cases whose only keyword is one `within` |

Behaviour of the code that is easy to miss. The model follows the code
in every case:

- The message is split on every single space, so two spaces in a row give
  an empty token (not a split on runs of whitespace).
- When `in`, `open` or `within` occurs more than once, the last
  occurrence wins, because each occurrence overwrites the recorded
  position.
- The search term is the non-keyword tokens before the first `in` or
  `within`. A free-text token after a phrase has ended belongs to no
  field and is dropped: in `pizza in NYC $ cheap`, "cheap" is lost.
- The regular expression is not anchored. A one-token distance is read
  from the leftmost digit: `abc10mi` is 10 miles. A decimal point ends the
  match, so `1.5mi` is 1 metre.
- `within` may come before `in`. The `in` phrase is still checked first,
  so a missing location is reported even when the distance is also bad.

## Model

| member | source | states |
|---|---|---|
| Request.Classify | pkg/yelp/request.go:30-48 | the loop (one `Step` per token, folded over the tokens) is summarised independently: after it, the recorded `in`, `open` and `within` positions are the last tokens of each kind; the price positions are exactly the price tokens; the price codes are the dollar counts of the price tokens, in order |
| Request.Boundaries | pkg/yelp/request.go:52-53 | the boundary list is sorted and holds exactly the price positions and the `in`, `within` and `open` positions and the token count, with repetitions, one entry per input |
| Request.ClassifyTerm | pkg/yelp/request.go:41-46 | the term the loop collects is the free-text tokens in front of the first `in` or `within`; once such a keyword has been seen, the term stops growing |
| Request.IndexOf | pkg/yelp/request.go:117-128 | on a sorted list, `indexOf` finds the first occurrence of the value, and returns -1 exactly when the value is absent |
| Request.NextEntry | pkg/yelp/request.go:56-60 | the entry after the keyword's position in the sorted boundary list is the least boundary above it, and never beyond the token count |
| Request.BoundariesFit | pkg/yelp/request.go:50-53 | the sorted list of price positions, `in`, `within`, `open` and the token count holds the token count, nothing above it, and the `in` and `within` positions exactly once |
| Request.PhraseAt | pkg/yelp/request.go:55-61 | a keyword at the last token has no phrase; otherwise its phrase is the tokens after it up to the nearest boundary-list entry above it |
| Request.LocationTokens | pkg/yelp/request.go:55-65 | no `in` gives an empty location; the only error is "no location provided"; it succeeds exactly when the `in` phrase exists and is non-empty |
| Request.WithinRadius | pkg/yelp/request.go:67-71 | no `within` gives radius 0; `within` as the last token is "invalid within options provided" |
| Request.WithinDistance | pkg/yelp/request.go:75-104 | every error is one of the two `within` errors or the converter's; zero or three or more tokens are "invalid within options provided"; a single token with no digit is "invalid value provided for within distance"; a single all-digit token is that many metres; a single token's result is never negative; digits followed by a unit convert the lowercased unit and truncate; two tokens fail when the number does not parse, and otherwise convert the lowercased unit and truncate |
| RequestSpec.BoundaryMembership | pkg/yelp/request.go:50-53 | among non-negative numbers, the boundary list holds exactly the ends of phrases: the token count, the price tokens and the last `in`, `open` and `within` |
| RequestSpec.PhraseAtNextBoundary | pkg/yelp/request.go:55-61 | cutting at the next boundary-list entry is cutting at the next phrase-ending position |
| RequestSpec.LocationMatches | pkg/yelp/request.go:55-65 | the parser's location check agrees with the declarative location, in success, error text and joined value |
| RequestSpec.RadiusMatches | pkg/yelp/request.go:67-105 | the parser's radius agrees with the declarative radius |
| RequestSpec.TextOnly | pkg/yelp/request.go:18-114 | a token list without keywords is all search term, with no location, no open flag, no prices and radius 0 |
| RequestSpec.ParseTokensMatchesSpec | pkg/yelp/request.go:18-114 | on every token list, the parser returns exactly the result of the declarative reading |
| RequestProperties.ParseRequestSpec | pkg/yelp/request.go:18-19 | `ParseRequest` is the declarative reading applied to the message split on spaces |
| RequestProperties.WithinMessage | pkg/yelp/request.go:18-114 | a message whose only keyword is one `within` has the words in front of it as its term, no location, no open flag and no prices; its radius or its error is that of the words after the `within` |
| RequestSpec.WithinClause | pkg/yelp/request.go:30-105 | on a token list whose only keyword is one `within`, the declarative reading is the term in front of it and the radius or the error of the phrase after it |
| RequestProperties.LocationOutcome | pkg/yelp/request.go:55-65 | "no location provided" comes exactly when the last `in` opens an empty phrase, whatever the `within` phrase holds; on success, the location is the `in` phrase joined with spaces, or empty without `in` |
| RequestProperties.LocationFirst | pkg/yelp/request.go:55-73 | the same location outcome on any token list: the location check precedes the distance check |
| RequestProperties.WithinOutcome | pkg/yelp/request.go:67-105 | when a location is present: without `within` the request succeeds with radius 0; with `within` it succeeds exactly when the phrase denotes a distance, with that radius, and otherwise fails with that phrase's error |
| RequestProperties.OpenNowOutcome | pkg/yelp/request.go:34-35 | a successful request is open-now exactly when some token lowercases to `open` |
| RequestProperties.OpenAnywhere | pkg/yelp/request.go:31-35 | some token lowercases to `open` exactly when there is a last `open` position |
| RequestProperties.TermAndPriceOutcome | pkg/yelp/request.go:38-46 | on success, the term is the free text before the first `in` or `within`, joined with spaces; the prices are one code per price token, in order; each code is one of "1" to "4" |
| RequestProperties.PlainMessage | pkg/yelp/request.go:107-113 | a message with no keyword is its own search term, and every other field is empty |
| RequestProperties.WithinUnitSpacing | pkg/yelp/request.go:76-101 | a whole number followed by a unit reads the same as one token (`10mi`) and as two (`10 mi`) |
| RequestProperties.WithinNumberAndUnit | pkg/yelp/request.go:92-101 | a whole number with a known unit gives at least that many metres; with an unknown unit it fails with the converter's error naming the lowercased unit |
| Tokens.KindOfWord | pkg/yelp/request.go:31-38 | a token is `in`, `open`, `within` or a price exactly when its lowercase form is that keyword or one to four dollar signs |
| Tokens.LastBefore | pkg/yelp/request.go:32-37 | the position found is of the asked kind, and no later token among the first `n` is of that kind |
| Tokens.FirstStop | pkg/yelp/request.go:42-46 | the position found is an `in` or `within`, and no earlier token is one |
| Tokens.PriceLevel | pkg/yelp/request.go:40 | a price token's code is the decimal form of its length, one of "1" to "4" |
| Tokens.DollarCount | pkg/yelp/request.go:38-40 | a price token is one to four characters, and every one is a dollar sign |
| Tokens.PriceCodes | pkg/yelp/request.go:38-40 | every collected price code is one of "1" to "4" |
| Tokens.PriceLevelsAppend | pkg/yelp/request.go:38-40 | the price codes of a message are those of its parts, concatenated in order |
| Tokens.PriceLevelsSingle | pkg/yelp/request.go:38-40 | one token gives its dollar count when it is a price token, and nothing otherwise |
| Tokens.PlainTokensAppend | pkg/yelp/request.go:41-46 | dropping the keywords commutes with concatenating token lists |
| Tokens.PlainTokensKeepsText | pkg/yelp/request.go:41-46 | tokens of which none is a keyword are all kept, in order |
| Tokens.NextBoundary | pkg/yelp/request.go:50-61 | the phrase a keyword opens ends at a boundary position after it, with none in between |
| Tokens.StopSeen | pkg/yelp/request.go:42 | an `in` or `within` has been seen among the first `n` tokens exactly when the term stops before `n` |
| Convert.LookupLength | pkg/convert/convert.go:9-26 | each spelling maps to its unit's length in metres; every accepted unit is at least a metre; a missing name gives the zero length |
| Convert.ToMeters | pkg/convert/convert.go:25-31 | the conversion succeeds exactly for the thirteen table spellings; it multiplies by 1609.344, 1000 or 1 according to the spelling's unit; the only error is `unknown unit provided: ` followed by the quoted name |
| Convert.ToMetersAwayFromZero | pkg/convert/convert.go:30 | converting never moves a value toward zero |
| Convert.AcceptedSpellings | pkg/convert/convert.go:9-23 | the table accepts exactly the thirteen spellings |
| Convert.UpperCaseUnknown | pkg/convert/convert.go:25-29 | the lookup is case-sensitive, so any name with an upper-case letter is an unknown unit |
| Convert.EmptyNameUnknown | pkg/convert/convert.go:26-28 | the empty name is unknown, and the error text is `unknown unit provided: ""` |
| WithinPattern.FindSubmatch | pkg/yelp/request.go:14 | there is no match exactly when the token has no digit; otherwise the match starts at the leftmost digit, takes the longest run of digits, then the longest run of word characters |
| WithinPattern.MatchAt | pkg/yelp/request.go:14 | a match at a digit is a maximal run of digits followed by a maximal run of word characters |
| WithinPattern.NumberThenUnit | pkg/yelp/request.go:77-82 | digits directly followed by a word that does not start with a digit split into exactly those two groups |
| GoStrings.Lower | pkg/yelp/request.go:31 | lowercasing keeps the length and lowercases each ASCII letter in place |
| GoStrings.LowersToLower | pkg/yelp/request.go:31 | comparing character by character after lowercasing is comparing the lowercased string |
| GoStrings.Split | pkg/yelp/request.go:19 | a split has at least one piece, even for the empty message |
| GoStrings.CountChar | pkg/yelp/request.go:40 | the count is zero exactly when the character is absent, and is at most the length |
| GoStrings.CountCharOccurrences | pkg/yelp/request.go:40 | the count is the number of occurrences of the character |
| GoStrings.SplitPieces | pkg/yelp/request.go:19 | no piece of a split contains the separator |
| GoStrings.SplitCount | pkg/yelp/request.go:19 | a split has one piece more than the string has separators |
| GoStrings.JoinSplit | pkg/yelp/request.go:19 | joining the pieces with the separator gives back the message |
| GoStrings.SplitJoin | pkg/yelp/request.go:108-109 | joining a non-empty list of space-free words with spaces and splitting the result on spaces gives back the words |
| GoSort.SortInts | pkg/yelp/request.go:53 | the result is sorted and is a permutation of the input |
| GoSort.Insert | pkg/yelp/request.go:53 | inserting into a sorted list keeps it sorted and adds exactly the new entry |
| GoStrconv.NatToDecimal | pkg/yelp/request.go:40 | the decimal form of a number is digits without a leading zero that read back as the number |
| GoStrconv.ParseFloat | pkg/yelp/request.go:93 | an all-digit string parses to its value, and whatever parses holds a digit |
| GoStrconv.ParseFloatDecimal | pkg/yelp/request.go:93 | a literal made of an optional sign, whole digits and an optional point with fraction digits, with at least one digit, parses to the whole part plus the fraction over the power of ten, negated after `-` |
| GoStrconv.ParseFloatOnlyDecimal | pkg/yelp/request.go:93-96 | the parse succeeds exactly when the string is such a literal; every other string is a syntax error |
| GoStrconv.ParseFloatOfDecimal | pkg/yelp/request.go:81 | a number's decimal form parses back to that number |
| GoStrconv.Truncate | pkg/yelp/request.go:84 | `int(x)` truncates toward zero: the result is the integer closest to `x` on the side of zero, within one |
| GoStrconv.Quote | pkg/convert/convert.go:28 | the quoted form starts and ends with a double quote and is at least two characters longer than the name |
| GoStrconv.QuoteRoundTrip | pkg/convert/convert.go:28 | unquoting the quoted form of any name gives back the name, so the error text names the unit exactly |
| GoStrconv.QuotePlain | pkg/convert/convert.go:28 | a name without quotes, backslashes or control characters is quoted by just wrapping it in double quotes |
| RequestExamples.Conversions | pkg/convert/convert_test.go:18-95 | each of the test's thirteen conversions gives the expected number of metres |
| RequestExamples.TenMiles | pkg/yelp/request.go:92-101 | the two-token phrase `10 mi` is 16093 metres |
| RequestExamples.TenMilesUpperCase | pkg/yelp/request.go:92-101 | the phrase `10 MI` is 16093 metres, because the unit is lowercased |
| RequestExamples.TenMilesJoined | pkg/yelp/request.go:76-91 | the one-token phrase `10MI` is 16093 metres |
| RequestExamples.ThousandMetresJoined | pkg/yelp/request.go:76-91 | the one-token phrase `1000m` is 1000 metres |
| RequestExamples.BareNumber | pkg/yelp/request.go:76-84 | the phrase `1500` is 1500 metres |
| RequestExamples.NotADistance | pkg/yelp/request.go:76-80 | the phrase `distance` fails with "invalid value provided for within distance" |
| RequestExamples.WithinSpaced | pkg/yelp/request_test.go:77-84 | the message `within 10 mi` is a request with radius 16093 and every other field empty |
| RequestExamples.WithinCapitalUnits | pkg/yelp/request_test.go:85-92 | the message `within 10 MI` is a request with radius 16093 and every other field empty |
| RequestExamples.WithinCapitalNoSpace | pkg/yelp/request_test.go:93-100 | the message `within 10MI` is a request with radius 16093 and every other field empty |
| RequestExamples.WithinNoSpace | pkg/yelp/request_test.go:101-108 | the message `within 1000m` is a request with radius 1000 and every other field empty |
| RequestExamples.WithinValueOnly | pkg/yelp/request_test.go:109-116 | the message `within 1500` is a request with radius 1500 and every other field empty |
| RequestExamples.WithinInvalidValue | pkg/yelp/request_test.go:117-121 | the message `within distance` fails with "invalid value provided for within distance" |
| RequestExamples.WithinWithoutValue | pkg/yelp/request_test.go:201-205 | the message `dinner within` fails with "invalid within options provided" |

## Left out

- The SMS webhook, the CLI, the Yelp client, the random pick of a business
  and the search types beyond `SearchRequest` (main.go, cmd/cli/main.go,
  pkg/yelp/client.go, pkg/yelp/types.go) are I/O around the parser.
  `RandomBusiness` is not part of this model.
- `strings.ToLower` is modelled for ASCII letters only. Go's full Unicode
  case mapping would change only non-ASCII tokens.
- Floats are exact reals. The model leaves out rounding to float64, so
  10 miles is exactly 16093.44 metres. Overflow of `int(x)` for huge
  distances is left out for the same reason.
- GoStrconv.ParseFloat: accepts only an optional sign, digits and one
  optional decimal point. Exponents, hexadecimal floats, underscores,
  `Inf` and `NaN` are syntax errors here, because modelling Go's full
  float grammar is outside the parser. Its own contract covers all-digit
  strings; the full accepted shape is `GoStrconv.ParseFloatOnlyDecimal`.
- Request.WithinDistance: does not model float64 overflow of a number
  literal of more than about 309 digits. Go's `ParseFloat` then returns
  infinity with a range error. On the two-token path (request.go:93-95)
  Go fails with "invalid value provided for within distance". On the
  one-token path (request.go:81-84) the error is ignored and `int` is
  applied to infinity. The model reads either literal as its exact,
  very large value.
- GoStrings.Split: its own contract only promises at least one piece. The
  content of the pieces is stated by `GoStrings.JoinSplit`,
  `GoStrings.SplitPieces` and `GoStrings.SplitCount`.
- GoStrconv.Quote: its own contract states only the surrounding quotes
  and the length. That the quoted form spells the name is
  `GoStrconv.QuoteRoundTrip`.
- GoStrconv.Quote: escapes quotes, backslashes and ASCII control
  characters, and takes every non-ASCII character as printable. Go's
  Unicode printability tables and the escaping of invalid UTF-8 are left
  out.
- Go's `(0, err)` return is modelled as an `Err` alone. The zero values
  beside an error are never read by the callers.
- The regular expression engine is modelled only for the one pattern
  `(\d+)(\w*)`, as `WithinPattern.FindSubmatch`.
- `unit.Length` arithmetic from github.com/martinlindhe/unit is modelled
  as multiplication by the unit's length in metres. That package is not
  part of this model.
- `sort.Ints` is modelled as an insertion sort. A sorted permutation is
  unique, so the boundary list is the same as Go's.
- The whole-message cases of request_test.go that involve `in`, `open`
  or a price are covered by the general lemmas of `RequestProperties`,
  and are not restated one message at a time. These are the term,
  location, price and open cases, the missing location, and
  `dinner within $ $$ open`.
- The test's `random-unit` error case is covered by `Convert.ToMeters`
  (its error text) and `GoStrconv.QuotePlain`, not by a separate example.
- Convert.AcceptedSpellings: states that the table accepts exactly the
  thirteen listed names. It does not count the entries as a number.
- Request.WithinRadius: its own contract states only the two cases that
  need no distance. Its full agreement with the declarative radius is
  `RequestSpec.RadiusMatches`.
- An empty `Price` list in a Go result may be `[]string{}` or nil. The
  model does not distinguish the two, and always has a sequence.
