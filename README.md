# Stock portfolio tracker core in Dafny

This project models the core of a C++ stock-portfolio tracker. The app reads
market data as JSON over HTTP, keeps a portfolio of companies with their
share-transaction ledgers and price histories, and stores them in SQLite. The
model covers five parts.

- **The JSON reader.**
  - `JsonValues` is the six-way JSON value with its checked accessors.
  - `JsonParsing.JsonParser` is the recursive-descent parser. It is a class
    with fields `json`, `position`, `line` and `column`, and its methods
    mirror the C++ member functions.
  - `JsonSpec` is a pure reference parser over the same text. It is built from
    `JsonText` (whitespace, peeking, expectations, line/column locations) and
    `JsonNumbers` (the number scanner and the JSON number grammar).
  - Every parser method is proved to agree with the reference function for its
    grammar rule:
    - the same value or the same error kind and location;
    - on success, the cursor ends where the reference says it does, and the
      line and column match that offset.

  The lemmas about the reference functions cover:
  - soundness and completeness of the number scanner against the JSON number
    grammar;
  - the string escape round trip;
  - trailing-content, trailing-comma and stray-closer rejection;
  - last-write-wins on duplicate keys;
  - the line/column bookkeeping;
  - a set of concrete inputs, each with its exact result or error location.
- **HTTP.**
  - `Headers.HttpHeaders` is a class over an ordered map. Its iteration is the
    key-sorted entry list.
  - `HeaderParsing.ParseHeaders` is the raw-header parser. It splits the text
    into lines, splits each line at its first colon, trims, and stores
    last-wins. Its loop is proved against `HeaderFields`.
  - `Responses` is the response value and its 2xx success test.
- **SQL.**
  - `SqlValues` is the six-way cell value with checked accessors.
  - `SqlRows.Row` and `SqlResultSets.ResultSet` are classes over a column map
    and a row list.
  - `SqlTransactions.Database` is the transaction flag of the database
    handle:
    - each call is proved equal to a pure outcome function;
    - the statement execution is a boolean that the caller supplies;
    - the flag is proved consistent with the log of executed statements.
- **Domain.**
  - `Tickers` is the non-empty ticker symbol and its ordering. `StringOrder`
    proves that this ordering is a strict total order, and
    `StringOrder.LessIsLexicographic` proves that it is the lexicographic one:
    a proper prefix comes first, otherwise the first differing character
    decides. Characters compare by their unsigned values, as
    `std::char_traits<char>` compares the bytes of a `std::string`.
  - `Companies.Company` is a class holding the transaction ledger and the price
    stack. It keeps the invariant "never more shares sold than bought".
  - `Portfolios.Portfolio` keeps a ticker-keyed map with `emplace` semantics:
    the first company tracked under a ticker stays.

Integers are unbounded throughout. The C++ `int` share counts, `size_t` sizes
and `long` status codes are modelled as mathematical integers, so overflow is
not modelled. Characters are one byte of the input each, and whitespace and
digits are the C locale's.

Where the behaviour described for the system and the code differ, the model
follows the code:
- **`\uXXXX` escapes.** The escape is kept in the decoded string as the six
  characters `\uXXXX` (`src/spt.infrastructure.text/jsonparser.cpp:162-174`),
  not converted to a code point. Any four characters are accepted after `\u`,
  hex or not. `JsonExamples.UnicodeKeptVerbatim` shows this.
- **`"01"`.** The number scanner stops after the `0`, and the document fails
  because of the trailing `1` (`TrailingContent` at line 1, column 2). It does
  not fail inside the number grammar. `JsonExamples.LeadingZero` shows this.

## Model

| member | source | states |
|---|---|---|
| JsonText.LocationOf | src/spt.infrastructure.text/jsonparser.cpp:307-319 | the line/column reached at an offset is always at least (1, 1); it is how `consume` counts: a newline starts a new line at column 1, anything else adds one column |
| JsonExamples.LocationOnOneLine | src/spt.infrastructure.text/jsonparser.cpp:311-317 | with no newline before offset p, the location is line 1, column p + 1 |
| JsonText.Peek | src/spt.infrastructure.text/jsonparser.cpp:300-305 | the character at the cursor, or `'\0'` at or past the end of input |
| JsonText.SkipWs | src/spt.infrastructure.text/jsonparser.cpp:283-298 | whitespace skipping never moves back, stays in the text, and stops at the end or at a non-space character |
| JsonText.SkipWsSkipsSpaces | src/spt.infrastructure.text/jsonparser.cpp:284-293 | every character skipped is whitespace |
| JsonText.Expect | src/spt.infrastructure.text/jsonparser.cpp:325-338 | succeeds exactly when the next character is the expected one, then advances by one; otherwise "expected but reached end" at end of input, or "expected but found c" at the cursor |
| JsonText.DigitsEnd | src/spt.infrastructure.text/jsonparser.cpp:210-212 | a digit run ends at the end of input or at a non-digit |
| JsonText.DigitsEndSkipsDigits | src/spt.infrastructure.text/jsonparser.cpp:222-224 | every character of the run is a digit |
| JsonNumbers.ExponentEndAfterSign | src/spt.infrastructure.text/jsonparser.cpp:227-240 | after `e`/`E` and an optional sign a digit is required: without one, the error is "expected exponent digit" at that point; with one, the exponent runs to the end of the digits |
| JsonNumbers.NumberEndSound | src/spt.infrastructure.text/jsonparser.cpp:195-240 | every lexeme the number scanner accepts matches the JSON number grammar `-?(0\|[1-9][0-9]*)(.[0-9]+)?([eE][+-]?[0-9]+)?` |
| JsonNumbers.NumberEndComplete | src/spt.infrastructure.text/jsonparser.cpp:198-240 | every grammar lexeme that is followed by the end of input or a non-number character is accepted and scanned exactly to its end |
| JsonNumbers.NumberEndRejectsOnlyNonNumbers | src/spt.infrastructure.text/jsonparser.cpp:201-205 | when the scanner reports an error, no slice from the start up to a number boundary is a grammar lexeme |
| JsonNumbers.LeadingZeroStandsAlone | src/spt.infrastructure.text/jsonparser.cpp:207-208 | a leading `0` is the whole integer part even when digits follow it |
| JsonParsing.JsonParser.constructor | src/spt.infrastructure.text/jsonparser.cpp:21-26 | the cursor starts at offset 0, line 1, column 1 |
| JsonParsing.JsonParser.Consume | src/spt.infrastructure.text/jsonparser.cpp:307-319 | at end of input returns `'\0'` and does not move; otherwise returns the current character and advances one, keeping line/column equal to the location of the new offset |
| JsonParsing.JsonParser.SkipWhitespace | src/spt.infrastructure.text/jsonparser.cpp:283-298 | the cursor ends at `SkipWs` of where it started, with line/column tracking it |
| JsonParsing.JsonParser.Expect | src/spt.infrastructure.text/jsonparser.cpp:325-338 | the error or the one-character advance that the reference `Expect` gives |
| JsonParsing.JsonParser.ParseValue | src/spt.infrastructure.text/jsonparser.cpp:28-59 | skips whitespace and dispatches on the next character (`{ [ " t f n - 0-9`); "unexpected end" or "unexpected character" otherwise; the result and the final cursor agree with the reference `ValueAt` |
| JsonParsing.JsonParser.ParseObject | src/spt.infrastructure.text/jsonparser.cpp:61-71 | `{` then optional whitespace; `}` gives the empty object; the result agrees with the reference `ObjectAt` |
| JsonParsing.JsonParser.ParseMembers | src/spt.infrastructure.text/jsonparser.cpp:72-103 | the member loop: each member is inserted last-write-wins; `}` ends the object, `,` continues, anything else is "expected ',' or '}'" at the cursor; agrees with `ObjectMembers` |
| JsonParsing.JsonParser.ParseMember | src/spt.infrastructure.text/jsonparser.cpp:73-87 | a key must start with `"` ("expected string key" otherwise), then a string, whitespace, `:`, and a value; the cursor ends after the trailing whitespace |
| JsonSpec.ObjectMembersStep | src/spt.infrastructure.text/jsonparser.cpp:86-100 | after a member, `}` closes the object with the member added, `,` continues with it added, and anything else is the comma-or-brace error at that point |
| JsonParsing.JsonParser.ParseArray | src/spt.infrastructure.text/jsonparser.cpp:106-115 | `[` then optional whitespace; `]` gives the empty array; the result agrees with the reference `ArrayAt` |
| JsonParsing.JsonParser.ParseElements | src/spt.infrastructure.text/jsonparser.cpp:117-136 | the element loop appends values in order; `]` ends, `,` continues, anything else is "expected ',' or ']'"; agrees with `ArrayElements` |
| JsonSpec.ArrayElementsStep | src/spt.infrastructure.text/jsonparser.cpp:118-133 | after an element, `]` closes the array with the element appended, `,` continues with it appended, and anything else is the comma-or-bracket error |
| JsonParsing.JsonParser.ParseString | src/spt.infrastructure.text/jsonparser.cpp:139-193 | `"`, then characters and escapes up to the closing `"`; "unterminated string" at end of input; agrees with the reference `StringAt` |
| JsonParsing.JsonParser.ParseEscape | src/spt.infrastructure.text/jsonparser.cpp:145-179 | the eight simple escapes decode to their character; `\u` needs four more characters and keeps `\uXXXX` verbatim; end of input and unknown escapes are errors |
| JsonSpec.EscapeOf | src/spt.infrastructure.text/jsonparser.cpp:153-161 | exactly the letters `" \ / b f n r t` are simple escapes |
| JsonParsing.JsonParser.ParseNumber | src/spt.infrastructure.text/jsonparser.cpp:195-248 | scans the lexeme with the number scanner and returns the number it denotes; errors are the scanner's |
| JsonParsing.JsonParser.ScanNumber | src/spt.infrastructure.text/jsonparser.cpp:196-240 | the cursor ends where `NumberEnd` ends, or the error is `NumberEnd`'s ("invalid number" when no digit follows the optional `-`) |
| JsonParsing.JsonParser.ConsumeFraction | src/spt.infrastructure.text/jsonparser.cpp:215-225 | an optional `.` must be followed by at least one digit; the cursor ends after the digits |
| JsonParsing.JsonParser.ConsumeExponent | src/spt.infrastructure.text/jsonparser.cpp:227-240 | an optional `e`/`E`, an optional sign, at least one digit; the cursor ends after the digits |
| JsonParsing.JsonParser.ConsumeDigits | src/spt.infrastructure.text/jsonparser.cpp:210-212 | consumes exactly the maximal run of digits |
| JsonSpec.LiteralAt | src/spt.infrastructure.text/jsonparser.cpp:250-281 | a literal succeeds exactly when the whole word is present at the cursor, advancing by its length; otherwise "invalid literal" at the cursor |
| JsonParsing.JsonParser.ParseLiteral | src/spt.infrastructure.text/jsonparser.cpp:250-259 | `true`/`false`/`null` agree with `LiteralAt`, and the column advances by the word's length |
| JsonParsing.JsonParser.Parse | src/spt.infrastructure.text/jsonparser.cpp:341-352 | the parser's result is exactly the reference `Parse` of the text |
| JsonProperties.ParseConsumesAll | src/spt.infrastructure.text/jsonparser.cpp:343-349 | a document parses exactly when one value parses and only whitespace follows it; the result is that value; a value followed by more content is "trailing content" |
| JsonProperties.SkipWsToEnd | src/spt.infrastructure.text/jsonparser.cpp:344-345 | trailing whitespace is skipped to the end of input |
| JsonProperties.ValueRejectsClosers | src/spt.infrastructure.text/jsonparser.cpp:54-57 | a value cannot start with `]`, `}` or `,`; the error names that character at its location |
| JsonProperties.ArrayTrailingCommaFails | src/spt.infrastructure.text/jsonparser.cpp:117-118 | `]` where an element is due (after a comma) is an "unexpected character" error |
| JsonProperties.ObjectTrailingCommaFails | src/spt.infrastructure.text/jsonparser.cpp:73-79 | `}` where a key is due (after a comma) is an "expected string key" error |
| JsonProperties.EncodeCharDecodes | src/spt.infrastructure.text/jsonparser.cpp:145-161 | a character left unescaped is neither `"` nor `\`; an escaped one is a backslash plus a letter that decodes back to it |
| JsonProperties.StringBodyDecodes | src/spt.infrastructure.text/jsonparser.cpp:143-183 | decoding an encoded string body followed by `"` yields the original string and stops just after the quote |
| JsonProperties.StringRoundTrip | src/spt.infrastructure.text/jsonparser.cpp:139-193 | for every string s, parsing `"` + encode(s) + `"` gives back s, whatever follows |
| JsonExamples.Literals | src/spt.infrastructure.text/jsonparser.cpp:44-49 | `null`, ` true ` and `false` parse to their values |
| JsonExamples.TruncatedLiteral | src/spt.infrastructure.text/jsonparser.cpp:272-277 | `nul` is "invalid literal null" at line 1, column 1 |
| JsonExamples.EmptyContainers | src/spt.infrastructure.text/jsonparser.cpp:66-70 | `[ ]` and `{` newline `}` parse to the empty array and the empty object |
| JsonExamples.LeadingZero | src/spt.infrastructure.text/jsonparser.cpp:207-208 | `01` fails with "trailing content" at line 1, column 2 |
| JsonExamples.TwoValues | src/spt.infrastructure.text/jsonparser.cpp:345-349 | `1 2` fails with "trailing content" at line 1, column 3 |
| JsonExamples.Integer | src/spt.infrastructure.text/jsonparser.cpp:195-247 | `42` is the number 42 |
| JsonExamples.OneDigit | src/spt.infrastructure.text/jsonparser.cpp:207-213 | a lone digit is the number it denotes, one character long |
| JsonExamples.Scientific | src/spt.infrastructure.text/jsonparser.cpp:195-247 | `-3.5e2` is the number -350 |
| JsonExamples.BareMinus | src/spt.infrastructure.text/jsonparser.cpp:198-205 | `-` alone is "invalid number" at line 1, column 2 |
| JsonExamples.Escapes | src/spt.infrastructure.text/jsonparser.cpp:159 | `"a\nb"` decodes the escape to a newline |
| JsonExamples.UnicodeKeptVerbatim | src/spt.infrastructure.text/jsonparser.cpp:162-174 | `"\u00zz"` is kept as the six characters `\u00zz` |
| JsonExamples.MissingClosingQuote | src/spt.infrastructure.text/jsonparser.cpp:185-189 | `"ab` is "unterminated string" at line 1, column 4 |
| JsonExamples.ArrayOrder | src/spt.infrastructure.text/jsonparser.cpp:118-119 | `[1,2]` keeps its elements in order |
| JsonExamples.DuplicateKey | src/spt.infrastructure.text/jsonparser.cpp:86 | `{"a":1,"a":2}` keeps the last value, 2 |
| JsonExamples.ArrayTrailingComma | src/spt.infrastructure.text/jsonparser.cpp:126-128 | `[1,]` is "unexpected character ]" at line 1, column 4 |
| JsonExamples.ObjectTrailingComma | src/spt.infrastructure.text/jsonparser.cpp:93-95 | `{"a":1,}` is "expected string key" at line 1, column 8 |
| JsonExamples.MissingColon | src/spt.infrastructure.text/jsonparser.cpp:84 | `{"a" 1}` is "expected ':' but found '1'" at line 1, column 6 |
| JsonValues.Json.GetBoolean | src/spt.infrastructure/jsonvalue.cpp:74-76 | succeeds exactly on a boolean and returns its payload; bad variant access otherwise |
| JsonValues.Json.GetNumber | src/spt.infrastructure.text/jsonvalue.cpp:78-80 | succeeds exactly on a number and returns its payload; bad variant access otherwise |
| JsonValues.Json.GetString | src/spt.infrastructure/jsonvalue.cpp:82-84 | succeeds exactly on a string and returns its payload; bad variant access otherwise |
| JsonValues.Json.GetArray | src/spt.infrastructure.text/jsonvalue.cpp:86-88 | succeeds exactly on an array and returns its elements; bad variant access otherwise |
| JsonValues.Json.GetObject | src/spt.infrastructure/jsonvalue.cpp:90-92 | succeeds exactly on an object and returns its members; bad variant access otherwise |
| JsonValues.Json.Count | src/spt.infrastructure.text/jsonvalue.cpp:94-102 | the number of elements of an array, of members of an object, and 0 for anything else |
| JsonValues.Json.At | src/spt.infrastructure/jsonvalue.cpp:111-116 | the element at the index when it is an array and the index is in range; "not an array" and "index out of range" otherwise |
| JsonValues.Json.Get | src/spt.infrastructure.text/jsonvalue.cpp:118-123 | the member under the key when it is an object holding the key; "not an object" and "key not found" otherwise |
| JsonValues.IndexingAgreesWithCountAndContains | src/spt.infrastructure.text/jsonvalue.cpp:104-116 | indexing succeeds exactly below `count()`, and key lookup succeeds exactly when `contains` holds |
| JsonValues.ExactlyOneKind | src/spt.infrastructure.text/jsonvalue.cpp:50-72 | every value is of exactly one of the six kinds |
| JsonValues.ConstructorsRoundTrip | src/spt.infrastructure/jsonvalue.cpp:22-48 | each constructor's payload is read back by the matching getter, and a mismatched getter fails |
| JsonValues.StructuralEqualityIsEquality | src/spt.infrastructure/jsonvalue.cpp:125 | the member-wise (defaulted) equality, recursing into arrays and objects, is exactly value equality |
| StringOrder.LessIrreflexive | src/spt.domain/ticker.cpp:27 | no symbol is ordered before itself |
| StringOrder.LessAsymmetric | src/spt.domain/ticker.cpp:27 | two symbols are never each ordered before the other |
| StringOrder.LessTransitive | src/spt.domain/ticker.cpp:27 | the symbol order is transitive |
| StringOrder.LessTotal | src/spt.domain/ticker.cpp:27 | any two distinct symbols are ordered one way or the other |
| StringOrder.LessIsLexicographic | src/spt.domain/ticker.cpp:27 | the order is lexicographic: a proper prefix comes first, otherwise the first differing character decides |
| Tickers.NewTicker | src/spt.domain/ticker.cpp:15-21 | a ticker is created exactly from a non-empty symbol and keeps that symbol; an empty symbol is rejected |
| Tickers.Compare | src/spt.domain/ticker.cpp:27 | tickers compare equal exactly when equal, and otherwise as their symbols compare |
| Tickers.CompareAntisymmetric | src/spt.domain/ticker.cpp:27 | swapping the arguments swaps less and greater and keeps equivalence |
| Tickers.CompareTransitive | src/spt.domain/ticker.cpp:27 | "less" is transitive over tickers |
| Headers.HttpHeaders.constructor | src/spt.infrastructure.net/httpheaders.cpp:52 | a new header set is empty |
| Headers.HttpHeaders.Get | src/spt.infrastructure.net/httpheaders.cpp:17-29 | nothing exactly when the name is absent (`contains` is false); otherwise the stored value |
| Headers.HttpHeaders.Set | src/spt.infrastructure.net/httpheaders.cpp:31-33 | the name now maps to the new value; every other name reads as before; the size grows only for a new name |
| Headers.HttpHeaders.Entries | src/spt.infrastructure.net/httpheaders.cpp:35-49 | iteration visits every stored name once, in strictly ascending name order, with its value |
| HeaderParsing.LineEnd | src/spt.infrastructure.net/httpclient.cpp:150 | a line ends at the next newline or at the end of the text |
| HeaderParsing.LinesRejoin | src/spt.infrastructure.net/httpclient.cpp:150 | the lines contain no newline, and joining them with newlines (plus the final newline, if any) gives back the text |
| HeaderParsing.FirstColonIsFirst | src/spt.infrastructure.net/httpclient.cpp:151 | the split position is the first colon of the line |
| HeaderParsing.TrimEndIsLongestPrefix | src/spt.infrastructure.net/httpclient.cpp:155 | trailing space, CR and LF are removed and nothing more: the result is a prefix, the removed part is all blanks, and the result does not end in one |
| HeaderParsing.TrimStartIsLongestSuffix | src/spt.infrastructure.net/httpclient.cpp:156 | leading spaces and tabs are removed and nothing more |
| HeaderParsing.Field | src/spt.infrastructure.net/httpclient.cpp:151-157 | a line yields a field exactly when it contains a colon |
| HeaderParsing.BuildNames | src/spt.infrastructure.net/httpclient.cpp:158 | a name is stored exactly when some field carries it |
| HeaderParsing.BuildLastWins | src/spt.infrastructure.net/httpclient.cpp:158 | the stored value is the one of the last field carrying the name |
| HeaderParsing.FieldsLastWins | src/spt.infrastructure.net/httpclient.cpp:150-160 | over header lines: a name is present exactly when some line with a colon carries it, and its value comes from the last such line |
| HeaderParsing.GetLine | src/spt.infrastructure.net/httpclient.cpp:150 | returns the text up to the next newline and the position after that newline |
| HeaderParsing.ParseHeaders | src/spt.infrastructure.net/httpclient.cpp:144-163 | builds a fresh header set equal to `HeaderFields(raw)`: the colon-split, trimmed lines stored last-wins |
| Responses.SuccessIsClass2xx | src/spt.infrastructure.net/httpresponse.cpp:25-27 | a response is successful exactly when its status is in the 2xx class |
| SqlValues.ExactlyOneAlternative | src/spt.infrastructure.sql/value.cpp:40-62 | exactly one of the six `isX` tests holds for every value |
| SqlValues.GetInt | src/spt.infrastructure.sql/value.cpp:64-66 | succeeds exactly on an `int` value and returns it; bad variant access otherwise |
| SqlValues.GetLong | src/spt.infrastructure.sql/value.cpp:68-70 | succeeds exactly on a `long long` value and returns it |
| SqlValues.GetDouble | src/spt.infrastructure.sql/value.cpp:72-74 | succeeds exactly on a `double` value and returns it |
| SqlValues.GetString | src/spt.infrastructure.sql/value.cpp:76-78 | succeeds exactly on a text value and returns it |
| SqlValues.GetBlob | src/spt.infrastructure.sql/value.cpp:80-82 | succeeds exactly on a blob and returns its bytes |
| SqlValues.IntIsNotLong | src/spt.infrastructure.sql/value.cpp:20-26 | an `int` value and a `long long` value are distinct alternatives, and neither getter reads the other |
| SqlRows.Row.constructor | src/spt.infrastructure/row.cpp:38 | a new row has no columns |
| SqlRows.Row.Count | src/spt.infrastructure/row.cpp:16-18 | the number of distinct column names |
| SqlRows.Row.Get | src/spt.infrastructure.sql/row.cpp:20-31 | the stored value exactly when the column is present (`contains`); "column not found" naming the column otherwise |
| SqlRows.Row.Set | src/spt.infrastructure/row.cpp:33-35 | the column now holds the value; every other column reads as before; the count grows only for a new column |
| SqlResultSets.ResultSet.constructor | src/spt.infrastructure/resultset.cpp:37 | a new result set has no rows |
| SqlResultSets.ResultSet.Count | src/spt.infrastructure.sql/resultset.cpp:12-14 | the number of rows |
| SqlResultSets.ResultSet.Rows | src/spt.infrastructure/resultset.cpp:28-34 | iteration visits `count()` rows |
| SqlResultSets.ResultSet.Add | src/spt.infrastructure.sql/resultset.cpp:16-18 | the row is appended at the end; the earlier rows are unchanged and the count grows by one |
| SqlResultSets.ResultSet.Clear | src/spt.infrastructure/resultset.cpp:24-26 | no rows remain |
| SqlTransactions.BeginOutcome | src/spt.infrastructure.sql/database.cpp:76-82 | inside a transaction: "already in transaction", with nothing executed; otherwise BEGIN is executed and the flag is set exactly when it succeeded |
| SqlTransactions.CommitOutcome | src/spt.infrastructure.sql/database.cpp:84-90 | outside a transaction: "no transaction", with nothing executed; otherwise COMMIT is executed and the flag is cleared exactly when it succeeded |
| SqlTransactions.RollbackOutcome | src/spt.infrastructure.sql/database.cpp:92-97 | outside a transaction: nothing happens, and no error; otherwise ROLLBACK is executed and the flag is cleared exactly when it succeeded |
| SqlTransactions.DestroyOutcome | src/spt.infrastructure.sql/database.cpp:59-67 | the destructor rolls back an open transaction like `rollback`, but never reports an error |
| SqlTransactions.OpenAfterAppend | src/spt.infrastructure.sql/database.cpp:76-97 | a transaction is open after a log exactly when the last successful statement was BEGIN |
| SqlTransactions.CallsKeepConsistent | src/spt.infrastructure.sql/database.cpp:59-97 | begin, commit, rollback and destruction keep the flag equal to "a transaction is open" as read from the executed-statement log |
| SqlTransactions.RollbackIdempotent | src/spt.infrastructure.sql/database.cpp:92-97 | after a successful rollback, a second rollback changes nothing and reports nothing |
| SqlTransactions.Database.constructor | src/spt.infrastructure.sql/database.cpp:41-42 | a new handle is not in a transaction and has executed nothing |
| SqlTransactions.Database.Begin | src/spt.infrastructure.sql/database.cpp:76-82 | the new flag, log and error are those of `BeginOutcome` |
| SqlTransactions.Database.Commit | src/spt.infrastructure.sql/database.cpp:84-90 | the new flag, log and error are those of `CommitOutcome` |
| SqlTransactions.Database.Rollback | src/spt.infrastructure.sql/database.cpp:92-97 | the new flag, log and error are those of `RollbackOutcome` |
| SqlTransactions.Database.Destroy | src/spt.infrastructure.sql/database.cpp:59-67 | the new flag and log are those of `DestroyOutcome` |
| Companies.HeldIsBoughtMinusSold | src/spt.domain/company.cpp:124-145 | the signed sum of the ledger equals shares bought minus shares sold |
| Companies.BoughtNonNegative | src/spt.domain/company.cpp:124-130 | over positive-share transactions, shares bought are never negative |
| Companies.SoldNonNegative | src/spt.domain/company.cpp:132-138 | over positive-share transactions, shares sold are never negative |
| Companies.NewRecord | src/spt.domain/company.cpp:33-42 | a new company's name is its ticker symbol, with an empty ledger and no prices |
| Companies.Company.constructor | src/spt.domain/company.cpp:33-42 | a new company's name is its ticker symbol, with an empty ledger and no prices |
| Companies.Company.Record | src/spt.domain/portfolio.cpp:18 | the copy of the company that `emplace` stores in the portfolio: it carries the same ticker, name, ledger and prices |
| Companies.Company.SetName | src/spt.domain/company.cpp:60-66 | an empty name resets the name to the ticker symbol; any other name is stored; the ledger and prices are unchanged |
| Companies.Company.SharesBought | src/spt.domain/company.cpp:124-130 | for a valid company, the shares bought are never negative |
| Companies.Company.SharesSold | src/spt.domain/company.cpp:132-138 | for a valid company, shares sold lie between 0 and shares bought |
| Companies.Company.ShareCount | src/spt.domain/company.cpp:140-145 | the share count is shares bought minus shares sold, and never negative for a valid company |
| Companies.Company.CurrentPrice | src/spt.domain/company.cpp:92-100 | unknown exactly when no price was recorded; otherwise the most recent price |
| Companies.Company.UpdatePrice | src/spt.domain/company.cpp:108-110 | the price is pushed on top and becomes the current price; the name and ledger are unchanged |
| Companies.Company.PriceHistory | src/spt.domain/company.cpp:112-122 | returns all recorded prices, oldest first, and changes nothing |
| Companies.Company.BuyShares | src/spt.domain/company.cpp:147-153 | a non-positive amount is rejected and changes nothing; otherwise a buy is appended and the share count grows by that amount; validity is kept |
| Companies.Company.SellShares | src/spt.domain/company.cpp:155-164 | a non-positive amount, or more than the share count, is rejected and changes nothing; otherwise a sell is appended and the share count drops by that amount; the count stays non-negative |
| Portfolios.Emplace | src/spt.domain/portfolio.cpp:18 | `emplace`: an existing entry for the ticker is kept; a new ticker gets the company; every other entry is unchanged; the size grows by at most one |
| Portfolios.EmplaceKeepsFiling | src/spt.domain/portfolio.cpp:17-19 | tracking a company under its own ticker keeps every entry filed under its company's ticker |
| Portfolios.EmplaceTwice | src/spt.domain/portfolio.cpp:21-23 | tracking under the same ticker a second time changes nothing: the first company tracked stays |
| Portfolios.Portfolio.constructor | src/spt.domain/portfolio.cpp:14 | a new portfolio tracks no company |
| Portfolios.Portfolio.Track | src/spt.domain/portfolio.cpp:17-23 | the map becomes `Emplace` of the company's snapshot under its ticker |
| Portfolios.Portfolio.TrackNamed | src/spt.domain/portfolio.cpp:25-28 | the map becomes `Emplace` of a new company with the given name under the ticker |
| Portfolios.Portfolio.TrackTicker | src/spt.domain/portfolio.cpp:30-33 | the map becomes `Emplace` of a new company named by its symbol under the ticker |

## Left out

- Floating point: `std::stod` rounding and its `out_of_range` exception on huge exponents are not modelled. `JsonParsing.JsonParser.ParseNumber` returns the exact decimal value of the lexeme as a real, and `JsonValues`/`SqlValues` hold doubles as reals.
- Message text: errors carry a kind and a line/column, not the formatted message of the exception.
- Integer widths: `int` share counts, `size_t` sizes and `long` statuses are unbounded integers, so overflow is not modelled. `SqlValues` keeps 32/64-bit ranges as subset types only.
- Characters are single bytes of the input. `isspace` and `isdigit` are the C locale's sets. There is no UTF-8 decoding.
- `Price`, `Money` and `PricePoint` arithmetic and timestamps are left out: a price is an opaque amount, and the price stack is a sequence of prices. `priceFor` (`src/spt.domain/company.cpp:102-106`) is money arithmetic and is not modelled.
- Some helpers that the company and portfolio code calls are not defined in the sources: `Transaction`'s `isBuying` and `isSelling`, `Company::getTicker`, and the two-argument `Company` constructor. The call `Transaction(type, shares, currentPrice())` also does not match the defined constructor (`src/spt.domain/transaction.cpp:22`), which takes a `double` unit price that `Price` does not convert to. A transaction is modelled as (kind, shares): `Transaction.shares` is `getShares()` (`src/spt.domain/transaction.cpp:40-42`), and `isBuying`/`isSelling` are `kind == Buy`/`kind == Sell`. The constructor's rejection of `shares <= 0` (`src/spt.domain/transaction.cpp:28-30`) is what `Companies.Company.Valid()` reflects with "every transaction moves a positive number of shares". The unit price, its one-cent check (`src/spt.domain/transaction.cpp:31-33`) and the timestamp are not modelled, with the rest of the price arithmetic. `getTicker` is the company's ticker. `track(ticker, name)` stores the name as given, and `track(ticker)` names the company by its symbol. `untrack` is not modelled, because it is not defined anywhere.
- The exchange, type, sector and industry getters and setters of `Company` are plain field accessors and are not modelled.
- `Portfolios.Portfolio` stores value snapshots of companies (the C++ map stores copies), so later changes to a tracked `Company` object are not reflected, as in the source.
- `SqlTransactions.Database`: SQLite is not modelled. Opening a file and executing statements are replaced by a boolean outcome that the caller supplies, and the executed statements are kept as a log.
- `Responses.HttpResponse` holds the headers as a map value. The constructor and its accessors are the datatype's own constructor and destructors, so they have no contract of their own.
- The rest of `HttpClient` (libcurl, requests, timeouts), the network, the GUI and every SQLite call are not modelled.
- `Headers.HttpHeaders.Contains`, `SqlRows.Row.Contains` and `JsonValues.Json.Contains` (`src/spt.infrastructure/jsonvalue.cpp:104-109`) have no contract of their own. Their meaning is stated through `Get`, whose success is exactly `Contains`, and for JSON values through `JsonValues.IndexingAgreesWithCountAndContains`.
- `JsonValues.Json.IsNull` … `JsonValues.Json.IsObject` (`src/spt.infrastructure.text/jsonvalue.cpp:50-72`) and `SqlValues.IsNull` … `SqlValues.IsBlob` (`src/spt.infrastructure.sql/value.cpp:40-62`) are the variant tests and have no contract of their own. What they promise is stated by `JsonValues.ExactlyOneKind` and `SqlValues.ExactlyOneAlternative` (exactly one holds), and by each getter, which succeeds exactly when its test holds.
- `Responses.IsSuccess` (`src/spt.infrastructure.net/httpresponse.cpp:25-27`) has no contract of its own. It holds exactly when 200 <= status < 300, and `Responses.SuccessIsClass2xx` states this as the 2xx status class.
- `JsonParsing.JsonParser.ParseMember`, `ParseMembers`, `ParseElements`, `ScanNumber`, `ConsumeFraction`, `ConsumeExponent` and `ConsumeDigits` are parts of the C++ `parseObject`, `parseArray` and `parseNumber`, split into methods of their own. Their combined behaviour is that of the C++ function.
- `JsonValues` keeps a single definition of the JSON value. The two copies of the class in the sources (`src/spt.infrastructure/jsonvalue.cpp` and `src/spt.infrastructure.text/jsonvalue.cpp`) behave the same. The same holds for the two copies each of `Row` and `ResultSet`.
