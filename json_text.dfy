/**
 * Positions in a JSON text: the character classes the reader uses, the
 * 1-based line and column of every offset, the error value the reader
 * raises, and the small scanning steps shared by the whole grammar.
 *
 * A text is a sequence of `char`; each element stands for one byte of the
 * `std::string_view` the reader is given.
 */
module JsonText {
  import opened Wrappers

  /** The C `isspace` set in the "C" locale: space, \t, \n, \v, \f, \r. */
  predicate IsSpace(ch: char) {
    ch == ' ' || ch == '\t' || ch == '\n' || ch == '\U{000B}' || ch == '\U{000C}' || ch == '\r'
  }

  /** The C `isdigit` set. */
  predicate IsDigit(ch: char) {
    '0' <= ch <= '9'
  }

  /** A 1-based line and column, as reported in every parse error. */
  datatype Location = Location(line: nat, column: nat)

  /** Where offset `p` of `json` lies, counted from line 1, column 1: a
      line feed starts the next line at column 1, any other character moves
      one column to the right. */
  function LocationOf(json: string, p: nat): (loc: Location)
    requires p <= |json|
    ensures loc.line >= 1 && loc.column >= 1
  {
    if p == 0 then Location(1, 1)
    else
      var before := LocationOf(json, p - 1);
      if json[p - 1] == '\n' then Location(before.line + 1, 1)
      else Location(before.line, before.column + 1)
  }

  /** Stepping over `k` characters none of which is a line feed keeps the
      line and adds `k` to the column (how the literals true, false and null
      are skipped). */
  lemma {:induction false} LiteralLocation(json: string, p: nat, k: nat)
    requires p + k <= |json|
    requires forall i | p <= i < p + k :: json[i] != '\n'
    ensures LocationOf(json, p + k) == Location(LocationOf(json, p).line, LocationOf(json, p).column + k)
  {
    if k > 0 {
      LiteralLocation(json, p, k - 1);
    }
  }

  /** What went wrong; the message text of the source is not modelled. */
  datatype ErrorKind =
    | UnexpectedEnd
    | UnexpectedCharacter(found: char)
    | ExpectedStringKey
    | ExpectedCommaOrBrace
    | ExpectedCommaOrBracket
    | UnterminatedEscape
    | InvalidUnicodeEscape
    | InvalidEscape(escaped: char)
    | UnterminatedString
    | InvalidNumber
    | ExpectedFractionDigit
    | ExpectedExponentDigit
    | InvalidLiteral(literal: string)
    | ExpectedButEnd(expected: char)
    | ExpectedButFound(expected: char, found: char)
    | TrailingContent

  /** The `runtime_error` the reader throws: a kind and the 1-based line and
      column at the point of failure. */
  datatype ParseError = ParseError(kind: ErrorKind, line: nat, column: nat)

  /** The error of kind `kind` raised with the cursor at offset `p`. */
  function ErrorAt(json: string, kind: ErrorKind, p: nat): (e: ParseError)
    requires p <= |json|
    ensures e.kind == kind && Location(e.line, e.column) == LocationOf(json, p)
  {
    ParseError(kind, LocationOf(json, p).line, LocationOf(json, p).column)
  }

  /** `peek()`: the character at `p`, or '\0' at the end of the input. */
  function Peek(json: string, p: nat): (ch: char)
    ensures p < |json| ==> ch == json[p]
    ensures p >= |json| ==> ch == '\0'
  {
    if p >= |json| then '\0' else json[p]
  }

  /** `skipWhitespace()`: the first offset at or after `p` that is the end of
      the input or holds a character outside the `isspace` set. */
  function SkipWs(json: string, p: nat): (q: nat)
    requires p <= |json|
    ensures p <= q <= |json|
    ensures q == |json| || !IsSpace(json[q])
    decreases |json| - p
  {
    if p < |json| && IsSpace(json[p]) then SkipWs(json, p + 1) else p
  }

  /** Everything `SkipWs` steps over is whitespace. */
  lemma {:induction false} SkipWsSkipsSpaces(json: string, p: nat)
    requires p <= |json|
    ensures forall i | p <= i < SkipWs(json, p) :: IsSpace(json[i])
    decreases |json| - p
  {
    if p < |json| && IsSpace(json[p]) {
      SkipWsSkipsSpaces(json, p + 1);
    }
  }

  /** `expect(ch)`: consume `ch` or fail, naming the end of input or the
      character found instead. */
  function Expect(json: string, p: nat, ch: char): (r: Result<nat, ParseError>)
    requires p <= |json|
    ensures r.Ok? <==> p < |json| && json[p] == ch
    ensures r.Ok? ==> r.value == p + 1
    ensures r.Err? ==> r.error == if p == |json| then ErrorAt(json, ExpectedButEnd(ch), p)
                                  else ErrorAt(json, ExpectedButFound(ch, json[p]), p)
  {
    if p >= |json| then Err(ErrorAt(json, ExpectedButEnd(ch), p))
    else if json[p] != ch then Err(ErrorAt(json, ExpectedButFound(ch, json[p]), p))
    else Ok(p + 1)
  }

  /** The end of the run of digits starting at `p`. */
  function DigitsEnd(json: string, p: nat): (q: nat)
    requires p <= |json|
    ensures p <= q <= |json|
    ensures q == |json| || !IsDigit(json[q])
    decreases |json| - p
  {
    if p < |json| && IsDigit(json[p]) then DigitsEnd(json, p + 1) else p
  }

  /** Everything `DigitsEnd` steps over is a digit. */
  lemma {:induction false} DigitsEndSkipsDigits(json: string, p: nat)
    requires p <= |json|
    ensures forall i | p <= i < DigitsEnd(json, p) :: IsDigit(json[i])
    decreases |json| - p
  {
    if p < |json| && IsDigit(json[p]) {
      DigitsEndSkipsDigits(json, p + 1);
    }
  }

  /** A run of digits ended by a non-digit or the end of input is exactly
      what `DigitsEnd` skips. */
  lemma {:induction false} DigitsEndExact(json: string, p: nat, q: nat)
    requires p <= q <= |json|
    requires forall i | p <= i < q :: IsDigit(json[i])
    requires q == |json| || !IsDigit(json[q])
    ensures DigitsEnd(json, p) == q
    decreases q - p
  {
    if p < q {
      DigitsEndExact(json, p + 1, q);
    }
  }
}
