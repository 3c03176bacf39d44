/**
 * The reader as functions of the input and an offset: the reference
 * against which the methods of `JsonParser` are proved. Each function
 * gives what the same-named method returns and the offset at which it
 * leaves the cursor; the cursor's line and column are always
 * `LocationOf(json, offset)`, so an error is built with `ErrorAt`.
 */
module JsonSpec {
  import opened Wrappers
  import opened JsonText
  import opened JsonNumbers
  import opened JsonValues

  /** A value read from the text and the offset just after it. */
  datatype Parsed<T> = Parsed(value: T, end: nat)

  /** The single characters the eight simple escapes stand for. */
  function EscapeOf(e: char): (r: Option<char>)
    ensures r.Some? <==> e in "\"\\/bfnrt"
  {
    match e
    case '"' => Some('"')
    case '\\' => Some('\\')
    case '/' => Some('/')
    case 'b' => Some('\U{0008}')
    case 'f' => Some('\U{000C}')
    case 'n' => Some('\n')
    case 'r' => Some('\r')
    case 't' => Some('\t')
    case _ => None
  }

  /** An escape sequence of `parseString`, read from offset `p` just after
      the backslash: one of the eight simple escapes gives its character; a
      `\u` escape is kept as written, the backslash, the 'u' and the next
      four characters, without checking that they are hexadecimal. */
  function EscapeAt(json: string, p: nat): (r: Result<Parsed<string>, ParseError>)
    requires p <= |json|
    ensures r.Ok? ==> p < r.value.end <= |json|
  {
    if p >= |json| then Err(ErrorAt(json, UnterminatedEscape, p))
    else if json[p] == 'u' then
      if p + 1 + 4 > |json| then Err(ErrorAt(json, InvalidUnicodeEscape, p + 1))
      else Ok(Parsed("\\u" + json[p + 1..p + 5], p + 5))
    else match EscapeOf(json[p])
      case Some(d) => Ok(Parsed([d], p + 1))
      case None => Err(ErrorAt(json, InvalidEscape(json[p]), p + 1))
  }

  /** The loop of `parseString` from offset `p`, with `acc` read so far. */
  function StringBody(json: string, p: nat, acc: string): (r: Result<Parsed<string>, ParseError>)
    requires p <= |json|
    ensures r.Ok? ==> p < r.value.end <= |json|
    decreases |json| - p
  {
    if p >= |json| then Err(ErrorAt(json, UnterminatedString, p))
    else if json[p] == '"' then Ok(Parsed(acc, p + 1))
    else if json[p] == '\\' then
      match EscapeAt(json, p + 1)
      case Err(e) => Err(e)
      case Ok(d) => StringBody(json, d.end, acc + d.value)
    else StringBody(json, p + 1, acc + [json[p]])
  }

  /** `parseString`: a quoted string with its escapes decoded. */
  function StringAt(json: string, p: nat): (r: Result<Parsed<string>, ParseError>)
    requires p <= |json|
    ensures r.Ok? ==> p + 1 < r.value.end <= |json|
  {
    match Expect(json, p, '"')
    case Err(e) => Err(e)
    case Ok(p1) => StringBody(json, p1, "")
  }

  /** `parseTrue`, `parseFalse` and `parseNull`: the exact word, or an error
      at the unchanged cursor. */
  function LiteralAt(json: string, p: nat, word: string, v: Json): (r: Result<Parsed<Json>, ParseError>)
    requires p <= |json|
    ensures r.Ok? <==> p + |word| <= |json| && json[p..p + |word|] == word
    ensures r.Ok? ==> r.value == Parsed(v, p + |word|)
    ensures r.Err? ==> r.error == ErrorAt(json, InvalidLiteral(word), p)
  {
    if p + |word| > |json| || json[p..p + |word|] != word then Err(ErrorAt(json, InvalidLiteral(word), p))
    else Ok(Parsed(v, p + |word|))
  }

  /** `parseNumber`: the number lexeme and its value. */
  function NumberAt(json: string, p: nat): (r: Result<Parsed<Json>, ParseError>)
    requires p <= |json|
    ensures r.Ok? ==> p < r.value.end <= |json|
  {
    match NumberEnd(json, p)
    case Err(e) => Err(e)
    case Ok(q) => Ok(Parsed(JNumber(LexemeValue(json[p..q])), q))
  }

  /** `parseValue`: skip whitespace and dispatch on the next character. */
  function ValueAt(json: string, p: nat): (r: Result<Parsed<Json>, ParseError>)
    requires p <= |json|
    ensures r.Ok? ==> p < r.value.end <= |json|
    decreases |json| - p, 3
  {
    var q := SkipWs(json, p);
    if q >= |json| then Err(ErrorAt(json, UnexpectedEnd, q))
    else DispatchAt(json, q)
  }

  /** The `switch` of `parseValue` on the character at offset `q`. */
  function DispatchAt(json: string, q: nat): (r: Result<Parsed<Json>, ParseError>)
    requires q < |json|
    ensures r.Ok? ==> q < r.value.end <= |json|
    decreases |json| - q, 2
  {
    var ch := json[q];
    if ch == '{' then ObjectAt(json, q)
    else if ch == '[' then ArrayAt(json, q)
    else if ch == '"' then
      match StringAt(json, q)
      case Err(e) => Err(e)
      case Ok(s) => Ok(Parsed(JString(s.value), s.end))
    else if ch == 't' then LiteralAt(json, q, "true", JBoolean(true))
    else if ch == 'f' then LiteralAt(json, q, "false", JBoolean(false))
    else if ch == 'n' then LiteralAt(json, q, "null", JNull)
    else if ch == '-' || IsDigit(ch) then NumberAt(json, q)
    else Err(ErrorAt(json, UnexpectedCharacter(ch), q))
  }

  /** `parseObject`. */
  function ObjectAt(json: string, p: nat): (r: Result<Parsed<Json>, ParseError>)
    requires p <= |json|
    ensures r.Ok? ==> p < r.value.end <= |json|
    decreases |json| - p, 1
  {
    match Expect(json, p, '{')
    case Err(e) => Err(e)
    case Ok(p1) =>
      var p2 := SkipWs(json, p1);
      if Peek(json, p2) == '}' then Ok(Parsed(JObject(map[]), p2 + 1))
      else ObjectMembers(json, p2, map[])
  }

  /** `ObjectAt` unfolded once, after the '{' and the whitespace. */
  lemma ObjectAtStart(json: string, p: nat, p2: nat)
    requires p < |json| && json[p] == '{' && p2 == SkipWs(json, p + 1)
    ensures ObjectAt(json, p) ==
      if Peek(json, p2) == '}' then Ok(Parsed(JObject(map[]), p2 + 1)) else ObjectMembers(json, p2, map[])
  { }

  /** One member of `parseObject`'s loop from offset `p`: whitespace, a
      string key, whitespace, ':' and a value. */
  function MemberAt(json: string, p: nat): (r: Result<Parsed<(string, Json)>, ParseError>)
    requires p <= |json|
    ensures r.Ok? ==> p < r.value.end <= |json|
    decreases |json| - p, 0
  {
    var p1 := SkipWs(json, p);
    if Peek(json, p1) != '"' then Err(ErrorAt(json, ExpectedStringKey, p1))
    else match StringAt(json, p1)
      case Err(e) => Err(e)
      case Ok(key) =>
        match Expect(json, SkipWs(json, key.end), ':')
        case Err(e) => Err(e)
        case Ok(p3) =>
          match ValueAt(json, p3)
          case Err(e) => Err(e)
          case Ok(v) => Ok(Parsed((key.value, v.value), v.end))
  }

  /** The member loop of `parseObject` from offset `p`, with `acc` read so
      far; a repeated key overwrites the earlier value. */
  function ObjectMembers(json: string, p: nat, acc: map<string, Json>): (r: Result<Parsed<Json>, ParseError>)
    requires p <= |json|
    ensures r.Ok? ==> p < r.value.end <= |json|
    decreases |json| - p, 1
  {
    match MemberAt(json, p)
    case Err(e) => Err(e)
    case Ok(m) =>
      var members := acc[m.value.0 := m.value.1];
      var p4 := SkipWs(json, m.end);
      var next := Peek(json, p4);
      if next == '}' then Ok(Parsed(JObject(members), p4 + 1))
      else if next == ',' then ObjectMembers(json, p4 + 1, members)
      else Err(ErrorAt(json, ExpectedCommaOrBrace, p4))
  }

  /** One turn of the member loop, unfolded once: after a member, the next
      significant character decides. */
  lemma ObjectMembersStep(json: string, p: nat, acc: map<string, Json>, key: string, v: Json, e: nat, p4: nat)
    requires p <= |json|
    requires MemberAt(json, p) == Ok(Parsed((key, v), e)) && p4 == SkipWs(json, e)
    ensures Peek(json, p4) == '}' ==> ObjectMembers(json, p, acc) == Ok(Parsed(JObject(acc[key := v]), p4 + 1))
    ensures Peek(json, p4) == ',' ==> ObjectMembers(json, p, acc) == ObjectMembers(json, p4 + 1, acc[key := v])
    ensures Peek(json, p4) != '}' && Peek(json, p4) != ',' ==>
      ObjectMembers(json, p, acc) == Err(ErrorAt(json, ExpectedCommaOrBrace, p4))
  { }

  /** A member that fails to read fails the whole loop with its error. */
  lemma ObjectMembersFail(json: string, p: nat, acc: map<string, Json>)
    requires p <= |json| && MemberAt(json, p).Err?
    ensures ObjectMembers(json, p, acc) == Err(MemberAt(json, p).error)
  { }

  /** `parseArray`. */
  function ArrayAt(json: string, p: nat): (r: Result<Parsed<Json>, ParseError>)
    requires p <= |json|
    ensures r.Ok? ==> p < r.value.end <= |json|
    decreases |json| - p, 1
  {
    match Expect(json, p, '[')
    case Err(e) => Err(e)
    case Ok(p1) =>
      var p2 := SkipWs(json, p1);
      if Peek(json, p2) == ']' then Ok(Parsed(JArray([]), p2 + 1))
      else ArrayElements(json, p2, [])
  }

  /** `ArrayAt` unfolded once, after the '[' and the whitespace. */
  lemma ArrayAtStart(json: string, p: nat, p2: nat)
    requires p < |json| && json[p] == '[' && p2 == SkipWs(json, p + 1)
    ensures ArrayAt(json, p) ==
      if Peek(json, p2) == ']' then Ok(Parsed(JArray([]), p2 + 1)) else ArrayElements(json, p2, [])
  { }

  /** The element loop of `parseArray` from offset `p`, with `acc` read so
      far, in input order. */
  function ArrayElements(json: string, p: nat, acc: seq<Json>): (r: Result<Parsed<Json>, ParseError>)
    requires p <= |json|
    ensures r.Ok? ==> p < r.value.end <= |json|
    decreases |json| - p, 4
  {
    match ValueAt(json, p)
    case Err(e) => Err(e)
    case Ok(v) =>
      var elements := acc + [v.value];
      var p1 := SkipWs(json, v.end);
      var next := Peek(json, p1);
      if next == ']' then Ok(Parsed(JArray(elements), p1 + 1))
      else if next == ',' then ArrayElements(json, p1 + 1, elements)
      else Err(ErrorAt(json, ExpectedCommaOrBracket, p1))
  }

  /** An element that fails to read fails the whole loop with its error. */
  lemma ArrayElementsFail(json: string, p: nat, acc: seq<Json>)
    requires p <= |json| && ValueAt(json, p).Err?
    ensures ArrayElements(json, p, acc) == Err(ValueAt(json, p).error)
  { }

  /** `JsonParser::parse`: one value, then only whitespace up to the end. */
  function Parse(json: string): (r: Result<Json, ParseError>)
  {
    match ValueAt(json, 0)
    case Err(e) => Err(e)
    case Ok(v) =>
      var q := SkipWs(json, v.end);
      if q < |json| then Err(ErrorAt(json, TrailingContent, q)) else Ok(v.value)
  }

  /** One turn of the element loop after the value `v` ending at `e` was
      read and whitespace skipped up to `p1`: a ']' closes the array, a ','
      starts the next turn, anything else is an error. */
  lemma ArrayElementsStep(json: string, p: nat, acc: seq<Json>, v: Json, e: nat, p1: nat)
    requires p <= |json| && ValueAt(json, p) == Ok(Parsed(v, e)) && p1 == SkipWs(json, e)
    ensures Peek(json, p1) == ']' ==> ArrayElements(json, p, acc) == Ok(Parsed(JArray(acc + [v]), p1 + 1))
    ensures Peek(json, p1) == ',' ==> ArrayElements(json, p, acc) == ArrayElements(json, p1 + 1, acc + [v])
    ensures Peek(json, p1) != ']' && Peek(json, p1) != ',' ==>
      ArrayElements(json, p, acc) == Err(ErrorAt(json, ExpectedCommaOrBracket, p1))
  { }
}
