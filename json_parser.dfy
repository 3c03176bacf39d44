/**
 * `JsonParser`: the recursive-descent reader over a cursor. The cursor is
 * the offset `position` and the 1-based `line` and `column`, which every
 * step updates; `Valid()` states that line and column are always those of
 * `position`, so every error carries the true location of the failure.
 * Each parse method is proved to return what the same-named function of
 * `JsonSpec` gives and to leave the cursor where that function says.
 */
module JsonParsing {
  import opened Wrappers
  import opened JsonText
  import opened JsonNumbers
  import opened JsonValues
  import opened JsonSpec

  class JsonParser {
    const json: string
    var position: nat
    var line: nat
    var column: nat

    ghost predicate Valid()
      reads this
    {
      position <= |json| && Location(line, column) == LocationOf(json, position)
    }

    /** The method's result `r` and the cursor agree with `spec`: on success
        the same value and the cursor at its end, on failure the same error. */
    ghost predicate Agrees<T>(r: Result<T, ParseError>, spec: Result<Parsed<T>, ParseError>)
      reads this
    {
      if spec.Ok? then r.Ok? && r.value == spec.value.value && position == spec.value.end
      else r.Err? && r.error == spec.error
    }

    constructor (text: string)
      ensures json == text && position == 0 && line == 1 && column == 1
      ensures Valid()
    {
      json := text;
      position := 0;
      line := 1;
      column := 1;
    }

    predicate Eof()
      reads this
    {
      position >= |json|
    }

    function PeekChar(): char
      reads this
    {
      if Eof() then '\0' else json[position]
    }

    /** `consume()`: at the end of input return '\0' and change nothing;
        otherwise return the next character and step over it, a line feed
        moving to column 1 of the next line and any other character one
        column to the right. */
    method Consume() returns (ch: char)
      requires Valid()
      modifies this
      ensures Valid()
      ensures old(position) >= |json| ==> ch == '\0' && position == old(position)
      ensures old(position) < |json| ==> ch == json[old(position)] && position == old(position) + 1
    {
      if Eof() {
        return '\0';
      }
      ch := json[position];
      position := position + 1;
      if ch == '\n' {
        line := line + 1;
        column := 1;
      } else {
        column := column + 1;
      }
    }

    /** `skipWhitespace()`: step over the `isspace` characters. */
    method SkipWhitespace()
      requires Valid()
      modifies this
      ensures Valid()
      ensures position == SkipWs(json, old(position))
    {
      while !Eof()
        invariant Valid()
        invariant SkipWs(json, position) == SkipWs(json, old(position))
        decreases |json| - position
      {
        var ch := PeekChar();
        if IsSpace(ch) {
          if ch == '\n' {
            line := line + 1;
            column := 1;
          } else {
            column := column + 1;
          }
          position := position + 1;
        } else {
          break;
        }
      }
    }

    /** `expect(ch)`: the error it throws, if any. */
    method Expect(ch: char) returns (err: Option<ParseError>)
      requires Valid()
      modifies this
      ensures Valid()
      ensures match JsonText.Expect(json, old(position), ch)
        case Ok(q) => err == None && position == q
        case Err(e) => err == Some(e)
    {
      if Eof() {
        return Some(ParseError(ExpectedButEnd(ch), line, column));
      }
      var peeked := PeekChar();
      if peeked != ch {
        return Some(ParseError(ExpectedButFound(ch, peeked), line, column));
      }
      var _ := Consume();
      return None;
    }

    method ParseValue() returns (r: Result<Json, ParseError>)
      requires Valid()
      modifies this
      ensures Valid()
      ensures Agrees(r, ValueAt(json, old(position)))
      decreases |json| - position, 2
    {
      SkipWhitespace();
      if Eof() {
        return Err(ParseError(UnexpectedEnd, line, column));
      }
      assert ValueAt(json, old(position)) == DispatchAt(json, position);
      var ch := PeekChar();
      if ch == '{' {
        r := ParseObject();
      } else if ch == '[' {
        r := ParseArray();
      } else if ch == '"' {
        var s := ParseString();
        r := if s.Ok? then Ok(JString(s.value)) else Err(s.error);
      } else if ch == 't' {
        r := ParseLiteral("true", JBoolean(true));
      } else if ch == 'f' {
        r := ParseLiteral("false", JBoolean(false));
      } else if ch == 'n' {
        r := ParseLiteral("null", JNull);
      } else if ch == '-' || IsDigit(ch) {
        r := ParseNumber();
      } else {
        r := Err(ParseError(UnexpectedCharacter(ch), line, column));
      }
    }

    method ParseObject() returns (r: Result<Json, ParseError>)
      requires Valid()
      modifies this
      ensures Valid()
      ensures Agrees(r, ObjectAt(json, old(position)))
      decreases |json| - position, 1
    {
      var err := Expect('{');
      if err.Some? {
        return Err(err.value);
      }
      SkipWhitespace();
      ObjectAtStart(json, old(position), position);
      if PeekChar() == '}' {
        var _ := Consume();
        return Ok(JObject(map[]));
      }
      r := ParseMembers();
    }

    /** The member loop of `parseObject`, entered on the first member. */
    method ParseMembers() returns (r: Result<Json, ParseError>)
      requires Valid()
      modifies this
      ensures Valid()
      ensures Agrees(r, ObjectMembers(json, old(position), map[]))
      decreases |json| - position, 1
    {
      var members: map<string, Json> := map[];
      ghost var spec := ObjectMembers(json, position, members);
      ghost var pos := position;
      while true
        invariant Valid() && pos == position
        invariant ObjectMembers(json, pos, members) == spec
        decreases |json| - pos
      {
        var member := ParseMember();
        if member.Err? {
          ObjectMembersFail(json, pos, members);
          return Err(member.error);
        }
        var key := member.value.0;
        var value := member.value.1;
        ghost var p4 := position;
        ObjectMembersStep(json, pos, members, key, value, MemberAt(json, pos).value.end, p4);
        members := members[key := value];
        var next := PeekChar();
        assert next == Peek(json, p4);
        if next == '}' {
          var _ := Consume();
          assert spec == Ok(Parsed(JObject(members), position));
          return Ok(JObject(members));
        } else if next == ',' {
          var _ := Consume();
          pos := p4 + 1;
        } else {
          return Err(ParseError(ExpectedCommaOrBrace, line, column));
        }
      }
    }

    /** The body of `parseObject`'s loop up to the separator: skip
        whitespace, require '"', read the key, skip whitespace, expect ':',
        read the value, and skip the whitespace after it. On success the
        cursor rests on the character that decides whether the loop goes
        on. */
    method ParseMember() returns (r: Result<(string, Json), ParseError>)
      requires Valid()
      modifies this
      ensures Valid()
      ensures MemberAt(json, old(position)).Err? ==> r == Err(MemberAt(json, old(position)).error)
      ensures MemberAt(json, old(position)).Ok? ==> r == Ok(MemberAt(json, old(position)).value.value)
      ensures MemberAt(json, old(position)).Ok? ==> position == SkipWs(json, MemberAt(json, old(position)).value.end)
      decreases |json| - position, 0
    {
      SkipWhitespace();
      if PeekChar() != '"' {
        return Err(ParseError(ExpectedStringKey, line, column));
      }
      var keyResult := ParseString();
      if keyResult.Err? {
        return Err(keyResult.error);
      }
      var key := keyResult.value;
      SkipWhitespace();
      var err := Expect(':');
      if err.Some? {
        return Err(err.value);
      }
      var valueResult := ParseValue();
      if valueResult.Err? {
        return Err(valueResult.error);
      }
      SkipWhitespace();
      return Ok((key, valueResult.value));
    }

    method ParseArray() returns (r: Result<Json, ParseError>)
      requires Valid()
      modifies this
      ensures Valid()
      ensures Agrees(r, ArrayAt(json, old(position)))
      decreases |json| - position, 1
    {
      var err := Expect('[');
      if err.Some? {
        return Err(err.value);
      }
      SkipWhitespace();
      ArrayAtStart(json, old(position), position);
      if PeekChar() == ']' {
        var _ := Consume();
        return Ok(JArray([]));
      }
      r := ParseElements();
    }

    /** The element loop of `parseArray`, entered on the first element. */
    method ParseElements() returns (r: Result<Json, ParseError>)
      requires Valid()
      modifies this
      ensures Valid()
      ensures Agrees(r, ArrayElements(json, old(position), []))
      decreases |json| - position, 3
    {
      var elements: seq<Json> := [];
      ghost var spec := ArrayElements(json, position, elements);
      ghost var pos := position;
      while true
        invariant Valid() && pos == position
        invariant ArrayElements(json, pos, elements) == spec
        decreases |json| - pos
      {
        var valueResult := ParseValue();
        if valueResult.Err? {
          ArrayElementsFail(json, pos, elements);
          return valueResult;
        }
        ghost var e := position;
        SkipWhitespace();
        ghost var p1 := position;
        ArrayElementsStep(json, pos, elements, valueResult.value, e, p1);
        elements := elements + [valueResult.value];
        var next := PeekChar();
        assert next == Peek(json, p1);
        if next == ']' {
          var _ := Consume();
          assert spec == Ok(Parsed(JArray(elements), position));
          return Ok(JArray(elements));
        } else if next == ',' {
          var _ := Consume();
          pos := p1 + 1;
        } else {
          return Err(ParseError(ExpectedCommaOrBracket, line, column));
        }
      }
    }

    method ParseString() returns (r: Result<string, ParseError>)
      requires Valid()
      modifies this
      ensures Valid()
      ensures Agrees(r, StringAt(json, old(position)))
    {
      var result := "";
      var err := Expect('"');
      if err.Some? {
        return Err(err.value);
      }
      while !Eof() && PeekChar() != '"'
        invariant Valid()
        invariant StringBody(json, position, result) == StringAt(json, old(position))
        decreases |json| - position
      {
        var ch := Consume();
        if ch == '\\' {
          var escape := ParseEscape();
          if escape.Err? {
            return escape;
          }
          result := result + escape.value;
        } else {
          result := result + [ch];
        }
      }
      if Eof() {
        return Err(ParseError(UnterminatedString, line, column));
      }
      // The loop stopped at a '"', so this `expect` cannot fail.
      err := Expect('"');
      assert err.None?;
      return Ok(result);
    }

    /** The escape branch of `parseString`'s loop, entered just after the
        backslash. */
    method ParseEscape() returns (r: Result<string, ParseError>)
      requires Valid()
      modifies this
      ensures Valid()
      ensures Agrees(r, EscapeAt(json, old(position)))
    {
      if Eof() {
        return Err(ParseError(UnterminatedEscape, line, column));
      }
      var escaped := Consume();
      if escaped == '"' {
        r := Ok(['"']);
      } else if escaped == '\\' {
        r := Ok(['\\']);
      } else if escaped == '/' {
        r := Ok(['/']);
      } else if escaped == 'b' {
        r := Ok(['\U{0008}']);
      } else if escaped == 'f' {
        r := Ok(['\U{000C}']);
      } else if escaped == 'n' {
        r := Ok(['\n']);
      } else if escaped == 'r' {
        r := Ok(['\r']);
      } else if escaped == 't' {
        r := Ok(['\t']);
      } else if escaped == 'u' {
        if position + 4 > |json| {
          return Err(ParseError(InvalidUnicodeEscape, line, column));
        }
        var hex := "";
        ghost var start := position;
        for i := 0 to 4
          invariant Valid()
          invariant position == start + i
          invariant hex == json[start..start + i]
        {
          var h := Consume();
          hex := hex + [h];
        }
        r := Ok("\\u" + hex);
      } else {
        r := Err(ParseError(InvalidEscape(escaped), line, column));
      }
    }

    method ParseNumber() returns (r: Result<Json, ParseError>)
      requires Valid()
      modifies this
      ensures Valid()
      ensures Agrees(r, NumberAt(json, old(position)))
    {
      var start := position;
      var err := ScanNumber();
      if err.Some? {
        return Err(err.value);
      }
      var numberStr := json[start..position];
      return Ok(JNumber(LexemeValue(numberStr)));
    }

    /** The scanning part of `parseNumber`, up to the call of `stod`: an
        optional '-', the integer part, then the fraction and the exponent. */
    method ScanNumber() returns (err: Option<ParseError>)
      requires Valid()
      modifies this
      ensures Valid()
      ensures NumberEnd(json, old(position)).Ok? ==> err.None? && position == NumberEnd(json, old(position)).value
      ensures NumberEnd(json, old(position)).Err? ==> err == Some(NumberEnd(json, old(position)).error)
    {
      ghost var spec := NumberEnd(json, position);
      if PeekChar() == '-' {
        var _ := Consume();
      }
      if Eof() || !IsDigit(PeekChar()) {
        assert spec == Err(ErrorAt(json, InvalidNumber, position));
        return Some(ParseError(InvalidNumber, line, column));
      }
      if PeekChar() == '0' {
        var _ := Consume();
      } else {
        ConsumeDigits();
      }
      assert spec == match FractionEnd(json, position) case Err(e) => Err(e) case Ok(p3) => ExponentEnd(json, p3);
      err := ConsumeFraction();
      if err.Some? {
        return err;
      }
      assert spec == ExponentEnd(json, position);
      err := ConsumeExponent();
    }

    /** The fraction part of `parseNumber`: on a '.', step over it and
        require at least one digit. */
    method ConsumeFraction() returns (err: Option<ParseError>)
      requires Valid()
      modifies this
      ensures Valid()
      ensures FractionEnd(json, old(position)).Ok? ==> err.None? && position == FractionEnd(json, old(position)).value
      ensures FractionEnd(json, old(position)).Err? ==> err == Some(FractionEnd(json, old(position)).error)
    {
      if !Eof() && PeekChar() == '.' {
        var _ := Consume();
        if Eof() || !IsDigit(PeekChar()) {
          return Some(ParseError(ExpectedFractionDigit, line, column));
        }
        ConsumeDigits();
      }
      return None;
    }

    /** The exponent part of `parseNumber`: on 'e' or 'E', step over it
        and an optional sign and require at least one digit. */
    method ConsumeExponent() returns (err: Option<ParseError>)
      requires Valid()
      modifies this
      ensures Valid()
      ensures ExponentEnd(json, old(position)).Ok? ==> err.None? && position == ExponentEnd(json, old(position)).value
      ensures ExponentEnd(json, old(position)).Err? ==> err == Some(ExponentEnd(json, old(position)).error)
    {
      if !Eof() && (PeekChar() == 'e' || PeekChar() == 'E') {
        ghost var p := position;
        var _ := Consume();
        if !Eof() && (PeekChar() == '+' || PeekChar() == '-') {
          var _ := Consume();
        }
        ExponentEndAfterSign(json, p, position);
        if Eof() || !IsDigit(PeekChar()) {
          return Some(ParseError(ExpectedExponentDigit, line, column));
        }
        ConsumeDigits();
      }
      return None;
    }

    /** The `while (!eof() && isdigit(peek())) consume();` loop that
        `parseNumber` runs for each of its digit runs. */
    method ConsumeDigits()
      requires Valid()
      modifies this
      ensures Valid()
      ensures position == DigitsEnd(json, old(position))
    {
      while !Eof() && IsDigit(PeekChar())
        invariant Valid()
        invariant old(position) <= position
        invariant DigitsEnd(json, position) == DigitsEnd(json, old(position))
        decreases |json| - position
      {
        var _ := Consume();
      }
    }

    /** `parseTrue`, `parseFalse`, `parseNull`: compare the next characters
        with the word and, on a match, move the offset and the column by its
        length without going through `consume`. */
    method ParseLiteral(word: string, v: Json) returns (r: Result<Json, ParseError>)
      requires Valid()
      requires word in ["true", "false", "null"]
      modifies this
      ensures Valid()
      ensures Agrees(r, LiteralAt(json, old(position), word, v))
    {
      if position + |word| > |json| || json[position..position + |word|] != word {
        return Err(ParseError(InvalidLiteral(word), line, column));
      }
      forall i | position <= i < position + |word| ensures json[i] != '\n' {
        assert json[i] == word[i - position];
      }
      LiteralLocation(json, position, |word|);
      position := position + |word|;
      column := column + |word|;
      return Ok(v);
    }

    /** `JsonParser::parse`: read one value, skip trailing whitespace and
        require the end of input. */
    static method Parse(text: string) returns (r: Result<Json, ParseError>)
      ensures r == JsonSpec.Parse(text)
    {
      var parser := new JsonParser(text);
      var result := parser.ParseValue();
      if result.Err? {
        return result;
      }
      parser.SkipWhitespace();
      if !parser.Eof() {
        return Err(ParseError(TrailingContent, parser.line, parser.column));
      }
      return result;
    }
  }
}
