/**
 * Worked inputs for the reader, each the outcome `parse` gives on a short
 * text, including the places where it departs from RFC 8259.
 */
module JsonExamples {
  import opened Wrappers
  import opened JsonText
  import opened JsonValues
  import opened JsonNumbers
  import opened JsonSpec
  import opened JsonProperties

  /** The three literals, with whitespace around them. */
  lemma Literals(n: string, t: string, f: string)
    requires n == "null" && t == " true " && f == "false"
    ensures Parse(n) == Ok(JNull)
    ensures Parse(t) == Ok(JBoolean(true))
    ensures Parse(f) == Ok(JBoolean(false))
  {
    assert n[0..4] == "null" && t[1..5] == "true" && f[0..5] == "false";
    assert SkipWs(n, 0) == 0 && SkipWs(t, 0) == 1 && SkipWs(f, 0) == 0;
    assert DispatchAt(n, 0) == Ok(Parsed(JNull, 4));
    assert DispatchAt(t, 1) == Ok(Parsed(JBoolean(true), 5));
    assert DispatchAt(f, 0) == Ok(Parsed(JBoolean(false), 5));
    assert SkipWs(n, 4) == 4 && SkipWs(t, 5) == 6 && SkipWs(f, 5) == 5;
  }

  /** A literal must be spelt out in full. */
  lemma TruncatedLiteral(t: string)
    requires t == "nul"
    ensures Parse(t) == Err(ParseError(InvalidLiteral("null"), 1, 1))
  {
    assert SkipWs(t, 0) == 0;
    assert DispatchAt(t, 0) == Err(ErrorAt(t, InvalidLiteral("null"), 0));
  }

  /** Empty containers, with whitespace inside. */
  lemma EmptyContainers(a: string, o: string)
    requires a == "[ ]" && o == "{\n}"
    ensures Parse(a) == Ok(JArray([]))
    ensures Parse(o) == Ok(JObject(map[]))
  {
    assert SkipWs(a, 1) == 2 && SkipWs(o, 1) == 2;
    ArrayAtStart(a, 0, 2);
    ObjectAtStart(o, 0, 2);
    assert DispatchAt(a, 0) == Ok(Parsed(JArray([]), 3));
    assert DispatchAt(o, 0) == Ok(Parsed(JObject(map[]), 3));
    assert SkipWs(a, 0) == 0 && SkipWs(o, 0) == 0;
    assert SkipWs(a, 3) == 3 && SkipWs(o, 3) == 3;
  }

  /** A leading zero stands alone, so "01" leaves a '1' over. */
  lemma LeadingZero(t: string)
    requires t == "01"
    ensures Parse(t) == Err(ParseError(TrailingContent, 1, 2))
  {
    LeadingZeroStandsAlone(t, 0);
    assert t[0..1] == "0";
    assert NumberAt(t, 0) == Ok(Parsed(JNumber(LexemeValue("0")), 1));
    assert SkipWs(t, 0) == 0 && SkipWs(t, 1) == 1;
    assert ValueAt(t, 0) == Ok(Parsed(JNumber(LexemeValue("0")), 1));
    LocationOnOneLine(t, 1);
  }

  /** Two values in a row are trailing content. */
  lemma TwoValues(t: string)
    requires t == "1 2"
    ensures Parse(t) == Err(ParseError(TrailingContent, 1, 3))
  {
    OneDigit(t, 0);
    assert SkipWs(t, 1) == 2;
    LocationOnOneLine(t, 2);
  }

  /** Numbers carry the exact value of their lexeme. */
  lemma Integer()
    ensures Parse("42") == Ok(JNumber(42.0))
  {
    var t := "42";
    assert DigitsEnd(t, 0) == 2;
    assert NumberEnd(t, 0) == Ok(2);
    assert t[0..2] + [] == t && t[..1] == "4" && "4"[..0] == [];
    assert DigitsValue(t) == 42;
    assert LexemeValue(t) == 42.0;
    assert SkipWs(t, 0) == 0;
    assert t[0..2] == t;
    assert NumberAt(t, 0) == Ok(Parsed(JNumber(42.0), 2));
    assert DispatchAt(t, 0) == NumberAt(t, 0);
    assert ValueAt(t, 0) == Ok(Parsed(JNumber(42.0), 2));
    assert SkipWs(t, 2) == 2;
  }

  /** A one-digit number standing alone is read as that digit's value. */
  lemma OneDigit(t: string, p: nat)
    requires p < |t| && IsDigit(t[p])
    requires p + 1 == |t| || !(IsDigit(t[p + 1]) || t[p + 1] in ".eE")
    ensures ValueAt(t, p) == Ok(Parsed(JNumber((t[p] as int - '0' as int) as real), p + 1))
  {
    var d := [t[p]];
    assert DigitsEnd(t, p) == p + 1;
    assert NumberEnd(t, p) == Ok(p + 1);
    assert t[p..p + 1] == d;
    assert DigitsEnd(d, 0) == 1 && d[0..1] + [] == d && d[..0] == [];
    assert LexemeValue(d) == (t[p] as int - '0' as int) as real;
    assert DispatchAt(t, p) == NumberAt(t, p);
  }

  /** A sign, a fraction and an exponent. */
  lemma Scientific()
    ensures Parse("-3.5e2") == Ok(JNumber(-350.0))
  {
    var t := "-3.5e2";
    assert DigitsEnd(t, 1) == 2 && DigitsEnd(t, 3) == 4 && DigitsEnd(t, 5) == 6;
    assert NumberEnd(t, 0) == Ok(6);
    assert t[0..6] == t;
    assert t[1..2] + t[3..4] == "35" && DigitsValue("35") == 35;
    assert t[5..] == "2" && DigitsValue("2") == 2;
    assert Scale(35.0, 1) == 350.0;
    assert LexemeValue(t) == -350.0;
    assert ValueAt(t, 0) == Ok(Parsed(JNumber(-350.0), 6));
  }

  /** A minus sign needs a digit after it. */
  lemma BareMinus(t: string)
    requires t == "-"
    ensures Parse(t) == Err(ParseError(InvalidNumber, 1, 2))
  {
    assert SkipWs(t, 0) == 0;
    assert NumberEnd(t, 0) == Err(ErrorAt(t, InvalidNumber, 1));
    assert DispatchAt(t, 0) == Err(ErrorAt(t, InvalidNumber, 1));
    LocationOnOneLine(t, 1);
  }

  /** The simple escapes decode to their characters. */
  lemma Escapes()
    ensures Parse("\"a\\nb\"") == Ok(JString("a\nb"))
  {
    var t := "\"a\\nb\"";
    assert t[1] == 'a' && t[2] == '\\' && t[3] == 'n' && t[4] == 'b' && t[5] == '"';
    assert StringBody(t, 5, "a\nb") == Ok(Parsed("a\nb", 6));
    assert "a\n" + ['b'] == "a\nb";
    assert StringBody(t, 4, "a\n") == Ok(Parsed("a\nb", 6));
    assert EscapeAt(t, 3) == Ok(Parsed("\n", 4));
    assert "a" + "\n" == "a\n";
    assert StringBody(t, 2, "a") == Ok(Parsed("a\nb", 6));
    assert "" + ['a'] == "a";
    assert StringBody(t, 1, "") == Ok(Parsed("a\nb", 6));
    assert StringAt(t, 0) == Ok(Parsed("a\nb", 6));
    assert DispatchAt(t, 0) == Ok(Parsed(JString("a\nb"), 6));
    assert ValueAt(t, 0) == Ok(Parsed(JString("a\nb"), 6));
  }

  /** A \u escape is kept as written, the four characters unchecked. */
  lemma UnicodeKeptVerbatim()
    ensures Parse("\"\\u00zz\"") == Ok(JString("\\u00zz"))
  {
    var t := "\"\\u00zz\"";
    assert t[1] == '\\' && t[2] == 'u' && t[7] == '"';
    assert t[3..7] == "00zz";
    assert "\\u" + "00zz" == "\\u00zz";
    assert EscapeAt(t, 2) == Ok(Parsed("\\u00zz", 7));
    assert StringBody(t, 7, "\\u00zz") == Ok(Parsed("\\u00zz", 8));
    assert "" + "\\u00zz" == "\\u00zz";
    assert StringBody(t, 1, "") == Ok(Parsed("\\u00zz", 8));
    assert StringAt(t, 0) == Ok(Parsed("\\u00zz", 8));
    assert DispatchAt(t, 0) == Ok(Parsed(JString("\\u00zz"), 8));
    assert ValueAt(t, 0) == Ok(Parsed(JString("\\u00zz"), 8));
  }

  /** A string needs its closing quote. */
  lemma MissingClosingQuote(t: string)
    requires t == "\"ab"
    ensures Parse(t) == Err(ParseError(UnterminatedString, 1, 4))
  {
    assert StringBody(t, 3, "ab") == Err(ErrorAt(t, UnterminatedString, 3));
    assert "a" + ['b'] == "ab" && "" + ['a'] == "a";
    assert StringBody(t, 1, "") == Err(ErrorAt(t, UnterminatedString, 3));
    assert SkipWs(t, 0) == 0;
    assert DispatchAt(t, 0) == Err(ErrorAt(t, UnterminatedString, 3));
    LocationOnOneLine(t, 3);
  }

  /** The element loop over `1,2]` appends the two values in turn. */
  lemma ArrayOrderElements(t: string)
    requires t == "[1,2]"
    ensures ArrayElements(t, 1, []) == Ok(Parsed(JArray([JNumber(1.0), JNumber(2.0)]), 5))
  {
    OneDigit(t, 1);
    OneDigit(t, 3);
    assert ValueAt(t, 3) == Ok(Parsed(JNumber(2.0), 4));
    assert SkipWs(t, 2) == 2 && SkipWs(t, 4) == 4;
    ArrayElementsStep(t, 3, [JNumber(1.0)], JNumber(2.0), 4, 4);
    ArrayElementsStep(t, 1, [], JNumber(1.0), 2, 2);
    assert [] + [JNumber(1.0)] == [JNumber(1.0)];
    assert [JNumber(1.0)] + [JNumber(2.0)] == [JNumber(1.0), JNumber(2.0)];
  }

  /** Elements keep their input order. */
  lemma ArrayOrder(t: string)
    requires t == "[1,2]"
    ensures Parse(t) == Ok(JArray([JNumber(1.0), JNumber(2.0)]))
  {
    ArrayOrderElements(t);
    ArrayAtStart(t, 0, 1);
    assert DispatchAt(t, 0) == ArrayAt(t, 0);
    assert ValueAt(t, 0) == Ok(Parsed(JArray([JNumber(1.0), JNumber(2.0)]), 5));
  }

  /** The key `"a"` read from offset `p`. */
  lemma KeyA(t: string, p: nat)
    requires p + 3 <= |t| && t[p..p + 3] == "\"a\""
    ensures StringAt(t, p) == Ok(Parsed("a", p + 3))
  {
    assert t[p] == '"' && t[p + 1] == 'a' && t[p + 2] == '"';
    assert StringBody(t, p + 2, "a") == Ok(Parsed("a", p + 3));
    assert "" + [t[p + 1]] == "a";
    assert StringBody(t, p + 1, "") == Ok(Parsed("a", p + 3));
  }

  /** The member `"a":d` read from offset `p`, for a digit `d` standing
      alone. */
  lemma MemberA(t: string, p: nat)
    requires p + 5 <= |t| && t[p..p + 4] == "\"a\":" && IsDigit(t[p + 4])
    requires p + 5 == |t| || !(IsDigit(t[p + 5]) || t[p + 5] in ".eE")
    ensures MemberAt(t, p) == Ok(Parsed(("a", JNumber((t[p + 4] as int - '0' as int) as real)), p + 5))
  {
    assert t[p..p + 3] == t[p..p + 4][..3];
    assert t[p + 3] == t[p..p + 4][3];
    KeyA(t, p);
    OneDigit(t, p + 4);
    assert SkipWs(t, p) == p && SkipWs(t, p + 3) == p + 3;
  }

  /** The member loop over `"a":1,"a":2}` reads the first member and goes
      on after the comma with it stored. */
  lemma DuplicateKeyFirst(t: string)
    requires t == "{\"a\":1,\"a\":2}"
    ensures ObjectMembers(t, 1, map[]) == ObjectMembers(t, 7, map["a" := JNumber(1.0)])
  {
    assert t[1..5] == "\"a\":";
    MemberA(t, 1);
    assert SkipWs(t, 6) == 6;
    ObjectMembersStep(t, 1, map[], "a", JNumber(1.0), 6, 6);
  }

  /** ... and then stores the second value under the same key. */
  lemma DuplicateKeySecond(t: string, acc: map<string, Json>)
    requires t == "{\"a\":1,\"a\":2}"
    ensures ObjectMembers(t, 7, acc) == Ok(Parsed(JObject(acc["a" := JNumber(2.0)]), 13))
  {
    assert t[7..11] == "\"a\":";
    MemberA(t, 7);
    assert SkipWs(t, 12) == 12;
    ObjectMembersStep(t, 7, acc, "a", JNumber(2.0), 12, 12);
  }

  /** A repeated key keeps its last value. */
  lemma DuplicateKey(t: string)
    requires t == "{\"a\":1,\"a\":2}"
    ensures Parse(t) == Ok(JObject(map["a" := JNumber(2.0)]))
  {
    DuplicateKeyFirst(t);
    DuplicateKeySecond(t, map["a" := JNumber(1.0)]);
    assert map["a" := JNumber(1.0)]["a" := JNumber(2.0)] == map["a" := JNumber(2.0)];
    ObjectAtStart(t, 0, 1);
    assert DispatchAt(t, 0) == ObjectAt(t, 0);
    assert ValueAt(t, 0) == Ok(Parsed(JObject(map["a" := JNumber(2.0)]), 13));
  }

  /** A trailing comma in an array is an error. */
  lemma ArrayTrailingComma(t: string)
    requires t == "[1,]"
    ensures Parse(t) == Err(ParseError(UnexpectedCharacter(']'), 1, 4))
  {
    OneDigit(t, 1);
    ArrayTrailingCommaFails(t, 3, [JNumber(1.0)]);
    ArrayElementsStep(t, 1, [], JNumber(1.0), 2, 2);
    ArrayAtStart(t, 0, 1);
    assert DispatchAt(t, 0) == ArrayAt(t, 0);
    assert ValueAt(t, 0) == Err(ErrorAt(t, UnexpectedCharacter(']'), 3));
    LocationOnOneLine(t, 3);
  }

  /** A trailing comma in an object is an error. */
  lemma ObjectTrailingComma(t: string)
    requires t == "{\"a\":1,}"
    ensures Parse(t) == Err(ParseError(ExpectedStringKey, 1, 8))
  {
    assert t[1..5] == "\"a\":";
    MemberA(t, 1);
    ObjectTrailingCommaFails(t, 7, map["a" := JNumber(1.0)]);
    ObjectMembersStep(t, 1, map[], "a", JNumber(1.0), 6, 6);
    ObjectAtStart(t, 0, 1);
    assert DispatchAt(t, 0) == ObjectAt(t, 0);
    assert ValueAt(t, 0) == Err(ErrorAt(t, ExpectedStringKey, 7));
    LocationOnOneLine(t, 7);
  }

  /** A key must be followed by ':'. */
  lemma MissingColon(t: string)
    requires t == "{\"a\" 1}"
    ensures Parse(t) == Err(ParseError(ExpectedButFound(':', '1'), 1, 6))
  {
    KeyA(t, 1);
    assert SkipWs(t, 1) == 1 && SkipWs(t, 4) == 5;
    assert Expect(t, 5, ':') == Err(ErrorAt(t, ExpectedButFound(':', '1'), 5));
    assert MemberAt(t, 1) == Err(ErrorAt(t, ExpectedButFound(':', '1'), 5));
    ObjectAtStart(t, 0, 1);
    assert DispatchAt(t, 0) == ObjectAt(t, 0);
    assert ValueAt(t, 0) == Err(ErrorAt(t, ExpectedButFound(':', '1'), 5));
    LocationOnOneLine(t, 5);
  }

  /** On a text with no line feed before `p`, offset `p` is on line 1, at
      column `p + 1`. */
  lemma {:induction false} LocationOnOneLine(t: string, p: nat)
    requires p <= |t| && forall i | 0 <= i < p :: t[i] != '\n'
    ensures LocationOf(t, p) == Location(1, p + 1)
  {
    if p > 0 {
      LocationOnOneLine(t, p - 1);
    }
  }
}
