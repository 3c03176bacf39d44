/**
 * What the reader promises as a whole, proved about the reference
 * functions of `JsonSpec` (and so, through the contracts of `JsonParser`,
 * about the parser itself): the whole input must be consumed, a trailing
 * comma is an error, and every string written with the escapes the reader
 * knows reads back as written.
 */
module JsonProperties {
  import opened Wrappers
  import opened JsonText
  import opened JsonValues
  import opened JsonSpec

  /** Skipping whitespace over a run of whitespace reaches the end. */
  lemma {:induction false} SkipWsToEnd(json: string, p: nat)
    requires p <= |json|
    requires forall i | p <= i < |json| :: IsSpace(json[i])
    ensures SkipWs(json, p) == |json|
    decreases |json| - p
  {
    if p < |json| {
      SkipWsToEnd(json, p + 1);
    }
  }

  /** `parse` succeeds exactly when one value is read from the start and
      nothing but whitespace follows it; it then returns that value, and a
      value followed by anything else is rejected as trailing content. */
  lemma ParseConsumesAll(json: string)
    ensures Parse(json).Ok? <==>
      ValueAt(json, 0).Ok? && forall i | ValueAt(json, 0).value.end <= i < |json| :: IsSpace(json[i])
    ensures Parse(json).Ok? ==> Parse(json).value == ValueAt(json, 0).value.value
    ensures Parse(json).Err? && ValueAt(json, 0).Ok? ==> Parse(json).error.kind == TrailingContent
  {
    var r := ValueAt(json, 0);
    if r.Ok? {
      var e := r.value.end;
      SkipWsSkipsSpaces(json, e);
      if forall i | e <= i < |json| :: IsSpace(json[i]) {
        SkipWsToEnd(json, e);
      }
    }
  }

  /** A value cannot start with ']', '}' or ',': the reader stops on it
      with an unexpected-character error. */
  lemma ValueRejectsClosers(json: string, p: nat)
    requires p <= |json|
    requires SkipWs(json, p) < |json|
    requires json[SkipWs(json, p)] in "]},"
    ensures ValueAt(json, p) == Err(ErrorAt(json, UnexpectedCharacter(json[SkipWs(json, p)]), SkipWs(json, p)))
  {
    var q := SkipWs(json, p);
    assert DispatchAt(json, q) == Err(ErrorAt(json, UnexpectedCharacter(json[q]), q));
  }

  /** A trailing comma in an array: after the ',' the element loop meets
      ']' where a value must start, and fails. */
  lemma ArrayTrailingCommaFails(json: string, p: nat, acc: seq<Json>)
    requires p <= |json|
    requires SkipWs(json, p) < |json| && json[SkipWs(json, p)] == ']'
    ensures ArrayElements(json, p, acc) == Err(ErrorAt(json, UnexpectedCharacter(']'), SkipWs(json, p)))
  {
    ValueRejectsClosers(json, p);
  }

  /** A trailing comma in an object: after the ',' the member loop meets
      '}' where a key must start, and fails. */
  lemma ObjectTrailingCommaFails(json: string, p: nat, acc: map<string, Json>)
    requires p <= |json|
    requires Peek(json, SkipWs(json, p)) == '}'
    ensures ObjectMembers(json, p, acc) == Err(ErrorAt(json, ExpectedStringKey, SkipWs(json, p)))
  {
    assert MemberAt(json, p) == Err(ErrorAt(json, ExpectedStringKey, SkipWs(json, p)));
  }

  /** The letter of the simple escape a writer uses for `c`, if any: a
      quote, a backslash and the five control characters that have one. */
  function EscapeLetter(c: char): Option<char> {
    match c
    case '"' => Some('"')
    case '\\' => Some('\\')
    case '\U{0008}' => Some('b')
    case '\U{000C}' => Some('f')
    case '\n' => Some('n')
    case '\r' => Some('r')
    case '\t' => Some('t')
    case _ => None
  }

  /** How a writer would put character `c` inside a JSON string so that this
      reader gives `c` back: with its simple escape when it has one,
      otherwise (other control characters included, which the reader accepts
      raw) as itself. */
  function EncodeChar(c: char): (e: string)
    ensures 1 <= |e| <= 2
  {
    if EscapeLetter(c).Some? then ['\\', EscapeLetter(c).value] else [c]
  }

  /** The body of a string literal for `s`. */
  function Encode(s: string): string {
    if s == [] then [] else EncodeChar(s[0]) + Encode(s[1..])
  }

  /** Each encoded character is either itself, when it is neither a quote
      nor a backslash, or one of the simple escapes standing for it. */
  lemma EncodeCharDecodes(c: char)
    ensures EncodeChar(c) == [c] ==> c != '"' && c != '\\'
    ensures EncodeChar(c) != [c] ==> |EncodeChar(c)| == 2 && EncodeChar(c)[0] == '\\' &&
                                     EncodeChar(c)[1] != 'u' && EscapeOf(EncodeChar(c)[1]) == Some(c)
  {
  }

  /** The string loop steps over the encoding of the first character of
      `s`, adding that character: whatever it reads after it, it reads after
      `acc` with the character in front. */
  lemma StringBodyStep(json: string, p: nat, acc: string, s: string, end: nat)
    requires s != [] && p + |EncodeChar(s[0])| <= |json|
    requires json[p..p + |EncodeChar(s[0])|] == EncodeChar(s[0])
    requires StringBody(json, p + |EncodeChar(s[0])|, acc + [s[0]]) == Ok(Parsed(acc + [s[0]] + s[1..], end))
    ensures StringBody(json, p, acc) == Ok(Parsed(acc + s, end))
  {
    var c := s[0];
    var e := EncodeChar(c);
    EncodeCharDecodes(c);
    assert json[p] == e[0];
    if |e| == 2 {
      assert json[p + 1] == e[1];
      assert EscapeAt(json, p + 1) == Ok(Parsed([c], p + 2));
    }
    assert acc + [c] + s[1..] == acc + s;
  }

  /** The string loop stops at the closing quote. */
  lemma StringBodyClose(json: string, p: nat, acc: string, s: string)
    requires s == [] && p < |json| && json[p] == '"'
    ensures StringBody(json, p, acc) == Ok(Parsed(acc + s, p + 1))
  {
    assert acc + s == acc;
  }

  /** The string loop reads an encoded body up to the closing quote back as
      the characters it encodes. */
  lemma {:induction false} StringBodyDecodes(json: string, p: nat, acc: string, s: string)
    requires p + |Encode(s)| < |json|
    requires json[p..p + |Encode(s)|] == Encode(s) && json[p + |Encode(s)|] == '"'
    ensures StringBody(json, p, acc) == Ok(Parsed(acc + s, p + |Encode(s)| + 1))
    decreases |s|
  {
    if s == [] {
      StringBodyClose(json, p, acc, s);
    } else {
      EncodedCons(json, p, s);
      StringBodyDecodes(json, p + |EncodeChar(s[0])|, acc + [s[0]], s[1..]);
      StringBodyStep(json, p, acc, s, p + |Encode(s)| + 1);
    }
  }

  /** An encoded non-empty string in `json` is the encoding of its first
      character followed by the encoding of the rest. */
  lemma EncodedCons(json: string, p: nat, s: string)
    requires s != [] && p + |Encode(s)| <= |json| && json[p..p + |Encode(s)|] == Encode(s)
    ensures |Encode(s)| == |EncodeChar(s[0])| + |Encode(s[1..])|
    ensures json[p..p + |EncodeChar(s[0])|] == EncodeChar(s[0])
    ensures json[p + |EncodeChar(s[0])|..p + |Encode(s)|] == Encode(s[1..])
  {
    assert Encode(s) == EncodeChar(s[0]) + Encode(s[1..]);
    SliceSplit(json, p, EncodeChar(s[0]), Encode(s[1..]));
  }

  /** A slice holding `e + rest` holds `e` and then `rest`. */
  lemma SliceSplit(json: string, p: nat, e: string, rest: string)
    requires p + |e| + |rest| <= |json| && json[p..p + |e| + |rest|] == e + rest
    ensures json[p..p + |e|] == e && json[p + |e|..p + |e| + |rest|] == rest
  {
    assert json[p..p + |e|] == json[p..p + |e| + |rest|][..|e|];
    assert json[p + |e|..p + |e| + |rest|] == json[p..p + |e| + |rest|][|e|..];
  }

  /** Round trip: the quoted encoding of any string, followed by anything,
      is read by `parseString` as that very string, ending just after the
      closing quote. */
  lemma StringRoundTrip(s: string, rest: string)
    ensures StringAt("\"" + Encode(s) + "\"" + rest, 0) == Ok(Parsed(s, |Encode(s)| + 2))
  {
    var json := "\"" + Encode(s) + "\"" + rest;
    assert json[1..1 + |Encode(s)|] == Encode(s);
    StringBodyDecodes(json, 1, "", s);
    assert "" + s == s;
  }
}
