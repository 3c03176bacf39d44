/**
 * Numbers. `NumberEnd` is the scan `parseNumber` performs: an optional
 * '-', then a single '0' or a run of digits, then an optional fraction and
 * an optional exponent, each of which must hold at least one digit once
 * its '.' or 'e'/'E' has been seen. `IsNumberLexeme` is the grammar
 * -?(0|[1-9][0-9]*)(\.[0-9]+)?([eE][+-]?[0-9]+)? written as a
 * decomposition, and the two are proved to agree.
 */
module JsonNumbers {
  import opened Wrappers
  import opened JsonText

  /** The optional fraction: after a '.', at least one digit is required. */
  function FractionEnd(json: string, p: nat): (r: Result<nat, ParseError>)
    requires p <= |json|
    ensures r.Ok? ==> p <= r.value <= |json|
  {
    if p < |json| && json[p] == '.' then
      if p + 1 >= |json| || !IsDigit(json[p + 1]) then Err(ErrorAt(json, ExpectedFractionDigit, p + 1))
      else Ok(DigitsEnd(json, p + 1))
    else Ok(p)
  }

  /** The optional exponent: after 'e' or 'E' and an optional sign, at least
      one digit is required. */
  function ExponentEnd(json: string, p: nat): (r: Result<nat, ParseError>)
    requires p <= |json|
    ensures r.Ok? ==> p <= r.value <= |json|
  {
    if p < |json| && (json[p] == 'e' || json[p] == 'E') then
      var s := if p + 1 < |json| && (json[p + 1] == '+' || json[p + 1] == '-') then p + 2 else p + 1;
      if s >= |json| || !IsDigit(json[s]) then Err(ErrorAt(json, ExpectedExponentDigit, s))
      else Ok(DigitsEnd(json, s))
    else Ok(p)
  }

  /** `ExponentEnd` once the marker and the optional sign are behind `s`. */
  lemma ExponentEndAfterSign(json: string, p: nat, s: nat)
    requires p < |json| && (json[p] == 'e' || json[p] == 'E')
    requires s == if p + 1 < |json| && (json[p + 1] == '+' || json[p + 1] == '-') then p + 2 else p + 1
    ensures s >= |json| || !IsDigit(json[s]) ==> ExponentEnd(json, p) == Err(ErrorAt(json, ExpectedExponentDigit, s))
    ensures s < |json| && IsDigit(json[s]) ==> ExponentEnd(json, p) == Ok(DigitsEnd(json, s))
  { }

  /** Where the number that `parseNumber` reads from offset `p` ends. A
      leading '0' is taken alone, so in "01" the number is "0". */
  function NumberEnd(json: string, p: nat): (r: Result<nat, ParseError>)
    requires p <= |json|
    ensures r.Ok? ==> p < r.value <= |json|
  {
    var p1 := if Peek(json, p) == '-' then p + 1 else p;
    if p1 >= |json| || !IsDigit(json[p1]) then Err(ErrorAt(json, InvalidNumber, p1))
    else
      var p2 := if json[p1] == '0' then p1 + 1 else DigitsEnd(json, p1);
      match FractionEnd(json, p2)
      case Err(e) => Err(e)
      case Ok(p3) => ExponentEnd(json, p3)
  }

  predicate AllDigits(s: string) {
    forall i | 0 <= i < |s| :: IsDigit(s[i])
  }

  /** 0 | [1-9][0-9]* */
  predicate IsIntegerPart(s: string) {
    s == "0" || (|s| > 0 && s[0] != '0' && AllDigits(s))
  }

  /** empty | \.[0-9]+ */
  predicate IsFractionPart(s: string) {
    s == [] || (|s| >= 2 && s[0] == '.' && AllDigits(s[1..]))
  }

  /** empty | [eE][+-]?[0-9]+ */
  predicate IsExponentPart(s: string) {
    s == [] ||
    (|s| >= 2 && (s[0] == 'e' || s[0] == 'E') &&
      (AllDigits(s[1..]) || (|s| >= 3 && (s[1] == '+' || s[1] == '-') && AllDigits(s[2..]))))
  }

  /** `t` splits at `a`, `b`, `c` into sign, integer part, fraction and exponent. */
  predicate LexemeSplit(t: string, a: nat, b: nat, c: nat) {
    a <= b <= c <= |t| &&
    (t[..a] == [] || t[..a] == "-") &&
    IsIntegerPart(t[a..b]) && IsFractionPart(t[b..c]) && IsExponentPart(t[c..])
  }

  ghost predicate IsNumberLexeme(t: string) {
    exists a: nat, b: nat, c: nat :: LexemeSplit(t, a, b, c)
  }

  /** A character that could extend a number lexeme. */
  predicate IsNumberChar(ch: char) {
    IsDigit(ch) || ch == '.' || ch == 'e' || ch == 'E'
  }

  /** The same decomposition, located by offsets of `json`: sign in
      [p, p1), integer part in [p1, p2), fraction in [p2, p3), exponent in
      [p3, q). */
  predicate RangeSplit(json: string, p: nat, p1: nat, p2: nat, p3: nat, q: nat) {
    p <= p1 <= p2 <= p3 <= q <= |json| &&
    (p1 == p || (p1 == p + 1 && json[p] == '-')) &&
    IsIntegerPart(json[p1..p2]) && IsFractionPart(json[p2..p3]) && IsExponentPart(json[p3..q])
  }

  lemma SliceOfSlice(s: string, p: nat, q: nat, a: nat, b: nat)
    requires p <= q <= |s| && a <= b <= q - p
    ensures s[p..q][a..b] == s[p + a..p + b]
  {
    forall i | 0 <= i < b - a ensures s[p..q][a..b][i] == s[p + a..p + b][i] {
    }
  }

  lemma SplitShift(json: string, p: nat, q: nat, a: nat, b: nat, c: nat)
    requires p <= q <= |json| && a <= b <= c <= q - p
    ensures LexemeSplit(json[p..q], a, b, c) <==> RangeSplit(json, p, p + a, p + b, p + c, q)
  {
    var t := json[p..q];
    assert t[..a] == json[p..p + a];
    SliceOfSlice(json, p, q, a, b);
    SliceOfSlice(json, p, q, b, c);
    assert t[c..] == json[p + c..q];
    if a == 1 {
      assert t[..a] == [json[p]];
    }
  }

  lemma IntegerPartSound(json: string, p1: nat)
    requires p1 < |json| && IsDigit(json[p1])
    ensures IsIntegerPart(json[p1..if json[p1] == '0' then p1 + 1 else DigitsEnd(json, p1)])
  {
    if json[p1] == '0' {
      assert json[p1..p1 + 1] == "0";
    } else {
      DigitsEndSkipsDigits(json, p1);
    }
  }

  lemma FractionSound(json: string, p2: nat)
    requires p2 <= |json| && FractionEnd(json, p2).Ok?
    ensures IsFractionPart(json[p2..FractionEnd(json, p2).value])
  {
    var p3 := FractionEnd(json, p2).value;
    if p3 > p2 {
      DigitsEndSkipsDigits(json, p2 + 1);
      assert json[p2..p3][1..] == json[p2 + 1..p3];
    }
  }

  lemma ExponentSound(json: string, p3: nat)
    requires p3 <= |json| && ExponentEnd(json, p3).Ok?
    ensures IsExponentPart(json[p3..ExponentEnd(json, p3).value])
  {
    var q := ExponentEnd(json, p3).value;
    if q > p3 {
      var s := if p3 + 1 < |json| && (json[p3 + 1] == '+' || json[p3 + 1] == '-') then p3 + 2 else p3 + 1;
      DigitsEndSkipsDigits(json, s);
      assert json[p3..q][s - p3..] == json[s..q];
    }
  }

  /** The offsets at which an accepted number splits into its parts. */
  lemma NumberEndParts(json: string, p: nat) returns (p1: nat, p2: nat, p3: nat)
    requires p <= |json|
    requires NumberEnd(json, p).Ok?
    ensures RangeSplit(json, p, p1, p2, p3, NumberEnd(json, p).value)
  {
    p1 := if Peek(json, p) == '-' then p + 1 else p;
    p2 := if json[p1] == '0' then p1 + 1 else DigitsEnd(json, p1);
    p3 := FractionEnd(json, p2).value;
    IntegerPartSound(json, p1);
    FractionSound(json, p2);
    ExponentSound(json, p3);
  }

  /** Soundness: whatever `parseNumber` accepts is a number lexeme. */
  lemma NumberEndSound(json: string, p: nat)
    requires p <= |json|
    requires NumberEnd(json, p).Ok?
    ensures IsNumberLexeme(json[p..NumberEnd(json, p).value])
  {
    var q := NumberEnd(json, p).value;
    var p1, p2, p3 := NumberEndParts(json, p);
    assert RangeSplit(json, p, p + (p1 - p), p + (p2 - p), p + (p3 - p), q);
    SplitShift(json, p, q, p1 - p, p2 - p, p3 - p);
    assert LexemeSplit(json[p..q], p1 - p, p2 - p, p3 - p);
  }

  lemma IntegerPartComplete(json: string, p1: nat, p2: nat)
    requires p1 <= p2 <= |json| && IsIntegerPart(json[p1..p2])
    requires p2 == |json| || !IsDigit(json[p2])
    ensures p1 < |json| && IsDigit(json[p1])
    ensures (if json[p1] == '0' then p1 + 1 else DigitsEnd(json, p1)) == p2
  {
    assert json[p1] == json[p1..p2][0];
    if json[p1] != '0' {
      forall i | p1 <= i < p2 ensures IsDigit(json[i]) {
        assert json[i] == json[p1..p2][i - p1];
      }
      DigitsEndExact(json, p1, p2);
    }
  }

  lemma FractionComplete(json: string, p2: nat, p3: nat)
    requires p2 <= p3 <= |json| && IsFractionPart(json[p2..p3])
    requires p3 == |json| || !IsDigit(json[p3])
    requires p3 == p2 ==> p2 == |json| || json[p2] != '.'
    ensures FractionEnd(json, p2) == Ok(p3)
  {
    if p3 > p2 {
      var f := json[p2..p3];
      assert json[p2] == f[0];
      assert json[p2 + 1] == f[1..][0];
      forall i | p2 + 1 <= i < p3 ensures IsDigit(json[i]) {
        assert json[i] == f[1..][i - p2 - 1];
      }
      DigitsEndExact(json, p2 + 1, p3);
    }
  }

  lemma ExponentComplete(json: string, p3: nat, q: nat)
    requires p3 <= q <= |json| && IsExponentPart(json[p3..q])
    requires q == |json| || !IsDigit(json[q])
    requires q == p3 ==> q == |json| || (json[q] != 'e' && json[q] != 'E')
    ensures ExponentEnd(json, p3) == Ok(q)
  {
    if q > p3 {
      var x := json[p3..q];
      assert json[p3] == x[0] && json[p3 + 1] == x[1];
      var s := if json[p3 + 1] == '+' || json[p3 + 1] == '-' then p3 + 2 else p3 + 1;
      assert x[s - p3..] == json[s..q];
      assert json[s] == json[s..q][0];
      forall i | s <= i < q ensures IsDigit(json[i]) {
        assert json[i] == json[s..q][i - s];
      }
      DigitsEndExact(json, s, q);
    }
  }

  /** Completeness: a number lexeme at `p` that is not followed by a
      character that could extend it is read in full by `parseNumber`. */
  lemma NumberEndComplete(json: string, p: nat, q: nat, a: nat, b: nat, c: nat)
    requires p <= q <= |json|
    requires LexemeSplit(json[p..q], a, b, c)
    requires q == |json| || !IsNumberChar(json[q])
    ensures NumberEnd(json, p) == Ok(q)
  {
    SplitShift(json, p, q, a, b, c);
    NumberEndFromParts(json, p, p + a, p + b, p + c, q);
  }

  /** The same, with the parts located by offsets of `json`. */
  lemma NumberEndFromParts(json: string, p: nat, p1: nat, p2: nat, p3: nat, q: nat)
    requires RangeSplit(json, p, p1, p2, p3, q)
    requires q == |json| || !IsNumberChar(json[q])
    ensures NumberEnd(json, p) == Ok(q)
  {
    assert p3 < q ==> json[p3] == json[p3..q][0];
    assert p2 < p3 ==> json[p2] == json[p2..p3][0];
    ExponentComplete(json, p3, q);
    FractionComplete(json, p2, p3);
    IntegerPartComplete(json, p1, p2);
    assert (if Peek(json, p) == '-' then p + 1 else p) == p1;
  }

  /** When `parseNumber` fails at `p`, no number lexeme that stands on its
      own starts there. */
  lemma NumberEndRejectsOnlyNonNumbers(json: string, p: nat, q: nat)
    requires p <= q <= |json|
    requires NumberEnd(json, p).Err?
    requires q == |json| || !IsNumberChar(json[q])
    ensures !IsNumberLexeme(json[p..q])
  {
    if IsNumberLexeme(json[p..q]) {
      var a: nat, b: nat, c: nat :| LexemeSplit(json[p..q], a, b, c);
      NumberEndComplete(json, p, q, a, b, c);
    }
  }

  /** A leading zero is a whole integer part: in "01" only the "0" is read. */
  lemma LeadingZeroStandsAlone(json: string, p: nat)
    requires p + 1 < |json| && json[p] == '0' && IsDigit(json[p + 1])
    ensures NumberEnd(json, p) == Ok(p + 1)
  {
  }

  /** The decimal value of a run of digits. */
  function DigitsValue(s: string): nat {
    if s == [] then 0
    else DigitsValue(s[..|s| - 1]) * 10 + (if IsDigit(s[|s| - 1]) then s[|s| - 1] as int - '0' as int else 0)
  }

  /** `m` times ten to the power `e`, by repeated scaling. */
  function Scale(m: real, e: int): real
    decreases if e < 0 then -e else e
  {
    if e == 0 then m
    else if e > 0 then Scale(m, e - 1) * 10.0
    else Scale(m, e + 1) / 10.0
  }

  /** The exact value of a number lexeme: what `std::stod` rounds to a double. */
  function LexemeValue(t: string): real {
    var neg := |t| > 0 && t[0] == '-';
    var a := if neg then 1 else 0;
    var b := DigitsEnd(t, a);
    var c := if b < |t| && t[b] == '.' then DigitsEnd(t, b + 1) else b;
    var fraction := if c > b then t[b + 1..c] else [];
    var e0 := if c < |t| && (t[c] == 'e' || t[c] == 'E') then c + 1 else |t|;
    var e1 := if e0 < |t| && (t[e0] == '+' || t[e0] == '-') then e0 + 1 else e0;
    var written: int := DigitsValue(t[e1..]);
    var exponent := (if e0 < |t| && t[e0] == '-' then -written else written) - |fraction|;
    var magnitude := Scale(DigitsValue(t[a..b] + fraction) as real, exponent);
    if neg then -magnitude else magnitude
  }
}
