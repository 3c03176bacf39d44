/**
 * `HttpClient::parseHeaders`: turns the raw header block libcurl hands back
 * into an `HttpHeaders`. The text is read line by line with `getline` on
 * '\n'; a line with a ':' contributes one field, the name being the text
 * before the first ':' and the value the text after it, each trimmed by
 * `erase` calls; lines without a ':' (the status line, the blank line) are
 * skipped; a repeated name keeps its last value.
 */
module HeaderParsing {
  import opened Wrappers
  import opened Headers

  /** The end of the line starting at `p`: the first '\n' at or after `p`,
      or the end of the text. */
  function LineEnd(raw: string, p: nat): (e: nat)
    requires p <= |raw|
    ensures p <= e <= |raw|
    ensures e == |raw| || raw[e] == '\n'
    decreases |raw| - p
  {
    if p < |raw| && raw[p] != '\n' then LineEnd(raw, p + 1) else p
  }

  /** `LineEnd` steps over no line feed. */
  lemma {:induction false} LineEndSkipsNoNewline(raw: string, p: nat)
    requires p <= |raw|
    ensures forall i | p <= i < LineEnd(raw, p) :: raw[i] != '\n'
    decreases |raw| - p
  {
    if p < |raw| && raw[p] != '\n' {
      LineEndSkipsNoNewline(raw, p + 1);
    }
  }

  /** Where the stream stands after `getline` has read the line at `p`: just
      past its '\n', or at the end of the text. */
  function NextLine(raw: string, p: nat): (q: nat)
    requires p < |raw|
    ensures p < q <= |raw|
  {
    var e := LineEnd(raw, p);
    if e < |raw| then e + 1 else e
  }

  /** The lines `getline` yields from offset `p` on: one per '\n'-ended
      segment, plus the unterminated tail when it is not empty. */
  function Lines(raw: string, p: nat): (ls: seq<string>)
    requires p <= |raw|
    decreases |raw| - p
  {
    if p == |raw| then []
    else [raw[p..LineEnd(raw, p)]] + Lines(raw, NextLine(raw, p))
  }

  /** The lines joined back with '\n' between them. */
  function Join(ls: seq<string>): string {
    if |ls| == 0 then []
    else if |ls| == 1 then ls[0]
    else ls[0] + "\n" + Join(ls[1..])
  }

  /** No line holds a '\n', and joining the lines with '\n' gives the text
      back, short only of a final '\n' that ended the last line. */
  lemma {:induction false} LinesRejoin(raw: string, p: nat)
    requires p <= |raw|
    ensures forall l | l in Lines(raw, p) :: '\n' !in l
    ensures Join(Lines(raw, p)) + (if p < |raw| && raw[|raw| - 1] == '\n' then "\n" else []) == raw[p..]
    decreases |raw| - p
  {
    if p < |raw| {
      var e := LineEnd(raw, p);
      var q := NextLine(raw, p);
      LineEndSkipsNoNewline(raw, p);
      LinesRejoin(raw, q);
      var rest := Lines(raw, q);
      assert Lines(raw, p) == [raw[p..e]] + rest;
      assert '\n' !in raw[p..e] by {
        forall i | 0 <= i < e - p
          ensures raw[p..e][i] != '\n'
        {
          assert raw[p..e][i] == raw[p + i];
        }
      }
      if e == |raw| {
        assert raw[|raw| - 1] != '\n';
      } else if q == |raw| {
        assert raw[p..] == raw[p..e] + "\n";
      } else {
        assert Join(Lines(raw, p)) == raw[p..e] + "\n" + Join(rest);
        assert raw[p..] == raw[p..e] + "\n" + raw[q..];
      }
    }
  }

  /** The offset of the first ':' in `line`, or `|line|` when there is none
      (`find(':')` returning `npos`). */
  function FirstColon(line: string): (i: nat)
    ensures i <= |line|
    ensures i < |line| ==> line[i] == ':'
  {
    if |line| == 0 then 0
    else if line[0] == ':' then 0
    else 1 + FirstColon(line[1..])
  }

  /** No ':' comes before the one `FirstColon` finds. */
  lemma {:induction false} FirstColonIsFirst(line: string)
    ensures forall j | 0 <= j < FirstColon(line) :: line[j] != ':'
  {
    if |line| > 0 && line[0] != ':' {
      FirstColonIsFirst(line[1..]);
      assert forall j | 1 <= j < FirstColon(line) :: line[j] == line[1..][j - 1];
    }
  }

  /** The characters `find_last_not_of(" \r\n")` passes over. */
  predicate IsTrailingBlank(c: char) {
    c == ' ' || c == '\r' || c == '\n'
  }

  /** The characters `find_first_not_of(" \t")` passes over. */
  predicate IsLeadingBlank(c: char) {
    c == ' ' || c == '\t'
  }

  /** `s.erase(s.find_last_not_of(" \r\n") + 1)`: what is left once the
      trailing spaces, CRs and LFs are removed. */
  function TrimEnd(s: string): (r: string)
    ensures |r| <= |s|
  {
    if |s| > 0 && IsTrailingBlank(s[|s| - 1]) then TrimEnd(s[..|s| - 1]) else s
  }

  /** `TrimEnd` keeps the longest prefix that does not end in a space, CR or
      LF; a string made only of those becomes empty. */
  lemma {:induction false} TrimEndIsLongestPrefix(s: string)
    ensures TrimEnd(s) == s[..|TrimEnd(s)|]
    ensures TrimEnd(s) == [] || !IsTrailingBlank(TrimEnd(s)[|TrimEnd(s)| - 1])
    ensures forall i | |TrimEnd(s)| <= i < |s| :: IsTrailingBlank(s[i])
    decreases |s|
  {
    if |s| > 0 && IsTrailingBlank(s[|s| - 1]) {
      var s' := s[..|s| - 1];
      TrimEndIsLongestPrefix(s');
      assert s'[..|TrimEnd(s')|] == s[..|TrimEnd(s')|];
      assert forall i | |TrimEnd(s')| <= i < |s'| :: s'[i] == s[i];
    }
  }

  /** `s.erase(0, s.find_first_not_of(" \t"))`: what is left once the
      leading spaces and tabs are removed. */
  function TrimStart(s: string): (r: string)
    ensures |r| <= |s|
  {
    if |s| > 0 && IsLeadingBlank(s[0]) then TrimStart(s[1..]) else s
  }

  /** `TrimStart` keeps the longest suffix that does not start with a space
      or a tab; a string made only of those becomes empty. */
  lemma {:induction false} TrimStartIsLongestSuffix(s: string)
    ensures TrimStart(s) == s[|s| - |TrimStart(s)|..]
    ensures TrimStart(s) == [] || !IsLeadingBlank(TrimStart(s)[0])
    ensures forall i | 0 <= i < |s| - |TrimStart(s)| :: IsLeadingBlank(s[i])
    decreases |s|
  {
    if |s| > 0 && IsLeadingBlank(s[0]) {
      var s' := s[1..];
      TrimStartIsLongestSuffix(s');
      assert s'[|s'| - |TrimStart(s')|..] == s[|s| - |TrimStart(s')|..];
      assert forall i | 0 <= i < |s'| - |TrimStart(s')| :: s'[i] == s[i + 1];
    }
  }

  /** The field one line contributes, if it has a ':'. The name keeps its
      leading blanks; the value may contain further colons. */
  function Field(line: string): (f: Option<(string, string)>)
    ensures f.Some? <==> ':' in line
  {
    FirstColonIsFirst(line);
    var i := FirstColon(line);
    if i == |line| then None
    else Some((TrimEnd(line[..i]), TrimEnd(TrimStart(line[i + 1..]))))
  }

  /** The field of each line, in order. */
  function Fields(ls: seq<string>): (fs: seq<Option<(string, string)>>)
    ensures |fs| == |ls|
  {
    seq(|ls|, i requires 0 <= i < |ls| => Field(ls[i]))
  }

  /** The headers after `set` has been called with field `f`, if there is one. */
  function Put(fields: map<string, string>, f: Option<(string, string)>): map<string, string> {
    if f.Some? then fields[f.value.0 := f.value.1] else fields
  }

  /** The map built by putting each field in turn. */
  function Build(fs: seq<Option<(string, string)>>): map<string, string> {
    if fs == [] then map[] else Put(Build(fs[..|fs| - 1]), fs[|fs| - 1])
  }

  /** The headers `parseHeaders(raw)` returns. */
  function HeaderFields(raw: string): map<string, string> {
    Build(Fields(Lines(raw, 0)))
  }

  /** Whether field `f` is present and named `name`. */
  predicate Names(f: Option<(string, string)>, name: string) {
    f.Some? && f.value.0 == name
  }

  /** A name is present exactly when some field carries it. */
  lemma {:induction false} BuildNames(fs: seq<Option<(string, string)>>, name: string)
    ensures name in Build(fs) <==> exists i | 0 <= i < |fs| :: Names(fs[i], name)
    decreases |fs|
  {
    if fs != [] {
      var n := |fs| - 1;
      var init := fs[..n];
      BuildNames(init, name);
      if exists i | 0 <= i < n :: Names(init[i], name) {
        var i :| 0 <= i < n && Names(init[i], name);
        assert fs[i] == init[i];
      }
      if exists i | 0 <= i < |fs| :: Names(fs[i], name) {
        var i :| 0 <= i < |fs| && Names(fs[i], name);
        if i < n {
          assert fs[i] == init[i];
        }
      }
    }
  }

  /** The value of a name comes from the last field that carries it: a
      repeated header keeps its last occurrence. */
  lemma {:induction false} BuildLastWins(fs: seq<Option<(string, string)>>, name: string, i: nat)
    requires i < |fs| && Names(fs[i], name)
    requires forall j | i < j < |fs| :: !Names(fs[j], name)
    ensures name in Build(fs) && Build(fs)[name] == fs[i].value.1
    decreases |fs|
  {
    var n := |fs| - 1;
    if i < n {
      var init := fs[..n];
      assert init[i] == fs[i];
      assert forall j | i < j < |init| :: init[j] == fs[j];
      BuildLastWins(init, name, i);
      assert !Names(fs[n], name);
    }
  }

  /** The headers built from lines `ls` hold exactly the names of lines
      that have a ':', each with the value of the last line naming it. */
  lemma {:induction false} FieldsLastWins(ls: seq<string>, name: string)
    ensures name in Build(Fields(ls)) <==> exists i | 0 <= i < |ls| :: Names(Field(ls[i]), name)
    ensures forall i | 0 <= i < |ls| && Names(Field(ls[i]), name) &&
                       (forall j | i < j < |ls| :: !Names(Field(ls[j]), name)) ::
      name in Build(Fields(ls)) && Build(Fields(ls))[name] == Field(ls[i]).value.1
  {
    var fs := Fields(ls);
    assert forall i | 0 <= i < |ls| :: fs[i] == Field(ls[i]);
    BuildNames(fs, name);
    forall i | 0 <= i < |ls| && Names(Field(ls[i]), name) && (forall j | i < j < |ls| :: !Names(Field(ls[j]), name))
      ensures name in Build(fs) && Build(fs)[name] == Field(ls[i]).value.1
    {
      BuildLastWins(fs, name, i);
    }
  }

  /** `getline(stream, line)` with the stream at `pos`. */
  method GetLine(raw: string, pos: nat) returns (line: string, next: nat)
    requires pos < |raw|
    ensures line == raw[pos..LineEnd(raw, pos)]
    ensures next == NextLine(raw, pos)
  {
    var e := pos;
    while e < |raw| && raw[e] != '\n'
      invariant pos <= e <= |raw|
      invariant LineEnd(raw, e) == LineEnd(raw, pos)
      decreases |raw| - e
    {
      e := e + 1;
    }
    line := raw[pos..e];
    next := if e < |raw| then e + 1 else e;
  }

  /** `parseHeaders(raw)`. */
  method ParseHeaders(raw: string) returns (headers: HttpHeaders)
    ensures fresh(headers)
    ensures headers.fields == HeaderFields(raw)
  {
    headers := new HttpHeaders();
    var pos := 0;
    ghost var done: seq<string> := [];
    while pos < |raw|
      invariant pos <= |raw|
      invariant done + Lines(raw, pos) == Lines(raw, 0)
      invariant headers.fields == Build(Fields(done))
      decreases |raw| - pos
    {
      var line, next := GetLine(raw, pos);
      assert Lines(raw, pos) == [line] + Lines(raw, next);
      var colon := FirstColon(line);
      if colon != |line| {
        var key := line[..colon];
        var value := line[colon + 1..];
        key := TrimEnd(key);
        value := TrimStart(value);
        value := TrimEnd(value);
        headers.Set(key, value);
      }
      assert Fields(done + [line]) == Fields(done) + [Field(line)];
      assert (Fields(done) + [Field(line)])[..|done|] == Fields(done);
      done := done + [line];
      pos := next;
    }
    assert done == Lines(raw, 0);
  }
}
