/**
 * The cancellation file `cancellation_requests.csv` as text, the lines a
 * reader gets from it with `fgets`, and the two filters that rewrite it
 * without the requests for one reference number.
 *
 * A line is kept with its terminating newline, as `fgets` returns it; the
 * last line of a file that does not end in a newline has none.
 */
module CancelFile {
  import Lists

  /** Length of the text's first line, its newline included. */
  function LineLength(text: string): (n: nat)
    ensures n <= |text| && (text != [] ==> n > 0)
    decreases |text|
  {
    if text == [] then 0
    else if text[0] == '\n' then 1
    else 1 + LineLength(text[1..])
  }

  /** Splits a file's text into lines, each ending just after a newline. */
  function Lines(text: string): seq<string>
    decreases |text|
  {
    if text == [] then []
    else
      var n := LineLength(text);
      [text[..n]] + Lines(text[n..])
  }

  /** The text written by putting `chunks` one after another. */
  function Concat(chunks: seq<string>): string
    decreases |chunks|
  {
    if chunks == [] then [] else chunks[0] + Concat(chunks[1..])
  }

  /** A complete line: non-empty, ending in its only newline. */
  predicate IsLine(line: string)
  {
    line != [] && line[|line| - 1] == '\n' && forall j :: 0 <= j < |line| - 1 ==> line[j] != '\n'
  }

  /** The text of a file is the concatenation of its lines. */
  lemma {:induction false} ConcatLines(text: string)
    ensures Concat(Lines(text)) == text
    decreases |text|
  {
    if text != [] {
      var n := LineLength(text);
      ConcatLines(text[n..]);
      assert text == text[..n] + text[n..];
    }
  }

  /** A complete line at the start of the text is its first line. */
  lemma {:induction false} LineLengthOfLine(line: string, rest: string)
    requires IsLine(line)
    ensures LineLength(line + rest) == |line|
    decreases |line|
  {
    if |line| > 1 {
      assert (line + rest)[1..] == line[1..] + rest;
      LineLengthOfLine(line[1..], rest);
    }
  }

  /** Text without a newline is read as a single line. */
  lemma {:induction false} LineLengthNoNewline(text: string)
    requires forall j :: 0 <= j < |text| ==> text[j] != '\n'
    ensures LineLength(text) == |text|
    decreases |text|
  {
    if text != [] {
      LineLengthNoNewline(text[1..]);
    }
  }

  /** Writing complete lines and reading the file back yields the same lines. */
  lemma {:induction false} LinesConcat(lines: seq<string>)
    requires forall j :: 0 <= j < |lines| ==> IsLine(lines[j])
    ensures Lines(Concat(lines)) == lines
    decreases |lines|
  {
    if lines != [] {
      var l := lines[0];
      var rest := Concat(lines[1..]);
      LinesConcat(lines[1..]);
      LineLengthOfLine(l, rest);
      var text := l + rest;
      assert text[..|l|] == l;
      assert text[|l|..] == rest;
    }
  }

  /** The text before the first comma (the whole line when it has none). */
  function FirstField(line: string): string
    decreases |line|
  {
    if line == [] || line[0] == ',' then []
    else [line[0]] + FirstField(line[1..])
  }

  /** The first field is a prefix without commas, ended by a comma or the end of the line. */
  lemma {:induction false} FirstFieldSpec(line: string)
    ensures FirstField(line) <= line && ',' !in FirstField(line)
    ensures |FirstField(line)| < |line| ==> line[|FirstField(line)|] == ','
    decreases |line|
  {
    if line != [] && line[0] != ',' {
      FirstFieldSpec(line[1..]);
    }
  }

  /**
   * A line `sscanf(line, "%[^,],", tempRefNo)` reads without undefined
   * behaviour: it fits the 100-byte `fgets` buffer, its first field is not
   * empty and fits the 10-byte field buffer.
   */
  predicate ShortLine(line: string)
  {
    0 < |line| < 100 && line[0] != ',' && |FirstField(line)| < 10
  }

  /** A line that fits the 256-byte `fgets` buffer. */
  predicate FitsLine(line: string)
  {
    0 < |line| < 256
  }

  /**
   * `removeCancellationRequest`: copies, verbatim and in order, every line
   * whose first comma-separated field is not `refNo`.
   */
  method RemoveCancellationRequest(lines: seq<string>, refNo: string) returns (out: seq<string>)
    requires forall j :: 0 <= j < |lines| ==> ShortLine(lines[j])
    ensures out == Lists.Without(lines, FirstField, refNo)
  {
    out := [];
    var i := 0;
    while i < |lines|
      invariant 0 <= i <= |lines|
      invariant out == Lists.Without(lines[..i], FirstField, refNo)
    {
      assert lines[..i + 1] == lines[..i] + [lines[i]];
      Lists.WithoutSnoc(lines[..i], lines[i], FirstField, refNo);
      if FirstField(lines[i]) != refNo {
        out := out + [lines[i]];
      }
      i := i + 1;
    }
    assert lines[..i] == lines;
  }

  /** `removeCancellationRequest`'s rewrite of the whole cancellation file. */
  method RewriteVerbatim(text: string, refNo: string) returns (out: string)
    requires forall j :: 0 <= j < |Lines(text)| ==> ShortLine(Lines(text)[j])
    ensures out == Concat(Lists.Without(Lines(text), FirstField, refNo))
  {
    var kept := RemoveCancellationRequest(Lines(text), refNo);
    out := Concat(kept);
  }

  /**
   * Reading back the file `removeCancellationRequest` writes from complete
   * lines yields exactly the lines it kept.
   */
  lemma VerbatimFilterRereads(lines: seq<string>, refNo: string)
    requires forall j :: 0 <= j < |lines| ==> IsLine(lines[j])
    ensures Lines(Concat(Lists.Without(lines, FirstField, refNo))) == Lists.Without(lines, FirstField, refNo)
  {
    var kept := Lists.Without(lines, FirstField, refNo);
    Lists.WithoutSpec(lines, FirstField, refNo);
    assert forall j :: 0 <= j < |kept| ==> kept[j] in lines;
    LinesConcat(kept);
  }

  /** Number of commas `strtok` skips before the first token. */
  function LeadingCommas(line: string): (n: nat)
    ensures n <= |line|
    ensures forall j :: 0 <= j < n ==> line[j] == ','
    ensures n < |line| ==> line[n] != ','
    decreases |line|
  {
    if line != [] && line[0] == ',' then 1 + LeadingCommas(line[1..]) else 0
  }

  /**
   * What `removeCancelRequestFromFile` writes for one line: nothing when the
   * line is only commas (`strtok` finds no token) or its token is `refNo`;
   * otherwise the line up to the end of its token, because `strtok` has
   * ended the string at the comma after the token.
   */
  function StrtokChunk(line: string, refNo: string): seq<string>
  {
    var n := LeadingCommas(line);
    if n == |line| then []
    else
      var token := FirstField(line[n..]);
      FirstFieldSpec(line[n..]);
      if token == refNo then [] else [line[..n + |token|]]
  }

  function StrtokFilter(lines: seq<string>, refNo: string): seq<string>
    decreases |lines|
  {
    if lines == [] then []
    else StrtokChunk(lines[0], refNo) + StrtokFilter(lines[1..], refNo)
  }

  lemma {:induction false} StrtokFilterAppend(a: seq<string>, b: seq<string>, refNo: string)
    ensures StrtokFilter(a + b, refNo) == StrtokFilter(a, refNo) + StrtokFilter(b, refNo)
    decreases |a|
  {
    if a != [] {
      assert (a + b)[1..] == a[1..] + b;
      StrtokFilterAppend(a[1..], b, refNo);
    } else {
      assert a + b == b;
    }
  }

  lemma StrtokFilterSnoc(lines: seq<string>, line: string, refNo: string)
    ensures StrtokFilter(lines + [line], refNo) == StrtokFilter(lines, refNo) + StrtokChunk(line, refNo)
  {
    StrtokFilterAppend(lines, [line], refNo);
    assert [line][1..] == [];
    assert StrtokFilter([line], refNo) == StrtokChunk(line, refNo) + [];
  }

  /** One step of `removeCancelRequestFromFile`: tokenise a line and write its chunk. */
  method StrtokLine(line: string, refNo: string) returns (chunk: seq<string>)
    ensures chunk == StrtokChunk(line, refNo)
  {
    var n := 0;
    while n < |line| && line[n] == ','
      invariant 0 <= n <= |line|
      invariant forall j :: 0 <= j < n ==> line[j] == ','
    {
      n := n + 1;
    }
    assert n == LeadingCommas(line);
    if n == |line| {
      return [];
    }
    var e := n;
    while e < |line| && line[e] != ','
      invariant n <= e <= |line|
      invariant forall j :: n <= j < e ==> line[j] != ','
    {
      e := e + 1;
    }
    FirstFieldAt(line, n, e);
    if line[n..e] == refNo {
      chunk := [];
    } else {
      chunk := [line[..e]];
    }
  }

  /** The token that starts at `n` and runs up to the comma at `e`, or to the end. */
  lemma FirstFieldAt(line: string, n: nat, e: nat)
    requires n <= e <= |line|
    requires forall j :: n <= j < e ==> line[j] != ','
    requires e < |line| ==> line[e] == ','
    ensures FirstField(line[n..]) == line[n..e]
  {
    var rest := line[n..];
    assert rest[..e - n] == line[n..e];
    FirstFieldIs(rest, e - n);
  }

  /**
   * `removeCancelRequestFromFile`: the filter the approval workflow uses. It
   * writes, for each line, the chunk `StrtokChunk` describes.
   */
  method RemoveCancelRequestFromFile(lines: seq<string>, refNo: string) returns (out: seq<string>)
    requires forall j :: 0 <= j < |lines| ==> FitsLine(lines[j])
    ensures out == StrtokFilter(lines, refNo)
  {
    out := [];
    var i := 0;
    while i < |lines|
      invariant 0 <= i <= |lines|
      invariant out == StrtokFilter(lines[..i], refNo)
    {
      assert lines[..i + 1] == lines[..i] + [lines[i]];
      StrtokFilterSnoc(lines[..i], lines[i], refNo);
      var chunk := StrtokLine(lines[i], refNo);
      out := out + chunk;
      i := i + 1;
    }
    assert lines[..i] == lines;
  }

  /** The approval workflow's rewrite of the whole cancellation file. */
  method RewriteForApproval(text: string, refNo: string) returns (out: string)
    requires forall j :: 0 <= j < |Lines(text)| ==> FitsLine(Lines(text)[j])
    ensures out == Concat(StrtokFilter(Lines(text), refNo))
  {
    var chunks := RemoveCancelRequestFromFile(Lines(text), refNo);
    out := Concat(chunks);
  }

  /** A prefix with no comma, followed by a comma or the end, is the first field. */
  lemma {:induction false} FirstFieldIs(line: string, m: nat)
    requires m <= |line| && ',' !in line[..m]
    requires m < |line| ==> line[m] == ','
    ensures FirstField(line) == line[..m]
    decreases m
  {
    if m > 0 {
      assert line[0] == line[..m][0];
      assert line[1..][..m - 1] == line[..m][1..];
      FirstFieldIs(line[1..], m - 1);
    }
  }

  /**
   * On lines that start with a field, the two filters drop the same lines;
   * where `removeCancellationRequest` copies a line, the approval filter
   * writes only that line's first field.
   */
  lemma {:induction false} StrtokWritesFirstFields(lines: seq<string>, refNo: string)
    requires forall j :: 0 <= j < |lines| ==> lines[j] != [] && lines[j][0] != ','
    ensures var kept := Lists.Without(lines, FirstField, refNo);
      |StrtokFilter(lines, refNo)| == |kept| &&
      forall j :: 0 <= j < |kept| ==> StrtokFilter(lines, refNo)[j] == FirstField(kept[j])
    decreases |lines|
  {
    if lines != [] {
      var line := lines[0];
      StrtokWritesFirstFields(lines[1..], refNo);
      FieldChunk(line, refNo);
      var kept, rest := Lists.Without(lines, FirstField, refNo), Lists.Without(lines[1..], FirstField, refNo);
      var out, outRest := StrtokFilter(lines, refNo), StrtokFilter(lines[1..], refNo);
      if FirstField(line) == refNo {
        assert kept == rest;
        assert out == outRest;
      } else {
        assert kept == [line] + rest;
        assert out == [FirstField(line)] + outRest;
        forall j | 0 <= j < |kept|
          ensures out[j] == FirstField(kept[j])
        {
          if j > 0 {
            assert kept[j] == rest[j - 1] && out[j] == outRest[j - 1];
          }
        }
      }
    }
  }

  /** The chunk of a line that starts with a field is that field, unless it is `refNo`. */
  lemma FieldChunk(line: string, refNo: string)
    requires line != [] && line[0] != ','
    ensures StrtokChunk(line, refNo) == if FirstField(line) == refNo then [] else [FirstField(line)]
  {
    assert LeadingCommas(line) == 0;
    assert line[0..] == line;
    var f := FirstField(line);
    FirstFieldSpec(line);
    assert line[..|f|] == f;
  }

  /** A request line whose five-character reference number is followed by a comma. */
  lemma RequestLineChunk(line: string, refNo: string)
    requires |line| > 5 && line[5] == ',' && ',' !in line[..5]
    ensures StrtokChunk(line, refNo) == if line[..5] == refNo then [] else [line[..5]]
  {
    assert LeadingCommas(line) == 0;
    assert line[0..] == line;
    FirstFieldIs(line, 5);
  }

  lemma {:induction false} ConcatAppend(a: seq<string>, b: seq<string>)
    ensures Concat(a + b) == Concat(a) + Concat(b)
    decreases |a|
  {
    if a != [] {
      assert (a + b)[1..] == a[1..] + b;
      ConcatAppend(a[1..], b);
    } else {
      assert a + b == b;
    }
  }

  /**
   * The approval filter loses the line ends of the requests it keeps: when
   * every line is a request line (a first field without a newline, then a
   * comma), the rewritten file contains no newline, so a reader finds all
   * surviving requests run together on at most one line.
   */
  lemma {:induction false} ApprovalFilterMergesLines(lines: seq<string>, refNo: string)
    requires forall j :: 0 <= j < |lines| ==>
      lines[j] != [] && lines[j][0] != ',' && ',' in lines[j] && '\n' !in FirstField(lines[j])
    ensures '\n' !in Concat(StrtokFilter(lines, refNo))
    ensures |Lines(Concat(StrtokFilter(lines, refNo)))| <= 1
    decreases |lines|
  {
    if lines != [] {
      ApprovalFilterMergesLines(lines[1..], refNo);
      var line := lines[0];
      assert LeadingCommas(line) == 0;
      assert line[0..] == line;
      var f := FirstField(line);
      FirstFieldSpec(line);
      assert line[..|f|] == f;
      ConcatAppend(StrtokChunk(line, refNo), StrtokFilter(lines[1..], refNo));
      if f != refNo {
        assert Concat([f]) == f + Concat([]);
      }
    }
    var text := Concat(StrtokFilter(lines, refNo));
    if text != [] {
      LineLengthNoNewline(text);
      assert text[|text|..] == [];
    }
  }
}
