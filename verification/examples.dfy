/**
 Caption files of a fixed shape, with the stamps and texts left as parameters,
 and what the parser makes of them: a one-line and a two-line cue, two blocks
 in a row, a header with an empty body, a header with no blank line before it,
 and the `WEBVTT` preamble.
 */
module Examples {
  import opened Text
  import CueHeader
  import SrcParser

  /** The header line `a --> b` written with single spaces around the arrow. */
  lemma HeaderShape(a: string, b: string)
    requires CueHeader.IsTimestamp(a) && CueHeader.IsTimestamp(b)
    ensures CueHeader.MatchesWith(a + " --> " + b, a, b, 1, 1)
    ensures NoEdgeSpace(a + " --> " + b)
  {
    var t := a + " --> " + b;
    assert t[..9] == a;
    assert t[9..10] == " ";
    assert t[10..13] == "-->";
    assert t[13..14] == " ";
    assert t[14..23] == b;
    assert t[0] == a[0] && t[|t| - 1] == b[8];
  }

  /** A line read with its newline strips back to its text. */
  lemma StripNewline(t: string)
    requires NoEdgeSpace(t)
    ensures Strip(t + "\n") == t
  {
    assert t + "\n" == [] + t + "\n";
    StripUnique([], t, "\n");
  }

  lemma HeaderLine(a: string, b: string)
    requires CueHeader.IsTimestamp(a) && CueHeader.IsTimestamp(b)
    ensures SrcParser.Classify(a + " --> " + b + "\n") == SrcParser.Header(a, b)
  {
    var t := a + " --> " + b;
    HeaderShape(a, b);
    StripNewline(t);
    CueHeader.MatchesWithIsMatch(t, a, b, 1, 1);
  }

  /** A text line that does not start with a digit is never taken for a header. */
  lemma TextLine(t: string)
    requires t != [] && NoEdgeSpace(t) && !IsDigit(t[0])
    ensures SrcParser.Classify(t + "\n") == SrcParser.Body(t)
  {
    StripNewline(t);
    assert !CueHeader.TimestampAt(t, 0);
  }

  lemma BlankLine()
    ensures SrcParser.Classify("\n") == SrcParser.Blank
  {
    StripNewline([]);
    assert [] + "\n" == "\n";
  }

  lemma HeaderAt(lines: seq<string>, k: nat, a: string, b: string)
    requires CueHeader.IsTimestamp(a) && CueHeader.IsTimestamp(b)
    requires k < |lines| && lines[k] == a + " --> " + b + "\n"
    ensures SrcParser.ClassifyAll(lines)[k] == SrcParser.Header(a, b)
  {
    SrcParser.ClassifyAllAt(lines, k);
    HeaderLine(a, b);
  }

  lemma TextAt(lines: seq<string>, k: nat, t: string)
    requires t != [] && NoEdgeSpace(t) && !IsDigit(t[0])
    requires k < |lines| && lines[k] == t + "\n"
    ensures SrcParser.ClassifyAll(lines)[k] == SrcParser.Body(t)
  {
    SrcParser.ClassifyAllAt(lines, k);
    TextLine(t);
  }

  lemma BlankAt(lines: seq<string>, k: nat)
    requires k < |lines| && lines[k] == "\n"
    ensures SrcParser.ClassifyAll(lines)[k] == SrcParser.Blank
  {
    SrcParser.ClassifyAllAt(lines, k);
    BlankLine();
  }

  lemma OneLineCueKinds(ks: seq<SrcParser.LineKind>, a: SrcParser.Stamp, b: SrcParser.Stamp, t: SrcParser.Content)
    requires |ks| == 3
    requires ks[0] == SrcParser.Header(a, b) && ks[1] == SrcParser.Body(t) && ks[2] == SrcParser.Blank
    ensures SrcParser.Scan(ks, 0) == [SrcParser.Cue(t, a, b)]
  {
    assert SrcParser.BodyEnd(ks, 1) == 2;
    assert SrcParser.BodyText(ks, 1) == t;
    assert SrcParser.Scan(ks, 2) == [];
  }

  lemma OneLineCue(lines: seq<string>, a: string, b: string, t: string)
    requires CueHeader.IsTimestamp(a) && CueHeader.IsTimestamp(b)
    requires t != [] && NoEdgeSpace(t) && !IsDigit(t[0])
    requires |lines| == 3
    requires lines[0] == a + " --> " + b + "\n" && lines[1] == t + "\n" && lines[2] == "\n"
    ensures SrcParser.ParseVtt(lines) == [SrcParser.Cue(t, a, b)]
  {
    HeaderAt(lines, 0, a, b);
    TextAt(lines, 1, t);
    BlankAt(lines, 2);
    OneLineCueKinds(SrcParser.ClassifyAll(lines), a, b, t);
  }

  lemma TwoLineCueKinds(ks: seq<SrcParser.LineKind>, a: SrcParser.Stamp, b: SrcParser.Stamp, t1: SrcParser.Content, t2: SrcParser.Content)
    requires |ks| == 4
    requires ks[0] == SrcParser.Header(a, b) && ks[1] == SrcParser.Body(t1)
    requires ks[2] == SrcParser.Body(t2) && ks[3] == SrcParser.Blank
    ensures SrcParser.Scan(ks, 0) == [SrcParser.Cue(t1 + " " + t2, a, b)]
  {
    assert SrcParser.BodyEnd(ks, 2) == 3;
    assert SrcParser.BodyText(ks, 2) == t2;
    assert SrcParser.BodyText(ks, 1) == t1 + " " + t2;
    assert SrcParser.Scan(ks, 3) == [];
  }

  lemma TwoLineCue(lines: seq<string>, a: string, b: string, t1: string, t2: string)
    requires CueHeader.IsTimestamp(a) && CueHeader.IsTimestamp(b)
    requires t1 != [] && NoEdgeSpace(t1) && !IsDigit(t1[0])
    requires t2 != [] && NoEdgeSpace(t2) && !IsDigit(t2[0])
    requires |lines| == 4
    requires lines[0] == a + " --> " + b + "\n" && lines[1] == t1 + "\n"
    requires lines[2] == t2 + "\n" && lines[3] == "\n"
    ensures SrcParser.ParseVtt(lines) == [SrcParser.Cue(t1 + " " + t2, a, b)]
  {
    HeaderAt(lines, 0, a, b);
    TextAt(lines, 1, t1);
    TextAt(lines, 2, t2);
    BlankAt(lines, 3);
    TwoLineCueKinds(SrcParser.ClassifyAll(lines), a, b, t1, t2);
  }

  /** The two-block file: a one-line cue, a blank line, a two-line cue and a
      blank line give the two entries in file order. With the stamps
      `00:00.000`, `00:02.500`, `00:05.000` and the texts `Hello world`,
      `Second line`, `continued` this is the file whose entries are
      `("Hello world", "00:00.000", "00:02.500")` and
      `("Second line continued", "00:02.500", "00:05.000")`. */
  lemma TwoCues(lines: seq<string>, s0: string, s1: string, s2: string, t1: string, t2: string, t3: string)
    requires CueHeader.IsTimestamp(s0) && CueHeader.IsTimestamp(s1) && CueHeader.IsTimestamp(s2)
    requires t1 != [] && NoEdgeSpace(t1) && !IsDigit(t1[0])
    requires t2 != [] && NoEdgeSpace(t2) && !IsDigit(t2[0])
    requires t3 != [] && NoEdgeSpace(t3) && !IsDigit(t3[0])
    requires |lines| == 7
    requires lines[0] == s0 + " --> " + s1 + "\n" && lines[1] == t1 + "\n" && lines[2] == "\n"
    requires lines[3] == s1 + " --> " + s2 + "\n" && lines[4] == t2 + "\n" && lines[5] == t3 + "\n"
    requires lines[6] == "\n"
    ensures SrcParser.ParseVtt(lines) == [SrcParser.Cue(t1, s0, s1), SrcParser.Cue(t2 + " " + t3, s1, s2)]
  {
    var a, b := lines[..3], lines[3..];
    OneLineCue(a, s0, s1, t1);
    TwoLineCue(b, s1, s2, t2, t3);
    SrcParser.LineFacts(a, 2);
    BlankAt(a, 2);
    SrcParser.ParseConcat(a, b);
    assert a + b == lines;
  }

  /** A header followed directly by a blank line has an empty body and yields
      no entry. */
  lemma EmptyBody(lines: seq<string>, a: string, b: string)
    requires CueHeader.IsTimestamp(a) && CueHeader.IsTimestamp(b)
    requires |lines| == 2 && lines[0] == a + " --> " + b + "\n" && lines[1] == "\n"
    ensures SrcParser.ParseVtt(lines) == []
  {
    HeaderAt(lines, 0, a, b);
    BlankAt(lines, 1);
    var ks := SrcParser.ClassifyAll(lines);
    assert SrcParser.BodyText(ks, 1) == [];
    assert SrcParser.BodyEnd(ks, 1) == 1;
    assert SrcParser.Scan(ks, 1) == [];
  }

  lemma AdjacentHeadersKinds(ks: seq<SrcParser.LineKind>, a: SrcParser.Stamp, b: SrcParser.Stamp, c: SrcParser.Stamp, d: SrcParser.Stamp,
                             t1: SrcParser.Content, t2: SrcParser.Content)
    requires |ks| == 4
    requires ks[0] == SrcParser.Header(a, b) && ks[1] == SrcParser.Body(t1)
    requires ks[2] == SrcParser.Header(c, d) && ks[3] == SrcParser.Body(t2)
    ensures SrcParser.Scan(ks, 0) == [SrcParser.Cue(t1, a, b), SrcParser.Cue(t2, c, d)]
  {
    assert SrcParser.BodyEnd(ks, 3) == 4;
    assert SrcParser.BodyText(ks, 3) == t2;
    assert SrcParser.Scan(ks, 4) == [];
    assert SrcParser.Scan(ks, 2) == [SrcParser.Cue(t2, c, d)];
    assert SrcParser.BodyEnd(ks, 1) == 2;
    assert SrcParser.BodyText(ks, 1) == t1;
  }

  /** A header right after a body line, with no blank line between, ends that
      body and starts a cue of its own; the last body runs to the end of the
      file without a closing blank line. */
  lemma AdjacentHeaders(lines: seq<string>, a: string, b: string, c: string, d: string, t1: string, t2: string)
    requires CueHeader.IsTimestamp(a) && CueHeader.IsTimestamp(b)
    requires CueHeader.IsTimestamp(c) && CueHeader.IsTimestamp(d)
    requires t1 != [] && NoEdgeSpace(t1) && !IsDigit(t1[0])
    requires t2 != [] && NoEdgeSpace(t2) && !IsDigit(t2[0])
    requires |lines| == 4
    requires lines[0] == a + " --> " + b + "\n" && lines[1] == t1 + "\n"
    requires lines[2] == c + " --> " + d + "\n" && lines[3] == t2 + "\n"
    ensures SrcParser.ParseVtt(lines) == [SrcParser.Cue(t1, a, b), SrcParser.Cue(t2, c, d)]
  {
    HeaderAt(lines, 0, a, b);
    TextAt(lines, 1, t1);
    HeaderAt(lines, 2, c, d);
    TextAt(lines, 3, t2);
    AdjacentHeadersKinds(SrcParser.ClassifyAll(lines), a, b, c, d, t1, t2);
  }

  /** A leading `WEBVTT` line and a blank line contribute nothing. */
  lemma WebvttPreamble(lines: seq<string>)
    ensures SrcParser.ParseVtt(["WEBVTT\n", "\n"] + lines) == SrcParser.ParseVtt(lines)
  {
    var w := "WEBVTT";
    var pre := [w + "\n", "\n"];
    assert pre[0] == "WEBVTT\n";
    assert pre == ["WEBVTT\n", "\n"];
    StripNewline(w);
    assert !CueHeader.TimestampAt(w, 0);
    StripNewline([]);
    assert [] + "\n" == "\n";
    assert CueHeader.Match(Strip(pre[0])).None?;
    assert CueHeader.Match(Strip(pre[1])).None?;
    SrcParser.ParseIgnoresHeaderlessPrefix(pre, lines);
  }
}
