/**
 `parse_vtt(transcription_path, audio_path)` of the top-level module, written
 as the two nested index loops it is. The file is given as its lines; the
 `audio_path` argument is accepted and never looked at.

 The two tests the loops apply to a line, `lines[k].strip()` and
 `timestamp_re.match(lines[k].strip())`, are the methods `StripLine` and
 `MatchLine`; their contracts report the outcome through the classification
 of the line, which is what the loop invariants speak about.
 */
module Parser {
  import opened Text
  import opened Results
  import CueHeader
  import SrcParser

  /** `lines[k].strip()`: empty exactly for a blank line, and the collected
      content for a body line. */
  method StripLine(lines: seq<string>, k: nat) returns (stripped: string)
    requires k < |lines|
    ensures stripped == [] <==> SrcParser.ClassifyAll(lines)[k].Blank?
    ensures SrcParser.ClassifyAll(lines)[k].Body? ==> stripped == SrcParser.ClassifyAll(lines)[k].content
  {
    stripped := Strip(lines[k]);
    SrcParser.LineFacts(lines, k);
  }

  /** `timestamp_re.match(lines[k].strip())`: the two groups exactly for a
      header line. */
  method MatchLine(lines: seq<string>, k: nat) returns (found: Option<(string, string)>)
    requires k < |lines|
    ensures found.Some? <==> SrcParser.ClassifyAll(lines)[k].Header?
    ensures found.Some? ==>
      found.value.0 == SrcParser.ClassifyAll(lines)[k].start && found.value.1 == SrcParser.ClassifyAll(lines)[k].end
  {
    found := CueHeader.Match(Strip(lines[k]));
    SrcParser.LineFacts(lines, k);
  }

  /** The outer loop tries the header pattern on each stripped line; on a
      header it collects the body (see `CollectBody`), joins it with single
      spaces and keeps the entry when that text is not empty; any other line
      is skipped. The result is the same as that of the one-argument
      `parse_vtt`, whatever `audioPath` is. */
  method ParseVtt(lines: seq<string>, audioPath: Option<string>) returns (results: seq<SrcParser.Cue>)
    ensures results == SrcParser.ParseVtt(lines)
  {
    ghost var ks := SrcParser.ClassifyAll(lines);
    results := [];
    var i := 0;
    while i < |lines|
      invariant i <= |lines|
      invariant results + SrcParser.Scan(ks, i) == SrcParser.ParseVtt(lines)
      decreases |lines| - i
    {
      var found := MatchLine(lines, i);
      if found.Some? {
        var start, end := found.value.0, found.value.1;
        SrcParser.ScanHeaderStep(ks, i);
        var textLines;
        textLines, i := CollectBody(lines, i + 1);
        var text := Join(textLines, " ");
        if text != [] {
          results := results + [SrcParser.Cue(text, start, end)];
        }
      } else {
        SrcParser.ScanSkipStep(ks, i);
        i := i + 1;
      }
    }
  }

  /** The inner loop: from `i` on, the stripped lines that are neither blank
      nor headers, up to the first line that is one of these or the end of the
      file, and the index where it stopped. */
  method CollectBody(lines: seq<string>, i: nat) returns (textLines: seq<string>, j: nat)
    requires i <= |lines|
    ensures j == SrcParser.BodyEnd(SrcParser.ClassifyAll(lines), i)
    ensures textLines == SrcParser.Texts(SrcParser.ClassifyAll(lines), i)
  {
    ghost var ks := SrcParser.ClassifyAll(lines);
    textLines := [];
    j := i;
    while j < |lines|
      invariant i <= j <= |lines|
      invariant SrcParser.BodyEnd(ks, j) == SrcParser.BodyEnd(ks, i)
      invariant textLines + SrcParser.Texts(ks, j) == SrcParser.Texts(ks, i)
      decreases |lines| - j
    {
      var stripped := StripLine(lines, j);
      if stripped == [] {
        SrcParser.BodyStop(ks, j);
        break;
      }
      var found := MatchLine(lines, j);
      if found.Some? {
        SrcParser.BodyStop(ks, j);
        break;
      }
      SrcParser.CollectStep(ks, i, j, textLines);
      textLines := textLines + [stripped];
      j := j + 1;
    }
    if j == |lines| {
      SrcParser.BodyStop(ks, j);
    }
  }
}
