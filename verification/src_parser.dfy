/**
 `parse_vtt` of the packaged module: a scan over the lines of a caption file
 (as `readlines()` returns them) that turns each cue header and the text lines
 under it into a `(text, start, end)` entry.

 Each line is looked at through three tests, all on its stripped form: does it
 start with a cue header, is it empty, or else it is text. `Classify` performs
 these tests once per line, and the scan below works on the classified lines.
 `Contributions` is an independent, per-line reading of the same result, and the
 lemmas connect the two and derive the properties callers rely on.
 */
module SrcParser {
  import opened Text
  import opened Results
  import CueHeader

  /** One entry of the result: the tuple `(text, start, end)`. */
  datatype Cue = Cue(text: string, start: string, end: string)

  /** A captured `MM:SS.mmm` group. */
  type Stamp = t: string | CueHeader.IsTimestamp(t) witness "00:00.000"

  /** A stripped line that is not empty. */
  type Content = s: string | s != [] && NoEdgeSpace(s) witness "-"

  /** How the scan sees one line. */
  datatype LineKind =
    | Header(start: Stamp, end: Stamp)  // the stripped line starts with a cue header
    | Blank                             // the stripped line is empty
    | Body(content: Content)            // anything else, in stripped form

  /** The tests `parse_vtt` applies to a line: the header pattern on the
      stripped line, then emptiness of the stripped line. An empty line never
      matches the header pattern, so the order of the two tests is immaterial. */
  function Classify(line: string): LineKind
  {
    var s := Strip(line);
    match CueHeader.Match(s)
    case Some(groups) => Header(groups.0, groups.1)
    case None => if s == [] then Blank else Body(s)
  }

  /** A line is classified as a header with groups `a` and `b` exactly when its
      stripped form is an instance of the header pattern with those groups, and
      as body text exactly when its stripped form is non-empty and is no such
      instance. */
  lemma ClassifyMeaning(line: string, a: string, b: string)
    ensures (Classify(line).Header? && Classify(line).start == a && Classify(line).end == b) <==>
      exists n1: nat, n2: nat :: CueHeader.MatchesWith(Strip(line), a, b, n1, n2)
    ensures Classify(line).Body? <==>
      Strip(line) != [] && forall a', b', n1: nat, n2: nat :: !CueHeader.MatchesWith(Strip(line), a', b', n1, n2)
    ensures Classify(line).Body? ==> Classify(line).content == Strip(line)
  {
    var s := Strip(line);
    CueHeader.MatchIff(s, a, b);
    if CueHeader.Match(s).Some? {
      var g := CueHeader.Match(s).value;
      CueHeader.MatchIff(s, g.0, g.1);
    } else {
      forall a', b', n1: nat, n2: nat
        ensures !CueHeader.MatchesWith(s, a', b', n1, n2)
      {
        CueHeader.MatchIff(s, a', b');
      }
    }
  }

  /** `f` applied to every line, in order. */
  function MapLines<T>(f: string -> T, lines: seq<string>): (r: seq<T>)
    ensures |r| == |lines|
  {
    if lines == [] then [] else [f(lines[0])] + MapLines(f, lines[1..])
  }

  lemma {:induction false} MapLinesAt<T>(f: string -> T, lines: seq<string>, k: nat)
    requires k < |lines|
    ensures MapLines(f, lines)[k] == f(lines[k])
  {
    if k > 0 {
      MapLinesAt(f, lines[1..], k - 1);
    }
  }

  lemma {:induction false} MapLinesConcat<T>(f: string -> T, a: seq<string>, b: seq<string>)
    ensures MapLines(f, a + b) == MapLines(f, a) + MapLines(f, b)
  {
    if a != [] {
      assert (a + b)[1..] == a[1..] + b;
      MapLinesConcat(f, a[1..], b);
    } else {
      assert a + b == b;
    }
  }

  /** A map is determined by its values at each line. */
  lemma MapLinesPointwise<T>(f: string -> T, lines: seq<string>, r: seq<T>)
    requires |r| == |lines|
    requires forall k :: 0 <= k < |lines| ==> f(lines[k]) == r[k]
    ensures MapLines(f, lines) == r
  {
    forall k | 0 <= k < |lines|
      ensures MapLines(f, lines)[k] == r[k]
    {
      MapLinesAt(f, lines, k);
    }
  }

  /** Every line, classified. */
  function ClassifyAll(lines: seq<string>): (ks: seq<LineKind>)
    ensures |ks| == |lines|
  {
    MapLines(Classify, lines)
  }

  lemma ClassifyAllAt(lines: seq<string>, k: nat)
    requires k < |lines|
    ensures ClassifyAll(lines)[k] == Classify(lines[k])
  {
    MapLinesAt(Classify, lines, k);
  }

  lemma ClassifyAllConcat(a: seq<string>, b: seq<string>)
    ensures ClassifyAll(a + b) == ClassifyAll(a) + ClassifyAll(b)
  {
    MapLinesConcat(Classify, a, b);
  }

  /** What an entry looks like: non-empty text without whitespace at its ends,
      and two timestamps of the shape `MM:SS.mmm`. */
  predicate WellFormed(c: Cue) {
    && c.text != []
    && NoEdgeSpace(c.text)
    && CueHeader.IsTimestamp(c.start)
    && CueHeader.IsTimestamp(c.end)
  }

  /** Where the body loop started at `k` stops: the end of the maximal run of
      body lines from `k`, which is the end of the file, a blank line or a cue
      header. */
  function BodyEnd(ks: seq<LineKind>, k: nat): (e: nat)
    requires k <= |ks|
    ensures k <= e <= |ks|
    ensures e == |ks| || ks[e].Blank? || ks[e].Header?
    decreases |ks| - k
  {
    if k < |ks| && ks[k].Body? then BodyEnd(ks, k + 1) else k
  }

  /** Every line from `k` up to where the body loop stops is body text. */
  lemma {:induction false} BodyEndRun(ks: seq<LineKind>, k: nat)
    requires k <= |ks|
    ensures forall m :: k <= m < BodyEnd(ks, k) ==> ks[m].Body?
    decreases |ks| - k
  {
    if k < |ks| && ks[k].Body? {
      BodyEndRun(ks, k + 1);
    }
  }

  /** The stripped lines the body loop collects from `k` on, in order. */
  function Texts(ks: seq<LineKind>, k: nat): (r: seq<string>)
    requires k <= |ks|
    ensures |r| == BodyEnd(ks, k) - k
    decreases |ks| - k
  {
    if k < |ks| && ks[k].Body? then [ks[k].content] + Texts(ks, k + 1) else []
  }

  /** The text of a cue whose body starts at `k`, built line by line: the
      stripped body lines with a single space between neighbours. It is empty
      exactly when the body is, and has no whitespace at either end. */
  function BodyText(ks: seq<LineKind>, k: nat): (t: string)
    requires k <= |ks|
    ensures t == [] <==> BodyEnd(ks, k) == k
    ensures NoEdgeSpace(t)
    decreases |ks| - k
  {
    if k < |ks| && ks[k].Body? then
      var rest := BodyText(ks, k + 1);
      if rest == [] then ks[k].content
      else
        var t := ks[k].content + " " + rest;
        assert t[0] == ks[k].content[0];
        assert t[|t| - 1] == rest[|rest| - 1];
        t
    else []
  }

  /** The line-by-line text is `" ".join(text_lines)` of the collected lines. */
  lemma {:induction false} BodyTextIsJoin(ks: seq<LineKind>, k: nat)
    requires k <= |ks|
    ensures BodyText(ks, k) == Join(Texts(ks, k), " ")
    decreases |ks| - k
  {
    if k < |ks| && ks[k].Body? {
      BodyTextIsJoin(ks, k + 1);
      var rest := Texts(ks, k + 1);
      assert Texts(ks, k)[1..] == rest;
    }
  }

  /** The line at `h` is a header followed by at least one body line. */
  predicate Yields(ks: seq<LineKind>, h: nat)
    requires h < |ks|
  {
    ks[h].Header? && BodyEnd(ks, h + 1) > h + 1
  }

  /** The entry the line at `h` contributes when the scan visits it: `None`
      for a line that is not a header or whose body is empty. */
  function CueAt(ks: seq<LineKind>, h: nat): (r: Option<Cue>)
    requires h < |ks|
    ensures r.Some? ==> WellFormed(r.value)
    ensures r.Some? <==> Yields(ks, h)
    ensures r.Some? ==> r.value.start == ks[h].start && r.value.end == ks[h].end
  {
    if ks[h].Header? && BodyText(ks, h + 1) != [] then
      Some(Cue(BodyText(ks, h + 1), ks[h].start, ks[h].end))
    else None
  }

  /** The number of cue-header lines at index `i` or later. */
  function HeaderCount(ks: seq<LineKind>, i: nat): nat
    requires i <= |ks|
    decreases |ks| - i
  {
    if i == |ks| then 0
    else (if ks[i].Header? then 1 else 0) + HeaderCount(ks, i + 1)
  }

  /** Header lines are never inside a body, so a body holds none of them. */
  lemma {:induction false} HeaderCountSkipsBody(ks: seq<LineKind>, k: nat)
    requires k <= |ks|
    ensures HeaderCount(ks, k) == HeaderCount(ks, BodyEnd(ks, k))
    decreases |ks| - k
  {
    if k < |ks| && ks[k].Body? {
      HeaderCountSkipsBody(ks, k + 1);
    }
  }

  /** The outer loop of `parse_vtt` from index `i`: a header line yields its
      entry (when its text is non-empty) and the scan resumes after the body;
      any other line is skipped. Every entry is well formed, and there are no
      more entries than header lines. */
  function Scan(ks: seq<LineKind>, i: nat): (r: seq<Cue>)
    requires i <= |ks|
    ensures |r| <= HeaderCount(ks, i)
    ensures forall k :: 0 <= k < |r| ==> WellFormed(r[k])
    decreases |ks| - i
  {
    if i == |ks| then []
    else if ks[i].Header? then
      HeaderCountSkipsBody(ks, i + 1);
      var text := BodyText(ks, i + 1);
      var rest := Scan(ks, BodyEnd(ks, i + 1));
      if text != [] then [Cue(text, ks[i].start, ks[i].end)] + rest else rest
    else
      Scan(ks, i + 1)
  }

  /** `parse_vtt(transcription_path)` on the lines the file holds. Every entry
      has non-empty text without edge whitespace and two `MM:SS.mmm` stamps,
      and there are at most as many entries as cue-header lines. */
  function ParseVtt(lines: seq<string>): (r: seq<Cue>)
    ensures |r| <= HeaderCount(ClassifyAll(lines), 0)
    ensures forall k :: 0 <= k < |r| ==> WellFormed(r[k])
  {
    Scan(ClassifyAll(lines), 0)
  }

  /** The per-line reading of the result: what each line contributes, in file
      order. A header line contributes the entry it heads when its body is
      not empty; every other line contributes nothing. */
  function Contributions(ks: seq<LineKind>): (os: seq<Option<Cue>>)
    ensures |os| == |ks|
    ensures forall h :: 0 <= h < |ks| ==> os[h] == CueAt(ks, h)
  {
    seq(|ks|, h requires 0 <= h < |ks| => CueAt(ks, h))
  }

  /** The scan and the per-line reading agree: skipping a body loses nothing,
      because a body line is not a header and contributes nothing; a header
      line right after a body is not consumed by it and starts its own cue. */
  lemma {:induction false} ScanIsPerLine(ks: seq<LineKind>, i: nat)
    requires i <= |ks|
    ensures Scan(ks, i) == Somes(Contributions(ks), i)
    decreases |ks| - i
  {
    var os := Contributions(ks);
    if i < |ks| {
      if ks[i].Header? {
        var e := BodyEnd(ks, i + 1);
        BodyEndRun(ks, i + 1);
        ScanIsPerLine(ks, e);
        SomesSkipNone(os, i + 1, e);
      } else {
        ScanIsPerLine(ks, i + 1);
      }
    }
  }

  /** Entries come in file order: the `k`-th entry is the one yielded by the
      `k`-th header line that yields one, and those lines strictly increase. */
  lemma ParseInFileOrder(lines: seq<string>)
    ensures var ks := ClassifyAll(lines); var idx := SomePositions(Contributions(ks), 0);
      && |ParseVtt(lines)| == |idx|
      && (forall k :: 0 <= k < |idx| ==> idx[k] < |ks| && Yields(ks, idx[k]))
      && (forall k :: 0 <= k < |idx| ==> CueAt(ks, idx[k]) == Some(ParseVtt(lines)[k]))
      && (forall k, m :: 0 <= k < m < |idx| ==> idx[k] < idx[m])
  {
    var ks := ClassifyAll(lines);
    ScanIsPerLine(ks, 0);
    SomesAtPositions(Contributions(ks), 0);
  }

  /** An entry is in the result exactly when some line yields it as a header
      with a non-empty body. */
  lemma ParseMembership(lines: seq<string>, c: Cue)
    ensures c in ParseVtt(lines) <==>
      exists h :: 0 <= h < |lines| && CueAt(ClassifyAll(lines), h) == Some(c)
  {
    var ks := ClassifyAll(lines);
    ScanIsPerLine(ks, 0);
    SomesMembership(Contributions(ks), 0, c);
  }

  /** The three tests on a line, read back from its classification. */
  lemma ClassifyFacts(line: string)
    ensures Classify(line).Header? <==> CueHeader.Match(Strip(line)).Some?
    ensures Classify(line).Header? ==>
      CueHeader.Match(Strip(line)) == Some((Classify(line).start, Classify(line).end))
    ensures Classify(line).Blank? <==> Strip(line) == []
    ensures Classify(line).Body? ==> Classify(line).content == Strip(line)
  {
    if Strip(line) == [] {
      assert CueHeader.Match(Strip(line)).None?;
    }
  }

  /** The three tests on line `k`, read back from the classified lines. */
  lemma LineFacts(lines: seq<string>, k: nat)
    requires k < |lines|
    ensures var kind := ClassifyAll(lines)[k];
      && (kind.Header? <==> CueHeader.Match(Strip(lines[k])).Some?)
      && (kind.Header? ==> CueHeader.Match(Strip(lines[k])) == Some((kind.start, kind.end)))
      && (kind.Blank? <==> Strip(lines[k]) == [])
      && (kind.Body? ==> kind.content == Strip(lines[k]))
  {
    ClassifyAllAt(lines, k);
    ClassifyFacts(lines[k]);
  }

  /** One step of the body loop: a body line adds its stripped form to the
      collected lines and does not end the body. */
  lemma BodyStep(ks: seq<LineKind>, j: nat)
    requires j < |ks| && ks[j].Body?
    ensures Texts(ks, j) == [ks[j].content] + Texts(ks, j + 1)
    ensures BodyEnd(ks, j) == BodyEnd(ks, j + 1)
  {
  }

  /** The body loop's invariant is kept by collecting one more body line. */
  lemma CollectStep(ks: seq<LineKind>, i: nat, j: nat, collected: seq<string>)
    requires i <= j < |ks| && ks[j].Body?
    requires collected + Texts(ks, j) == Texts(ks, i) && BodyEnd(ks, j) == BodyEnd(ks, i)
    ensures (collected + [ks[j].content]) + Texts(ks, j + 1) == Texts(ks, i)
    ensures BodyEnd(ks, j + 1) == BodyEnd(ks, i)
  {
    BodyStep(ks, j);
  }

  /** The body loop stops at the end of the file and at a line that is not
      body text. */
  lemma BodyStop(ks: seq<LineKind>, j: nat)
    requires j <= |ks| && (j == |ks| || !ks[j].Body?)
    ensures Texts(ks, j) == [] && BodyEnd(ks, j) == j
  {
  }

  /** One step of the outer loop on any other line: it is skipped. */
  lemma ScanSkipStep(ks: seq<LineKind>, i: nat)
    requires i < |ks| && !ks[i].Header?
    ensures Scan(ks, i) == Scan(ks, i + 1)
  {
  }

  /** One step of the outer loop on a header line: the entry, if its text is
      not empty, then the scan from where the body ends. */
  lemma ScanHeaderStep(ks: seq<LineKind>, i: nat)
    requires i < |ks| && ks[i].Header?
    ensures var text := Join(Texts(ks, i + 1), " ");
      Scan(ks, i) == (if text != [] then [Cue(text, ks[i].start, ks[i].end)] else []) + Scan(ks, BodyEnd(ks, i + 1))
  {
    BodyTextIsJoin(ks, i + 1);
  }

  /** An entry in terms of the lines themselves: it comes from a line whose
      stripped form starts with the header pattern, and its stamps are that
      pattern's two groups. */
  lemma CueFromHeaderLine(lines: seq<string>, h: nat, c: Cue)
    requires h < |lines|
    requires CueAt(ClassifyAll(lines), h) == Some(c)
    ensures CueHeader.Match(Strip(lines[h])) == Some((c.start, c.end))
  {
    ClassifyAllAt(lines, h);
    ClassifyFacts(lines[h]);
  }

  /** The body of an entry in terms of the lines themselves: the maximal run of
      lines after the header that are non-blank and do not start with a header
      once stripped; the run ends at the end of the file, at a blank line or at
      a header line. */
  lemma BodyFromLines(lines: seq<string>, k: nat)
    requires k <= |lines|
    ensures var e := BodyEnd(ClassifyAll(lines), k);
      && (forall m :: k <= m < e ==> Strip(lines[m]) != [] && CueHeader.Match(Strip(lines[m])).None?)
      && (e == |lines| || Strip(lines[e]) == [] || CueHeader.Match(Strip(lines[e])).Some?)
  {
    var ks := ClassifyAll(lines);
    var e := BodyEnd(ks, k);
    BodyEndRun(ks, k);
    forall m | k <= m < e
      ensures Strip(lines[m]) != [] && CueHeader.Match(Strip(lines[m])).None?
    {
      LineFacts(lines, m);
    }
    if e < |lines| {
      LineFacts(lines, e);
    }
  }

  lemma {:induction false} TextsFromLines(lines: seq<string>, k: nat)
    requires k <= |lines|
    ensures Texts(ClassifyAll(lines), k) == MapLines(Strip, lines[k..BodyEnd(ClassifyAll(lines), k)])
    decreases |lines| - k
  {
    var ks := ClassifyAll(lines);
    var e := BodyEnd(ks, k);
    if k < |lines| && ks[k].Body? {
      TextsFromLines(lines, k + 1);
      ClassifyAllAt(lines, k);
      ClassifyFacts(lines[k]);
      assert lines[k..e][1..] == lines[k + 1..e];
    } else {
      assert lines[k..e] == [];
    }
  }

  /** The text of an entry in terms of the lines themselves: the stripped body
      lines joined with single spaces. */
  lemma TextFromLines(lines: seq<string>, h: nat, c: Cue)
    requires h < |lines|
    requires CueAt(ClassifyAll(lines), h) == Some(c)
    ensures c.text == Join(MapLines(Strip, lines[h + 1..BodyEnd(ClassifyAll(lines), h + 1)]), " ")
  {
    CueTextIsJoin(ClassifyAll(lines), h, c);
    TextsFromLines(lines, h + 1);
  }

  lemma CueTextIsJoin(ks: seq<LineKind>, h: nat, c: Cue)
    requires h < |ks| && CueAt(ks, h) == Some(c)
    ensures c.text == Join(Texts(ks, h + 1), " ")
  {
    BodyTextIsJoin(ks, h + 1);
  }

  /** A cue is read only from its header line and the lines after it. */
  lemma {:induction false} BodyEndShift(a: seq<LineKind>, b: seq<LineKind>, k: nat)
    requires k <= |b|
    ensures BodyEnd(a + b, |a| + k) == |a| + BodyEnd(b, k)
    decreases |b| - k
  {
    if k < |b| {
      assert (a + b)[|a| + k] == b[k];
      BodyEndShift(a, b, k + 1);
    }
  }

  lemma {:induction false} BodyTextShift(a: seq<LineKind>, b: seq<LineKind>, k: nat)
    requires k <= |b|
    ensures BodyText(a + b, |a| + k) == BodyText(b, k)
    decreases |b| - k
  {
    if k < |b| {
      assert (a + b)[|a| + k] == b[k];
      BodyTextShift(a, b, k + 1);
    }
  }

  lemma CueAtShift(a: seq<LineKind>, b: seq<LineKind>, h: nat)
    requires h < |b|
    ensures CueAt(a + b, |a| + h) == CueAt(b, h)
  {
    assert (a + b)[|a| + h] == b[h];
    BodyTextShift(a, b, h + 1);
  }

  /** Lines that are not cue headers, such as `WEBVTT` and a blank line in
      front of the first cue, contribute nothing: the result is that of the
      rest. */
  lemma ParseIgnoresHeaderlessPrefix(pre: seq<string>, lines: seq<string>)
    requires forall k :: 0 <= k < |pre| ==> CueHeader.Match(Strip(pre[k])).None?
    ensures ParseVtt(pre + lines) == ParseVtt(lines)
  {
    var a := ClassifyAll(pre);
    var b := ClassifyAll(lines);
    forall k | 0 <= k < |a|
      ensures !a[k].Header?
    {
      ClassifyAllAt(pre, k);
      ClassifyFacts(pre[k]);
    }
    ClassifyAllConcat(pre, lines);
    ScanIsPerLine(a + b, 0);
    ScanIsPerLine(b, 0);
    HeaderlessContributesNothing(a, b);
  }

  lemma HeaderlessContributesNothing(a: seq<LineKind>, b: seq<LineKind>)
    requires forall k :: 0 <= k < |a| ==> !a[k].Header?
    ensures Somes(Contributions(a + b), 0) == Somes(Contributions(b), 0)
  {
    var os := Contributions(a + b);
    forall h | 0 <= h < |a|
      ensures os[h].None?
    {
      HeaderlessContribution(a, b, h);
    }
    forall i | 0 <= i < |b|
      ensures os[|a| + i] == Contributions(b)[i]
    {
      CueAtShift(a, b, i);
    }
    SomesAfterNones(os, |a|);
    assert os[|a|..] == Contributions(b);
  }

  lemma HeaderlessContribution(a: seq<LineKind>, b: seq<LineKind>, h: nat)
    requires h < |a| && !a[h].Header?
    ensures CueAt(a + b, h) == None
  {
    assert (a + b)[h] == a[h];
  }

  /** A body that stops inside `a` reads the same once more lines follow `a`. */
  lemma {:induction false} BodyTextPrefix(a: seq<LineKind>, b: seq<LineKind>, k: nat)
    requires k < |a|
    requires a[|a| - 1].Blank?
    ensures BodyText(a + b, k) == BodyText(a, k)
    decreases |a| - k
  {
    assert (a + b)[k] == a[k];
    if a[k].Body? {
      BodyTextPrefix(a, b, k + 1);
    }
  }

  lemma CueAtPrefix(a: seq<LineKind>, b: seq<LineKind>, h: nat)
    requires h < |a|
    requires a[|a| - 1].Blank?
    ensures CueAt(a + b, h) == CueAt(a, h)
  {
    assert (a + b)[h] == a[h];
    if h + 1 < |a| {
      BodyTextPrefix(a, b, h + 1);
    } else {
      assert !a[h].Header?;
    }
  }

  /** With `a` ending in a blank line, every line of `a` contributes to
      `a + b` what it contributes to `a`, and every line of `b` what it
      contributes to `b`. */
  lemma ContributionsConcat(a: seq<LineKind>, b: seq<LineKind>)
    requires a != [] ==> a[|a| - 1].Blank?
    ensures Contributions(a + b) == Contributions(a) + Contributions(b)
  {
    forall h | 0 <= h < |a + b|
      ensures Contributions(a + b)[h] == (Contributions(a) + Contributions(b))[h]
    {
      ContributionConcat(a, b, h);
    }
  }

  lemma ContributionConcat(a: seq<LineKind>, b: seq<LineKind>, h: nat)
    requires a != [] ==> a[|a| - 1].Blank?
    requires h < |a + b|
    ensures CueAt(a + b, h) == if h < |a| then CueAt(a, h) else CueAt(b, h - |a|)
  {
    if h < |a| {
      CueAtPrefix(a, b, h);
    } else {
      CueAtShift(a, b, h - |a|);
    }
  }

  /** Cue blocks separated by a blank line are parsed independently: the
      result for the whole file is the result for the part up to and including
      the blank line followed by the result for the rest. */
  lemma ParseConcat(a: seq<string>, b: seq<string>)
    requires a != [] ==> Strip(a[|a| - 1]) == []
    ensures ParseVtt(a + b) == ParseVtt(a) + ParseVtt(b)
  {
    var ka := ClassifyAll(a);
    var kb := ClassifyAll(b);
    ClassifyAllConcat(a, b);
    if a != [] {
      ClassifyAllAt(a, |a| - 1);
      ClassifyFacts(a[|a| - 1]);
    }
    ScanIsPerLine(ka + kb, 0);
    ScanIsPerLine(ka, 0);
    ScanIsPerLine(kb, 0);
    ContributionsConcat(ka, kb);
    SomesConcat(Contributions(ka), Contributions(kb), 0);
  }
}
