/**
 The cue-header pattern `(\d{2}:\d{2}\.\d{3})\s*-->\s*(\d{2}:\d{2}\.\d{3})`
 applied with `re.match`: it must match at the start of the (stripped) line,
 and anything may follow the second timestamp.
 */
module CueHeader {
  import opened Text
  import opened Results

  /** The shape `MM:SS.mmm` of one captured group: two digits, a colon, two
      digits, a dot, three digits. */
  predicate IsTimestamp(t: string) {
    && |t| == 9
    && IsDigit(t[0]) && IsDigit(t[1])
    && t[2] == ':'
    && IsDigit(t[3]) && IsDigit(t[4])
    && t[5] == '.'
    && IsDigit(t[6]) && IsDigit(t[7]) && IsDigit(t[8])
  }

  const Arrow: string := "-->"

  /** The first position at or after `i` that does not hold whitespace: where a
      greedy `\s*` starting at `i` stops. */
  function SkipSpaces(s: string, i: nat): (j: nat)
    requires i <= |s|
    ensures i <= j <= |s|
    ensures forall k :: i <= k < j ==> IsSpace(s[k])
    ensures j == |s| || !IsSpace(s[j])
    decreases |s| - i
  {
    if i < |s| && IsSpace(s[i]) then SkipSpaces(s, i + 1) else i
  }

  /** A group of the shape `MM:SS.mmm` starts at position `i` of `s`. */
  predicate TimestampAt(s: string, i: nat) {
    && i + 9 <= |s|
    && IsDigit(s[i]) && IsDigit(s[i + 1])
    && s[i + 2] == ':'
    && IsDigit(s[i + 3]) && IsDigit(s[i + 4])
    && s[i + 5] == '.'
    && IsDigit(s[i + 6]) && IsDigit(s[i + 7]) && IsDigit(s[i + 8])
  }

  /** The arrow `-->` starts at position `j` of `s`. */
  predicate ArrowAt(s: string, j: nat) {
    j + 3 <= |s| && s[j] == '-' && s[j + 1] == '-' && s[j + 2] == '>'
  }

  lemma TimestampAtIff(s: string, i: nat)
    requires i + 9 <= |s|
    ensures TimestampAt(s, i) <==> IsTimestamp(s[i..i + 9])
  {
    var t := s[i..i + 9];
    assert forall m :: 0 <= m < 9 ==> t[m] == s[i + m];
  }

  lemma ArrowAtIff(s: string, j: nat)
    requires j + 3 <= |s|
    ensures ArrowAt(s, j) <==> s[j..j + 3] == Arrow
  {
    var t := s[j..j + 3];
    assert forall m :: 0 <= m < 3 ==> t[m] == s[j + m];
  }

  /** `timestamp_re.match(s)`: the two captured groups, or `None` when the
      pattern does not match at the start of `s`. The pattern is stepped
      through character by character: a group, a greedy `\s*`, the arrow, a
      greedy `\s*`, a group. */
  function Match(s: string): (r: Option<(string, string)>)
    ensures r.Some? ==> IsTimestamp(r.value.0) && IsTimestamp(r.value.1)
  {
    if !TimestampAt(s, 0) then None
    else
      var j := SkipSpaces(s, 9);
      if !ArrowAt(s, j) then None
      else
        var k := SkipSpaces(s, j + 3);
        if !TimestampAt(s, k) then None
        else
          TimestampAtIff(s, 0);
          TimestampAtIff(s, k);
          assert s[..9] == s[0..9];
          Some((s[..9], s[k..k + 9]))
  }

  /** The regular expression's own reading: `s` begins with the group `a`, then
      `n1` whitespace characters, the arrow, `n2` whitespace characters and the
      group `b`; whatever follows is ignored. */
  predicate MatchesWith(s: string, a: string, b: string, n1: nat, n2: nat) {
    var j := 9 + n1;     // where the arrow starts
    var k := j + 3 + n2; // where the second group starts
    && |s| >= k + 9
    && IsTimestamp(a) && s[..9] == a
    && AllSpace(s[9..j])
    && s[j..j + 3] == Arrow
    && AllSpace(s[j + 3..k])
    && IsTimestamp(b) && s[k..k + 9] == b
  }

  /** `Match` finds exactly the captures the pattern admits: it reports `(a, b)`
      if and only if some choice of whitespace runs makes `s` an instance of the
      pattern with groups `a` and `b`. As neither `-` nor a digit is whitespace,
      the greedy `\s*` never needs to back off. */
  lemma MatchIff(s: string, a: string, b: string)
    ensures Match(s) == Some((a, b)) <==> exists n1: nat, n2: nat :: MatchesWith(s, a, b, n1, n2)
  {
    if Match(s) == Some((a, b)) {
      var n1, n2 := MatchGives(s);
    }
    if n1: nat, n2: nat :| MatchesWith(s, a, b, n1, n2) {
      MatchesWithIsMatch(s, a, b, n1, n2);
    }
  }

  /** What `Match` reports is an instance of the pattern, with the whitespace
      runs the greedy `\s*` consumed. */
  lemma MatchGives(s: string) returns (n1: nat, n2: nat)
    requires Match(s).Some?
    ensures MatchesWith(s, Match(s).value.0, Match(s).value.1, n1, n2)
  {
    var j := SkipSpaces(s, 9);
    var k := SkipSpaces(s, j + 3);
    n1, n2 := j - 9, k - j - 3;
    StepsGive(s, j, k);
  }

  lemma StepsGive(s: string, j: nat, k: nat)
    requires TimestampAt(s, 0) && 9 <= j <= |s| && j == SkipSpaces(s, 9)
    requires ArrowAt(s, j) && k == SkipSpaces(s, j + 3) && TimestampAt(s, k)
    ensures MatchesWith(s, s[..9], s[k..k + 9], j - 9, k - j - 3)
  {
    TimestampAtIff(s, 0);
    TimestampAtIff(s, k);
    ArrowAtIff(s, j);
    assert s[..9] == s[0..9];
    SpaceRun(s, 9, j);
    SpaceRun(s, j + 3, k);
  }

  lemma SpaceRun(s: string, i: nat, j: nat)
    requires i <= j <= |s|
    requires forall m :: i <= m < j ==> IsSpace(s[m])
    ensures AllSpace(s[i..j])
  {
    assert forall m :: 0 <= m < j - i ==> s[i..j][m] == s[i + m];
  }

  lemma MatchesWithIsMatch(s: string, a: string, b: string, n1: nat, n2: nat)
    requires MatchesWith(s, a, b, n1, n2)
    ensures Match(s) == Some((a, b))
  {
    var j := 9 + n1;
    var k := j + 3 + n2;
    assert s[..9] == s[0..9];
    TimestampAtIff(s, 0);
    ArrowFound(s, a, b, n1, n2);
    ArrowAtIff(s, j);
    SecondGroupFound(s, a, b, n1, n2);
    TimestampAtIff(s, k);
    assert TimestampAt(s, 0) && SkipSpaces(s, 9) == j && ArrowAt(s, j);
    assert SkipSpaces(s, j + 3) == k && TimestampAt(s, k);
    assert s[k..k + 9] == b;
    var r := Match(s);
    assert r.Some?;
    assert r.value.0 == a;
    assert r.value.1 == b;
  }

  lemma ArrowFound(s: string, a: string, b: string, n1: nat, n2: nat)
    requires MatchesWith(s, a, b, n1, n2)
    ensures SkipSpaces(s, 9) == 9 + n1
  {
    var j := 9 + n1;
    assert s[j] == s[j..j + 3][0] == '-';
    SkipSpacesRun(s, 9, j);
  }

  lemma SecondGroupFound(s: string, a: string, b: string, n1: nat, n2: nat)
    requires MatchesWith(s, a, b, n1, n2)
    ensures SkipSpaces(s, SkipSpaces(s, 9) + 3) == 12 + n1 + n2
  {
    var j := 9 + n1;
    var k := j + 3 + n2;
    ArrowFound(s, a, b, n1, n2);
    assert s[k] == s[k..k + 9][0] == b[0];
    SkipSpacesRun(s, j + 3, k);
  }

  /** A whitespace run that ends at a non-whitespace character is exactly what
      `SkipSpaces` skips. */
  lemma SkipSpacesRun(s: string, i: nat, j: nat)
    requires i <= j < |s|
    requires AllSpace(s[i..j]) && !IsSpace(s[j])
    ensures SkipSpaces(s, i) == j
  {
    var e := SkipSpaces(s, i);
    assert e <= j;
    assert forall k :: i <= k < j ==> s[i..j][k - i] == s[k];
  }

  /** The captures are the first nine characters and nine characters ending at
      or before the end of the line: the match is anchored at the start only. */
  lemma MatchAnchoredAtStart(s: string, rest: string)
    requires Match(s).Some?
    ensures Match(s + rest) == Match(s)
  {
    var m := Match(s).value;
    MatchIff(s, m.0, m.1);
    var n1: nat, n2: nat :| MatchesWith(s, m.0, m.1, n1, n2);
    MatchesWithExtends(s, rest, m.0, m.1, n1, n2);
    MatchesWithIsMatch(s + rest, m.0, m.1, n1, n2);
  }

  lemma MatchesWithExtends(s: string, rest: string, a: string, b: string, n1: nat, n2: nat)
    requires MatchesWith(s, a, b, n1, n2)
    ensures MatchesWith(s + rest, a, b, n1, n2)
  {
    var t := s + rest;
    var j := 9 + n1;
    var k := j + 3 + n2;
    assert t[..k + 9] == s[..k + 9];
    assert t[..9] == s[..9];
    assert t[9..j] == s[9..j];
    assert t[j..j + 3] == s[j..j + 3];
    assert t[j + 3..k] == s[j + 3..k];
    assert t[k..k + 9] == s[k..k + 9];
  }
}
