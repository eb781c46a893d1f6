/**
 `timestamp_to_seconds(ts)`: a cue timestamp `MM:SS.mmm` as a whole number of
 seconds, `int(m) * 60 + int(s) + int(ms) // 1000`. Python raises `ValueError`
 when a split does not give exactly two pieces and when a field is not an
 integer literal; those become the error values of `TsError`.
 */
module Utils {
  import opened Text
  import opened Results
  import CueHeader
  import SrcParser

  /** Why `timestamp_to_seconds` raises. */
  datatype TsError =
    | ColonCount(pieces: nat)       // `m, s = ts.split(":")` did not get two pieces
    | DotCount(pieces: nat)         // `s, ms = s.split(".")` did not get two pieces
    | InvalidLiteral(field: string) // `int(field)` rejected the field

  /** What `timestamp_to_seconds` returns or raises. */
  datatype Seconds = Ok(value: int) | Err(error: TsError)

  function DigitValue(c: char): nat
    requires IsDigit(c)
  {
    (c as int) - ('0' as int)
  }

  /** The numeral for `n < 10`. */
  function Digit(n: nat): (c: char)
    requires n < 10
    ensures IsDigit(c) && DigitValue(c) == n
  {
    (('0' as int) + n) as char
  }

  predicate AllDigits(d: string) {
    forall k :: 0 <= k < |d| ==> IsDigit(d[k])
  }

  /** A run of decimal digits in groups separated by single underscores, as
      `int()` accepts it in base 10: a digit, then digits each of which may be
      preceded by one underscore. */
  predicate IsDigitGroups(d: string)
    decreases |d|
  {
    && |d| >= 1
    && IsDigit(d[0])
    && (|d| == 1 || (if d[1] == '_' then IsDigitGroups(d[2..]) else IsDigitGroups(d[1..])))
  }

  /** The number the digits of `d` spell; underscores carry no value. */
  function DigitsValue(d: string): nat
  {
    if d == [] then 0
    else if IsDigit(d[|d| - 1]) then DigitsValue(d[..|d| - 1]) * 10 + DigitValue(d[|d| - 1])
    else DigitsValue(d[..|d| - 1])
  }

  /** The number of digits in `d`; underscores do not count. */
  function DigitCount(d: string): nat
  {
    if d == [] then 0
    else DigitCount(d[..|d| - 1]) + (if IsDigit(d[|d| - 1]) then 1 else 0)
  }

  /** CPython's default bound on the digits of a decimal string that `int()`
      converts (`sys.get_int_max_str_digits()`); a longer literal raises. */
  const MaxStrDigits: nat := 4300

  /** Digit groups `int()` accepts: well formed and not over the bound. */
  predicate Convertible(d: string) {
    IsDigitGroups(d) && DigitCount(d) <= MaxStrDigits
  }

  /** An integer literal with nothing around it: one optional sign, then
      digit groups of at most `MaxStrDigits` digits. */
  function ParseLiteral(t: string): (r: Option<int>)
    ensures r.Some? ==> t != [] && (IsDigit(t[0]) || t[0] == '-' || t[0] == '+')
    ensures r.Some? && r.value < 0 ==> t[0] == '-'
  {
    if t != [] && (t[0] == '-' || t[0] == '+') then
      if Convertible(t[1..]) then
        var v: int := DigitsValue(t[1..]);
        Some(if t[0] == '-' then -v else v)
      else None
    else if Convertible(t) then Some(DigitsValue(t))
    else None
  }

  /** The characters `int()` skips around a literal. CPython skips the ASCII
      whitespace of its C character table (tab to carriage return, and space)
      and every non-ASCII character `str.isspace()` accepts. The information
      separators U+001C to U+001F are whitespace to `str.isspace()`, but not
      to `int()`. */
  predicate IntSpace(c: char) {
    IsSpace(c) && !('\U{1C}' <= c <= '\U{1F}')
  }

  /** Python's `int(s)` for a string in base 10: the characters of `IntSpace`
      around the literal are skipped, then the literal is read. */
  function ParseInt(s: string): Option<int>
  {
    ParseLiteral(Trim(s, IntSpace))
  }

  /** `str(n)` for a natural number: its decimal digits, most significant
      first, with no leading zero. */
  function ShowNat(n: nat): (d: string)
    ensures d != [] && AllDigits(d)
    decreases n
  {
    if n < 10 then [Digit(n)] else ShowNat(n / 10) + [Digit(n % 10)]
  }

  /** `str(n)`. */
  function Show(n: int): string {
    if n < 0 then "-" + ShowNat(-n) else ShowNat(n)
  }

  lemma {:induction false} AllDigitsAreGroups(d: string)
    requires d != [] && AllDigits(d)
    ensures IsDigitGroups(d)
    decreases |d|
  {
    if |d| > 1 {
      assert d[1] != '_';
      AllDigitsAreGroups(d[1..]);
    }
  }

  /** In a run of ASCII digits every character is a digit. */
  lemma {:induction false} AllDigitsCount(d: string)
    requires AllDigits(d)
    ensures DigitCount(d) == |d|
    decreases |d|
  {
    if d != [] {
      AllDigitsCount(d[..|d| - 1]);
    }
  }

  /** A literal of digits, possibly after a minus sign, has nothing for
      `int()` to skip. */
  lemma TrimLiteral(d: string)
    requires d != [] && (AllDigits(d) || (d[0] == '-' && AllDigits(d[1..])))
    requires IsDigit(d[|d| - 1])
    ensures Trim(d, IntSpace) == d
  {
    assert [] + d + [] == d;
    TrimUnique([], d, [], IntSpace);
  }

  lemma {:induction false} ShowNatValue(n: nat)
    ensures DigitsValue(ShowNat(n)) == n
    decreases n
  {
    if n >= 10 {
      ShowNatValue(n / 10);
      var d := ShowNat(n);
      assert d[..|d| - 1] == ShowNat(n / 10);
    }
  }

  /** Round trip: `int(str(n)) == n` for every integer of at most
      `MaxStrDigits` digits, the integers that `str` and `int` both convert. */
  lemma IntOfShow(n: int)
    requires |ShowNat(if n < 0 then -n else n)| <= MaxStrDigits
    ensures ParseInt(Show(n)) == Some(n)
  {
    var m := if n < 0 then -n else n;
    var d := ShowNat(m);
    ShowNatValue(m);
    if n < 0 {
      var t := Show(n);
      assert t == "-" + d;
      assert t[1..] == d;
      assert t[|t| - 1] == d[|d| - 1];
      TrimLiteral(t);
      LiteralOfNegative(d);
    } else {
      IntOfDigits(d);
    }
  }

  /** A minus sign followed by digits reads as the negated number. */
  lemma LiteralOfNegative(d: string)
    requires d != [] && AllDigits(d) && |d| <= MaxStrDigits
    ensures ParseLiteral("-" + d) == Some(-(DigitsValue(d) as int))
  {
    var t := "-" + d;
    assert t[0] == '-' && t[1..] == d;
    AllDigitsAreGroups(d);
    AllDigitsCount(d);
  }

  /** `int()` skips the characters of `IntSpace` around the literal. */
  lemma IntIgnoresSpaces(a: string, t: string, b: string)
    requires AllIn(a, IntSpace) && AllIn(b, IntSpace)
    requires t == [] || (!IntSpace(t[0]) && !IntSpace(t[|t| - 1]))
    ensures ParseInt(a + t + b) == ParseInt(t)
  {
    TrimUnique(a, t, b, IntSpace);
    assert [] + t + [] == t;
    TrimUnique([], t, [], IntSpace);
  }

  /** An information separator in front of the literal is not skipped, and
      `int()` rejects the string, although `str.strip()` would remove it. */
  lemma SeparatorRejected(s: string)
    requires s != [] && '\U{1C}' <= s[0] <= '\U{1F}'
    ensures IsSpace(s[0])
    ensures ParseInt(s) == None
  {
    var t := Trim(s, IntSpace);
    assert TrimLeft(s, IntSpace) == s;
    assert t != [] ==> t[0] == s[0];
  }

  /** `int()` of a non-empty run of ASCII digits, at most `MaxStrDigits` of
      them, is the number they spell; leading zeros are allowed. */
  lemma IntOfDigits(d: string)
    requires d != [] && AllDigits(d) && |d| <= MaxStrDigits
    ensures ParseInt(d) == Some(DigitsValue(d))
  {
    AllDigitsAreGroups(d);
    AllDigitsCount(d);
    TrimLiteral(d);
    assert d[0] != '-' && d[0] != '+';
  }

  /** More than `MaxStrDigits` digits are rejected. */
  lemma TooManyDigits(d: string)
    requires AllDigits(d) && |d| > MaxStrDigits
    ensures ParseInt(d) == None
  {
    AllDigitsCount(d);
    TrimLiteral(d);
    assert d[0] != '-' && d[0] != '+';
  }

  /** `timestamp_to_seconds(ts)`: split at the colon, split the second piece
      at the dot, convert the three fields in turn. Python's `//` rounds
      toward negative infinity; for the positive divisor 1000 so does Dafny's
      `/`. */
  function TimestampToSeconds(ts: string): (r: Seconds)
  {
    var parts := Split(ts, ':');
    if |parts| != 2 then Err(ColonCount(|parts|))
    else
      var sec := Split(parts[1], '.');
      if |sec| != 2 then Err(DotCount(|sec|))
      else
        match (ParseInt(parts[0]), ParseInt(sec[0]), ParseInt(sec[1]))
        case (None, _, _) => Err(InvalidLiteral(parts[0]))
        case (Some(_), None, _) => Err(InvalidLiteral(sec[0]))
        case (Some(_), Some(_), None) => Err(InvalidLiteral(sec[1]))
        case (Some(m), Some(s), Some(ms)) => Ok(m * 60 + s + ms / 1000)
  }

  /** The first split fails exactly when `ts` does not hold exactly one
      colon, and then reports one piece more than there are colons. */
  lemma ColonCountError(ts: string)
    ensures var r := TimestampToSeconds(ts);
      && (r.Err? && r.error.ColonCount? <==> multiset(ts)[':'] != 1)
      && (r.Err? && r.error.ColonCount? ==> r.error.pieces == multiset(ts)[':'] + 1)
  {
    SplitCount(ts, ':');
  }

  /** A timestamp is read field by field: for `m:s` with one colon, the second
      split fails exactly when `s` does not hold exactly one dot; otherwise
      `int()` is applied to the minutes, seconds and milliseconds in turn and
      the first field it rejects is reported. */
  lemma TimestampFields(m: string, s: string)
    requires ':' !in m && ':' !in s
    ensures var r := TimestampToSeconds(m + ":" + s);
      && (r.Err? && r.error.DotCount? <==> multiset(s)['.'] != 1)
      && (r.Err? && r.error.DotCount? ==> r.error.pieces == multiset(s)['.'] + 1)
  {
    SplitFirst(m, ':', s);
    SplitNone(s, ':');
    assert m + ":" + s == m + [':'] + s;
    SplitCount(s, '.');
  }

  lemma TimestampValue(m: string, s: string, ms: string)
    requires ':' !in m && ':' !in s && ':' !in ms && '.' !in s && '.' !in ms
    ensures var r := TimestampToSeconds(m + ":" + s + "." + ms);
      && (r.Ok? <==> ParseInt(m).Some? && ParseInt(s).Some? && ParseInt(ms).Some?)
      && (r.Ok? ==> r.value == ParseInt(m).value * 60 + ParseInt(s).value + ParseInt(ms).value / 1000)
      && (ParseInt(m).None? ==> r.Err? && r.error == InvalidLiteral(m))
      && (ParseInt(m).Some? && ParseInt(s).None? ==> r.Err? && r.error == InvalidLiteral(s))
      && (ParseInt(m).Some? && ParseInt(s).Some? && ParseInt(ms).None? ==> r.Err? && r.error == InvalidLiteral(ms))
  {
    TimestampPieces(m, s, ms);
  }

  /** The pieces the two splits cut `m:s.ms` into. */
  lemma TimestampPieces(m: string, s: string, ms: string)
    requires ':' !in m && ':' !in s && ':' !in ms && '.' !in s && '.' !in ms
    ensures Split(m + ":" + s + "." + ms, ':') == [m, s + "." + ms]
    ensures Split(s + "." + ms, '.') == [s, ms]
  {
    var rest := s + "." + ms;
    assert rest == s + ['.'] + ms;
    assert ':' !in rest by {
      forall k | 0 <= k < |rest|
        ensures rest[k] != ':'
      {
        if k < |s| {
          assert rest[k] == s[k];
        } else if k > |s| {
          assert rest[k] == ms[k - |s| - 1];
        }
      }
    }
    assert m + ":" + s + "." + ms == m + [':'] + rest;
    SplitFirst(m, ':', rest);
    SplitNone(rest, ':');
    SplitFirst(s, '.', ms);
    SplitNone(ms, '.');
  }

  /** Two ASCII digits spell ten times the first plus the second. */
  lemma TwoDigits(d: string)
    requires |d| == 2 && IsDigit(d[0]) && IsDigit(d[1])
    ensures DigitsValue(d) == 10 * DigitValue(d[0]) + DigitValue(d[1])
  {
    var p := d[..1];
    assert p[..0] == [] && p[0] == d[0];
    assert DigitsValue(p) == DigitValue(d[0]);
  }

  lemma ThreeDigits(d: string)
    requires |d| == 3 && IsDigit(d[0]) && IsDigit(d[1]) && IsDigit(d[2])
    ensures DigitsValue(d) == 100 * DigitValue(d[0]) + 10 * DigitValue(d[1]) + DigitValue(d[2])
  {
    var p := d[..2];
    TwoDigits(p);
  }

  /** Fields of at most `MaxStrDigits` ASCII digits convert to the numbers
      they spell. */
  lemma TimestampOfDigits(m: string, s: string, ms: string)
    requires m != [] && s != [] && ms != []
    requires AllDigits(m) && AllDigits(s) && AllDigits(ms)
    requires |m| <= MaxStrDigits && |s| <= MaxStrDigits && |ms| <= MaxStrDigits
    ensures TimestampToSeconds(m + ":" + s + "." + ms).Ok?
    ensures TimestampToSeconds(m + ":" + s + "." + ms).value ==
      DigitsValue(m) * 60 + DigitsValue(s) + DigitsValue(ms) / 1000
  {
    DigitsExclude(m);
    DigitsExclude(s);
    DigitsExclude(ms);
    IntOfDigits(m);
    IntOfDigits(s);
    IntOfDigits(ms);
    TimestampOfInts(m, s, ms, DigitsValue(m), DigitsValue(s), DigitsValue(ms));
  }

  lemma TimestampOfInts(m: string, s: string, ms: string, a: int, b: int, c: int)
    requires ':' !in m && ':' !in s && ':' !in ms && '.' !in s && '.' !in ms
    requires ParseInt(m).Some? && ParseInt(m).value == a
    requires ParseInt(s).Some? && ParseInt(s).value == b
    requires ParseInt(ms).Some? && ParseInt(ms).value == c
    ensures TimestampToSeconds(m + ":" + s + "." + ms).Ok?
    ensures TimestampToSeconds(m + ":" + s + "." + ms).value == a * 60 + b + c / 1000
  {
    TimestampPieces(m, s, ms);
  }

  /** A minutes field that starts with an information separator is rejected
      by `int(m)`, although `str.strip()` would have removed the separator. */
  lemma SeparatorBeforeMinutes(m: string, s: string, ms: string)
    requires m != [] && '\U{1C}' <= m[0] <= '\U{1F}'
    requires ':' !in m && ':' !in s && ':' !in ms && '.' !in s && '.' !in ms
    ensures var r := TimestampToSeconds(m + ":" + s + "." + ms);
      r.Err? && r.error == InvalidLiteral(m)
  {
    SeparatorRejected(m);
    TimestampValue(m, s, ms);
  }

  /** A minutes field of more than `MaxStrDigits` digits is rejected. */
  lemma LongMinutesRejected(m: string, s: string, ms: string)
    requires AllDigits(m) && |m| > MaxStrDigits
    requires ':' !in s && ':' !in ms && '.' !in s && '.' !in ms
    ensures var r := TimestampToSeconds(m + ":" + s + "." + ms);
      r.Err? && r.error == InvalidLiteral(m)
  {
    DigitsExclude(m);
    TooManyDigits(m);
    TimestampValue(m, s, ms);
  }

  /** A captured group `MM:SS.mmm` converts without error to its minutes
      times 60 plus its seconds; the milliseconds, below 1000, add nothing
      after the floor division. The result lies between 0 and 99 * 60 + 99. */
  lemma TimestampOfGroup(ts: string)
    requires CueHeader.IsTimestamp(ts)
    ensures TimestampToSeconds(ts).Ok?
    ensures TimestampToSeconds(ts).value == DigitsValue(ts[..2]) * 60 + DigitsValue(ts[3..5])
    ensures 0 <= TimestampToSeconds(ts).value <= 99 * 60 + 99
  {
    var m, s, ms := ts[..2], ts[3..5], ts[6..];
    GroupFields(ts);
    TimestampOfDigits(m, s, ms);
    TwoDigits(m);
    TwoDigits(s);
    ThreeDigits(ms);
  }

  /** A captured group is its three digit fields with a colon and a dot. */
  lemma GroupFields(ts: string)
    requires CueHeader.IsTimestamp(ts)
    ensures ts == ts[..2] + ":" + ts[3..5] + "." + ts[6..]
    ensures AllDigits(ts[..2]) && AllDigits(ts[3..5]) && AllDigits(ts[6..])
  {
  }

  lemma DigitsExclude(d: string)
    requires AllDigits(d)
    ensures ':' !in d && '.' !in d
  {
  }

  /** `MM:SS.mmm` for minutes and seconds below 100 and milliseconds below
      1000: the shape a cue header captures. */
  function Format(m: nat, s: nat, ms: nat): (ts: string)
    requires m < 100 && s < 100 && ms < 1000
    ensures CueHeader.IsTimestamp(ts)
  {
    [Digit(m / 10), Digit(m % 10), ':', Digit(s / 10), Digit(s % 10), '.',
     Digit(ms / 100), Digit(ms / 10 % 10), Digit(ms % 10)]
  }

  /** Round trip: a formatted timestamp converts to its minutes times 60 plus
      its seconds. */
  lemma FormatRoundTrip(m: nat, s: nat, ms: nat)
    requires m < 100 && s < 100 && ms < 1000
    ensures TimestampToSeconds(Format(m, s, ms)).Ok?
    ensures TimestampToSeconds(Format(m, s, ms)).value == m * 60 + s
  {
    var ts := Format(m, s, ms);
    TimestampOfGroup(ts);
    TwoDigits(ts[..2]);
    TwoDigits(ts[3..5]);
  }

  lemma DigitRoundTrip(c: char)
    requires IsDigit(c)
    ensures Digit(DigitValue(c)) == c
  {
  }

  lemma PairDigits(a: nat, b: nat)
    requires a < 10 && b < 10
    ensures (10 * a + b) / 10 == a && (10 * a + b) % 10 == b
  {
  }

  lemma TripleDigits(a: nat, b: nat, c: nat)
    requires a < 10 && b < 10 && c < 10
    ensures (100 * a + 10 * b + c) / 100 == a
    ensures (100 * a + 10 * b + c) / 10 % 10 == b
    ensures (100 * a + 10 * b + c) % 10 == c
  {
    assert (100 * a + 10 * b + c) / 10 == 10 * a + b;
  }

  /** Every captured group is a formatted timestamp: its fields are the
      numbers its digit pairs and triple spell. */
  lemma FormatCovers(ts: string)
    requires CueHeader.IsTimestamp(ts)
    ensures DigitsValue(ts[..2]) < 100 && DigitsValue(ts[3..5]) < 100 && DigitsValue(ts[6..]) < 1000
    ensures ts == Format(DigitsValue(ts[..2]), DigitsValue(ts[3..5]), DigitsValue(ts[6..]))
  {
    var d := seq(9, k requires 0 <= k < 9 => if k == 2 || k == 5 then 0 else DigitValue(ts[k]));
    TwoDigits(ts[..2]);
    TwoDigits(ts[3..5]);
    ThreeDigits(ts[6..]);
    PairDigits(d[0], d[1]);
    PairDigits(d[3], d[4]);
    TripleDigits(d[6], d[7], d[8]);
    var f := Format(DigitsValue(ts[..2]), DigitsValue(ts[3..5]), DigitsValue(ts[6..]));
    forall k | 0 <= k < 9
      ensures f[k] == ts[k]
    {
      if k != 2 && k != 5 {
        DigitRoundTrip(ts[k]);
      }
    }
  }

  /** The example of a cue start: `"01:02.500"` is 62 seconds. */
  lemma ExampleHalfSecondDropped()
    ensures TimestampToSeconds("01:02.500") == Ok(62)
  {
    assert Format(1, 2, 500) == "01:02.500";
    FormatRoundTrip(1, 2, 500);
  }

  /** Everything the parser captures converts without error. */
  lemma ParsedStampsConvert(lines: seq<string>)
    ensures forall k :: 0 <= k < |SrcParser.ParseVtt(lines)| ==>
      TimestampToSeconds(SrcParser.ParseVtt(lines)[k].start).Ok? &&
      TimestampToSeconds(SrcParser.ParseVtt(lines)[k].end).Ok?
  {
    var cues := SrcParser.ParseVtt(lines);
    forall k | 0 <= k < |cues|
      ensures TimestampToSeconds(cues[k].start).Ok? && TimestampToSeconds(cues[k].end).Ok?
    {
      TimestampOfGroup(cues[k].start);
      TimestampOfGroup(cues[k].end);
    }
  }
}
