/**
 The string primitives the caption parser and the timestamp converter rely on:
 Python's whitespace test, `str.strip()`, `sep.join(parts)` and `str.split(sep)`
 for a one-character separator. Strings are sequences of Unicode scalar values.
 */
module Text {

  /** Python's `str.isspace()` for one character. This is also the set that
      `str.strip()` removes and that the regular expression class `\s` matches. */
  predicate IsSpace(c: char) {
    || ('\t' <= c <= '\r')
    || ('\U{1C}' <= c <= '\U{1F}')
    || c == ' '
    || c == '\U{85}'
    || c == '\U{A0}'
    || c == '\U{1680}'
    || ('\U{2000}' <= c <= '\U{200A}')
    || c == '\U{2028}'
    || c == '\U{2029}'
    || c == '\U{202F}'
    || c == '\U{205F}'
    || c == '\U{3000}'
  }

  /** An ASCII decimal digit (the model's reading of `\d`). */
  predicate IsDigit(c: char) {
    '0' <= c <= '9'
  }

  predicate AllSpace(s: string) {
    forall k :: 0 <= k < |s| ==> IsSpace(s[k])
  }

  /** Neither the first nor the last character is whitespace. */
  predicate NoEdgeSpace(s: string) {
    s == [] || (!IsSpace(s[0]) && !IsSpace(s[|s| - 1]))
  }

  /** Every character of `s` is in the set `sp`. */
  predicate AllIn(s: string, sp: char -> bool) {
    forall k :: 0 <= k < |s| ==> sp(s[k])
  }

  /** Drops the leading characters that are in the set `sp`. */
  function TrimLeft(s: string, sp: char -> bool): (r: string)
    ensures r == [] || !sp(r[0])
    decreases |s|
  {
    if |s| > 0 && sp(s[0]) then TrimLeft(s[1..], sp) else s
  }

  /** Drops the trailing characters that are in the set `sp`. */
  function TrimRight(s: string, sp: char -> bool): (r: string)
    ensures |r| <= |s| && r == s[..|r|]
    ensures r == [] || !sp(r[|r| - 1])
    decreases |s|
  {
    if |s| > 0 && sp(s[|s| - 1]) then TrimRight(s[..|s| - 1], sp) else s
  }

  /** `s` without characters of the set `sp` at either end. */
  function Trim(s: string, sp: char -> bool): (r: string)
    ensures r == [] || (!sp(r[0]) && !sp(r[|r| - 1]))
  {
    var t := TrimLeft(s, sp);
    var r := TrimRight(t, sp);
    assert r != [] ==> r[0] == t[0];
    r
  }

  /** Python's `s.strip()`: `s` without whitespace at either end. */
  function Strip(s: string): (r: string)
    ensures NoEdgeSpace(r)
  {
    Trim(s, IsSpace)
  }

  lemma {:induction false} TrimLeftSuffix(s: string, sp: char -> bool)
    ensures |TrimLeft(s, sp)| <= |s| && TrimLeft(s, sp) == s[|s| - |TrimLeft(s, sp)|..]
    ensures AllIn(s[..|s| - |TrimLeft(s, sp)|], sp)
    decreases |s|
  {
    if |s| > 0 && sp(s[0]) {
      TrimLeftSuffix(s[1..], sp);
      var n := |s| - |TrimLeft(s, sp)|;
      assert s[..n] == [s[0]] + s[1..][..n - 1];
    }
  }

  lemma {:induction false} TrimRightPrefix(s: string, sp: char -> bool)
    ensures AllIn(s[|TrimRight(s, sp)|..], sp)
    decreases |s|
  {
    if |s| > 0 && sp(s[|s| - 1]) {
      TrimRightPrefix(s[..|s| - 1], sp);
      var n := |TrimRight(s, sp)|;
      assert s[n..] == s[..|s| - 1][n..] + [s[|s| - 1]];
    }
  }

  /** `Strip(s)` is the slice of `s` between a whitespace prefix and a
      whitespace suffix. */
  lemma StripParts(s: string) returns (i: nat, j: nat)
    ensures i <= j <= |s|
    ensures Strip(s) == s[i..j]
    ensures AllSpace(s[..i]) && AllSpace(s[j..])
  {
    var t := TrimLeft(s, IsSpace);
    TrimLeftSuffix(s, IsSpace);
    TrimRightPrefix(t, IsSpace);
    i := |s| - |t|;
    j := i + |Strip(s)|;
    assert s[j..] == t[|Strip(s)|..];
    assert AllIn(s[..i], IsSpace) && AllIn(s[j..], IsSpace);
  }

  /** Trimming is determined by the decomposition into characters of `sp`, a
      core without such characters at its edges, and characters of `sp`:
      whichever way `s` is so decomposed, `Trim` returns the core. */
  lemma TrimUnique(a: string, t: string, b: string, sp: char -> bool)
    requires AllIn(a, sp) && AllIn(b, sp)
    requires t == [] || (!sp(t[0]) && !sp(t[|t| - 1]))
    ensures Trim(a + t + b, sp) == t
  {
    var s := a + t + b;
    assert s == a + (t + b);
    if t == [] {
      assert s == a + b;
      TrimLeftAll(a + b, sp);
    } else {
      TrimLeftDrops(a, t + b, sp);
      TrimRightDrops(t, b, sp);
    }
  }

  /** Stripping is determined by the decomposition into whitespace, a core
      without whitespace at its edges, and whitespace: whichever way `s` is so
      decomposed, `Strip` returns the core. */
  lemma StripUnique(a: string, t: string, b: string)
    requires AllSpace(a) && AllSpace(b) && NoEdgeSpace(t)
    ensures Strip(a + t + b) == t
  {
    assert AllIn(a, IsSpace) && AllIn(b, IsSpace);
    TrimUnique(a, t, b, IsSpace);
  }

  lemma {:induction false} TrimLeftAll(s: string, sp: char -> bool)
    requires AllIn(s, sp)
    ensures TrimLeft(s, sp) == []
    decreases |s|
  {
    if s != [] {
      TrimLeftAll(s[1..], sp);
    }
  }

  lemma {:induction false} TrimLeftDrops(a: string, u: string, sp: char -> bool)
    requires AllIn(a, sp) && (u == [] || !sp(u[0]))
    ensures TrimLeft(a + u, sp) == u
    decreases |a|
  {
    if a == [] {
      assert a + u == u;
    } else {
      assert (a + u)[1..] == a[1..] + u;
      TrimLeftDrops(a[1..], u, sp);
    }
  }

  lemma {:induction false} TrimRightDrops(t: string, b: string, sp: char -> bool)
    requires AllIn(b, sp) && (t == [] || !sp(t[|t| - 1]))
    ensures TrimRight(t + b, sp) == t
    decreases |b|
  {
    if b == [] {
      assert t + b == t;
    } else {
      assert (t + b)[..|t + b| - 1] == t + b[..|b| - 1];
      TrimRightDrops(t, b[..|b| - 1], sp);
    }
  }

  /** Stripping twice is stripping once. */
  lemma StripIdempotent(s: string)
    ensures Strip(Strip(s)) == Strip(s)
  {
    var t := Strip(s);
    assert [] + t + [] == t;
    StripUnique([], t, []);
  }

  /** Python's `sep.join(parts)`. */
  function Join(parts: seq<string>, sep: string): string
  {
    if |parts| == 0 then []
    else if |parts| == 1 then parts[0]
    else parts[0] + sep + Join(parts[1..], sep)
  }

  /** Joining parts that are all non-empty gives the empty string exactly when
      there are no parts. */
  lemma JoinEmptyIff(parts: seq<string>, sep: string)
    requires forall k :: 0 <= k < |parts| ==> parts[k] != []
    ensures Join(parts, sep) == [] <==> parts == []
  {
    if |parts| >= 1 {
      assert |Join(parts, sep)| >= |parts[0]| > 0;
    }
  }

  /** Python's `s.split(sep)` for a one-character separator: the pieces between
      occurrences of `sep`, always at least one. */
  function Split(s: string, sep: char): (r: seq<string>)
    ensures |r| >= 1
    decreases |s|
  {
    if |s| == 0 then [[]]
    else
      var rest := Split(s[1..], sep);
      if s[0] == sep then [[]] + rest
      else [[s[0]] + rest[0]] + rest[1..]
  }

  /** No piece of a split holds the separator. */
  lemma {:induction false} SplitPiecesFree(s: string, sep: char)
    ensures forall k :: 0 <= k < |Split(s, sep)| ==> sep !in Split(s, sep)[k]
    decreases |s|
  {
    if |s| > 0 {
      SplitPiecesFree(s[1..], sep);
      var rest := Split(s[1..], sep);
      if s[0] != sep {
        var r := Split(s, sep);
        assert r[0] == [s[0]] + rest[0];
        assert forall k :: 1 <= k < |r| ==> r[k] == rest[k];
      }
    }
  }

  /** `s.split(sep)` has one more piece than `s` has occurrences of `sep`. */
  lemma {:induction false} SplitCount(s: string, sep: char)
    ensures |Split(s, sep)| == multiset(s)[sep] + 1
    decreases |s|
  {
    if |s| > 0 {
      SplitCount(s[1..], sep);
      assert s == [s[0]] + s[1..];
      assert multiset(s) == multiset([s[0]]) + multiset(s[1..]);
    }
  }

  /** Round trip: joining the pieces of a split with the separator gives back
      the original string. */
  lemma {:induction false} JoinSplit(s: string, sep: char)
    ensures Join(Split(s, sep), [sep]) == s
    decreases |s|
  {
    if |s| > 0 {
      JoinSplit(s[1..], sep);
      var rest := Split(s[1..], sep);
      if s[0] == sep {
        assert Split(s, sep) == [[]] + rest;
        assert ([[]] + rest)[1..] == rest;
        assert s == [] + [sep] + s[1..];
      } else {
        var r := Split(s, sep);
        assert r[0] == [s[0]] + rest[0];
        assert r[1..] == rest[1..];
        if |rest| == 1 {
          assert Join(r, [sep]) == r[0];
          assert s[1..] == rest[0];
        } else {
          assert Join(r, [sep]) == r[0] + [sep] + Join(rest[1..], [sep]);
          assert Join(rest, [sep]) == rest[0] + [sep] + Join(rest[1..], [sep]);
        }
      }
    }
  }

  /** Splitting a string that does not contain the separator gives it back whole. */
  lemma {:induction false} SplitNone(s: string, sep: char)
    requires sep !in s
    ensures Split(s, sep) == [s]
    decreases |s|
  {
    if |s| > 0 {
      assert s[0] in s;
      assert forall c :: c in s[1..] ==> c in s;
      SplitNone(s[1..], sep);
      assert [s[0]] + s[1..] == s;
    }
  }

  /** Splitting at the first occurrence of the separator. */
  lemma {:induction false} SplitFirst(a: string, sep: char, b: string)
    requires sep !in a
    ensures Split(a + [sep] + b, sep) == [a] + Split(b, sep)
    decreases |a|
  {
    var s := a + [sep] + b;
    if a == [] {
      assert s[1..] == b;
    } else {
      assert s[1..] == a[1..] + [sep] + b;
      assert a[0] in a;
      assert forall c :: c in a[1..] ==> c in a;
      SplitFirst(a[1..], sep, b);
      assert [a[0]] + a[1..] == a;
    }
  }
}
