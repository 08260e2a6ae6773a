/** The few Python `str` operations the application relies on, with Python's semantics:
    `t in s`, `s.split(c)`, `s.split(sep, 1)`, `s.splitlines()`, `s.strip()`, `s.strip(c)`,
    `sep.join(parts)`, `str(i)`, `f"{i:02d}"` and `int(s)`. */
module Text {
  import opened Wrappers

  // ---------------------------------------------------------------------------
  // Substrings

  /** Python's `t in s` on strings. */
  predicate Contains(s: string, t: string)
    decreases |s|
  {
    t <= s || (s != [] && Contains(s[1..], t))
  }

  lemma {:induction false} ContainsAt(s: string, t: string, k: nat)
    requires k + |t| <= |s| && s[k..k + |t|] == t
    ensures Contains(s, t)
    decreases k
  {
    if k == 0 {
      assert t <= s;
    } else {
      assert s[1..][k - 1..k - 1 + |t|] == t;
      ContainsAt(s[1..], t, k - 1);
    }
  }

  lemma {:induction false} ContainsWitness(s: string, t: string) returns (k: nat)
    requires Contains(s, t)
    ensures k + |t| <= |s| && s[k..k + |t|] == t
    decreases |s|
  {
    if t <= s {
      k := 0;
    } else {
      var j := ContainsWitness(s[1..], t);
      k := j + 1;
      assert s[k..k + |t|] == s[1..][j..j + |t|];
    }
  }

  lemma ContainsAppend(a: string, b: string, t: string)
    requires Contains(a, t) || Contains(b, t)
    ensures Contains(a + b, t)
  {
    if Contains(a, t) {
      var k := ContainsWitness(a, t);
      assert (a + b)[k..k + |t|] == a[k..k + |t|];
      ContainsAt(a + b, t, k);
    } else {
      var k := ContainsWitness(b, t);
      assert (a + b)[|a| + k..|a| + k + |t|] == b[k..k + |t|];
      ContainsAt(a + b, t, |a| + k);
    }
  }

  lemma ContainsTooLong(s: string, t: string)
    requires |t| > |s|
    ensures !Contains(s, t)
  {
    if Contains(s, t) {
      var k := ContainsWitness(s, t);
    }
  }

  lemma ContainsChar(s: string, c: char)
    ensures Contains(s, [c]) <==> c in s
  {
    if c in s {
      var k :| 0 <= k < |s| && s[k] == c;
      assert s[k..k + 1] == [c];
      ContainsAt(s, [c], k);
    }
    if Contains(s, [c]) {
      var k := ContainsWitness(s, [c]);
      assert s[k] == s[k..k + 1][0];
    }
  }

  // ---------------------------------------------------------------------------
  // Splitting on one character

  /** The index of the first occurrence of `c` in `s`. */
  function IndexOf(s: string, c: char): (i: nat)
    requires c in s
    ensures i < |s|
  {
    if s[0] == c then 0 else 1 + IndexOf(s[1..], c)
  }

  /** `IndexOf` finds `c`, and no `c` comes before it. */
  lemma {:induction false} IndexOfFirst(s: string, c: char)
    requires c in s
    ensures s[IndexOf(s, c)] == c && forall k :: 0 <= k < IndexOf(s, c) ==> s[k] != c
  {
    if s[0] != c {
      assert c in s[1..] by {
        var k :| 0 <= k < |s| && s[k] == c;
        assert s[1..][k - 1] == c;
      }
      IndexOfFirst(s[1..], c);
      forall k | 1 <= k < IndexOf(s, c) ensures s[k] != c {
        assert s[k] == s[1..][k - 1];
      }
    }
  }

  lemma {:induction false} IndexOfAfterFree(a: string, c: char, b: string)
    requires c !in a
    ensures c in a + [c] + b && IndexOf(a + [c] + b, c) == |a|
    decreases |a|
  {
    var s := a + [c] + b;
    assert s[|a|] == c;
    if a != [] {
      assert s[1..] == a[1..] + [c] + b;
      IndexOfAfterFree(a[1..], c, b);
    }
  }

  /** Python's `s.split(c)` for a one-character separator, one character at a time: a
      separator opens a new part, any other character joins the first part. Never empty. */
  function Split(s: string, c: char): (parts: seq<string>)
    ensures |parts| >= 1
    decreases |s|
  {
    if s == [] then [[]]
    else
      var rest := Split(s[1..], c);
      if s[0] == c then [[]] + rest else [[s[0]] + rest[0]] + rest[1..]
  }

  /** No part of a split holds the separator. */
  lemma {:induction false} SplitPartsFree(s: string, c: char)
    ensures forall k :: 0 <= k < |Split(s, c)| ==> c !in Split(s, c)[k]
    decreases |s|
  {
    if s != [] {
      var rest := Split(s[1..], c);
      SplitPartsFree(s[1..], c);
      if s[0] != c {
        var parts := Split(s, c);
        assert parts == [[s[0]] + rest[0]] + rest[1..];
        assert c !in rest[0];
        forall k | 0 <= k < |parts| ensures c !in parts[k] {
          if k > 0 { assert parts[k] == rest[k]; }
        }
      }
    }
  }

  /** Python's `sep.join(parts)`. */
  function Join(parts: seq<string>, sep: string): string
  {
    if parts == [] then []
    else if |parts| == 1 then parts[0]
    else parts[0] + sep + Join(parts[1..], sep)
  }

  /** Prepending `p` to the first of several parts prepends it to their join. */
  lemma JoinExtendFirst(p: string, parts: seq<string>, sep: string)
    requires |parts| >= 1
    ensures Join([p + parts[0]] + parts[1..], sep) == p + Join(parts, sep)
  {
    var q := [p + parts[0]] + parts[1..];
    if |parts| > 1 {
      assert q[1..] == parts[1..];
      assert Join(q, sep) == (p + parts[0]) + sep + Join(parts[1..], sep);
    }
  }

  /** Joining the parts of a split with the separator gives back the string. */
  lemma {:induction false} JoinSplit(s: string, c: char)
    ensures Join(Split(s, c), [c]) == s
    decreases |s|
  {
    if s != [] {
      var rest := Split(s[1..], c);
      JoinSplit(s[1..], c);
      if s[0] == c {
        assert ([[]] + rest)[1..] == rest;
      } else {
        JoinExtendFirst([s[0]], rest, [c]);
      }
      assert s == [s[0]] + s[1..];
    }
  }

  /** A prefix free of `c` is glued to the first part. */
  lemma {:induction false} SplitFreePrefix(a: string, t: string, c: char)
    requires c !in a
    ensures Split(a + t, c) == [a + Split(t, c)[0]] + Split(t, c)[1..]
    decreases |a|
  {
    if a == [] {
      var parts := Split(t, c);
      assert a + t == t && a + parts[0] == parts[0];
      assert parts == [parts[0]] + parts[1..];
    } else {
      assert (a + t)[0] == a[0] && (a + t)[1..] == a[1..] + t;
      SplitFreePrefix(a[1..], t, c);
      assert [a[0]] + (a[1..] + Split(t, c)[0]) == a + Split(t, c)[0];
    }
  }

  /** The first `c` after a `c`-free prefix ends the first part. */
  lemma SplitAtFirst(a: string, b: string, c: char)
    requires c !in a
    ensures Split(a + [c] + b, c) == [a] + Split(b, c)
  {
    var t := [c] + b;
    assert t[1..] == b;
    assert Split(t, c) == [[]] + Split(b, c);
    assert a + [c] + b == a + t;
    SplitFreePrefix(a, t, c);
    assert a + [] == a;
  }

  /** A string free of `c` is a single part. */
  lemma SplitWithout(a: string, c: char)
    requires c !in a
    ensures Split(a, c) == [a]
  {
    SplitFreePrefix(a, [], c);
    assert a + [] == a;
  }

  /** Splitting a join of separator-free parts gives back the parts. */
  lemma {:induction false} SplitJoin(parts: seq<string>, c: char)
    requires |parts| >= 1
    requires forall k :: 0 <= k < |parts| ==> c !in parts[k]
    ensures Split(Join(parts, [c]), c) == parts
    decreases |parts|
  {
    if |parts| == 1 {
      SplitWithout(parts[0], c);
    } else {
      SplitJoin(parts[1..], c);
      SplitAtFirst(parts[0], Join(parts[1..], [c]), c);
      assert parts == [parts[0]] + parts[1..];
    }
  }

  /** The part after the last `c` (Python's `s.split(c)[-1]`): a suffix of `s` free of `c`,
      preceded in `s` by `c` unless it is the whole of `s`. */
  function LastPart(s: string, c: char): (r: string)
    ensures c !in r
    ensures |r| <= |s| && s[|s| - |r|..] == r
    ensures |r| < |s| ==> s[|s| - |r| - 1] == c
  {
    var parts := Split(s, c);
    LastPartSuffix(s, c);
    parts[|parts| - 1]
  }

  /** `r` ends `s`, and is preceded in it by `c` unless it is the whole of `s`. */
  predicate EndsWithPart(s: string, r: string, c: char)
  {
    |r| <= |s| && s[|s| - |r|..] == r && (|r| < |s| ==> s[|s| - |r| - 1] == c)
  }

  /** What the parts of a split say about its last part. */
  predicate LastPartFacts(s: string, parts: seq<string>, c: char)
    requires parts != []
  {
    var r := parts[|parts| - 1];
    EndsWithPart(s, r, c) && c !in r && (|parts| == 1 ==> r == s) && (|parts| > 1 ==> |r| < |s|)
  }

  lemma {:induction false} LastPartSuffix(s: string, c: char)
    ensures LastPartFacts(s, Split(s, c), c)
    decreases |s|
  {
    if s != [] {
      var rest := Split(s[1..], c);
      LastPartSuffix(s[1..], c);
      var r := rest[|rest| - 1];
      assert EndsWithPart(s[1..], r, c) && c !in r;
      if s[0] == c {
        LastPartCut(s, c, rest, r);
      } else if |rest| > 1 {
        LastPartJoined(s, c, rest, r);
      } else {
        assert rest == [s[1..]];
        assert [s[0]] + s[1..] == s;
        assert Split(s, c) == [s];
        assert s[0..] == s;
      }
    }
  }

  /** The step of `LastPartSuffix` where `s` begins with the separator. */
  lemma LastPartCut(s: string, c: char, rest: seq<string>, r: string)
    requires s != [] && s[0] == c && rest == Split(s[1..], c) && r == rest[|rest| - 1]
    requires EndsWithPart(s[1..], r, c) && c !in r
    ensures LastPartFacts(s, Split(s, c), c)
  {
    var parts := Split(s, c);
    assert parts == [[]] + rest;
    LastOfPrefixed([], rest);
    assert parts[|parts| - 1] == r && |parts| > 1 && |r| < |s|;
    EndsWithPartShift(s, r, c);
  }

  /** The step of `LastPartSuffix` where the first character joins the first of several parts. */
  lemma LastPartJoined(s: string, c: char, rest: seq<string>, r: string)
    requires s != [] && s[0] != c && rest == Split(s[1..], c) && |rest| > 1 && r == rest[|rest| - 1]
    requires LastPartFacts(s[1..], rest, c)
    ensures LastPartFacts(s, Split(s, c), c)
  {
    var parts := Split(s, c);
    assert parts == [[s[0]] + rest[0]] + rest[1..];
    LastOfPrefixed([s[0]] + rest[0], rest[1..]);
    EndsWithPartShift(s, r, c);
  }

  /** The last of several parts is not affected by a part put in front. */
  lemma LastOfPrefixed(x: string, rest: seq<string>)
    requires rest != []
    ensures var xs := [x] + rest; xs[|xs| - 1] == rest[|rest| - 1]
  {
  }

  /** A part that ends the tail of `s` ends `s` itself, when it is preceded by `c` there. */
  lemma EndsWithPartShift(s: string, r: string, c: char)
    requires s != [] && EndsWithPart(s[1..], r, c) && (|r| < |s| - 1 || s[0] == c)
    ensures EndsWithPart(s, r, c)
  {
    var rest := s[1..];
    var m := |rest| - |r|;
    assert s[|s| - |r|..] == rest[m..];
    if m == 0 {
      assert s[|s| - |r| - 1] == s[0];
    } else {
      assert s[|s| - |r| - 1] == rest[m - 1];
    }
  }

  /** Whatever precedes the last separator does not affect the last part. */
  lemma LastPartAfterSeparator(p: string, c: char, n: string)
    requires c !in n
    ensures LastPart(p + [c] + n, c) == n
  {
    var s := p + [c] + n;
    var r := LastPart(s, c);
    LastPartSuffix(s, c);
    assert EndsWithPart(s, r, c) && c !in r;
    LongerSuffixHoldsSeparator(p, c, n, r);
    assert |r| == |n|;
    assert s[|s| - |n|..] == n;
  }

  /** A suffix of `p + [c] + n` longer than `n` takes in that `c`. */
  lemma LongerSuffixHoldsSeparator(p: string, c: char, n: string, r: string)
    requires EndsWithPart(p + [c] + n, r, c)
    ensures |r| > |n| ==> c in r
  {
    var s := p + [c] + n;
    if |r| > |n| {
      assert r[|r| - |n| - 1] == s[|p|] == c;
    }
  }

  lemma LastPartWithoutSeparator(s: string, c: char)
    requires c !in s
    ensures LastPart(s, c) == s
  {
  }

  /** The part before the first `c` (Python's `s.split(c)[0]`). */
  function FirstPart(s: string, c: char): string
  {
    if c in s then s[..IndexOf(s, c)] else s
  }

  /** The first part is a prefix free of `c`, followed in `s` by `c` unless it is all of `s`. */
  lemma FirstPartShape(s: string, c: char)
    ensures var r := FirstPart(s, c);
      r <= s && c !in r && (|r| < |s| ==> s[|r|] == c) && (c !in s ==> r == s)
  {
    if c in s {
      IndexOfFirst(s, c);
      var r := FirstPart(s, c);
      forall k | 0 <= k < |r| ensures r[k] != c {
        assert r[k] == s[k];
      }
    }
  }

  // ---------------------------------------------------------------------------
  // Splitting once on a longer separator

  /** Python's `s.split(sep, 1)`: `Some((before, after))` at the first occurrence of `sep`,
      `None` when `sep` does not occur. */
  function SplitOnce(s: string, sep: string): Option<(string, string)>
    requires sep != []
    decreases |s|
  {
    if sep <= s then Some(([], s[|sep|..]))
    else if s == [] then None
    else
      match SplitOnce(s[1..], sep)
      case None => None
      case Some(p) => Some(([s[0]] + p.0, p.1))
  }

  /** A split puts `sep` back between the two pieces, at its first occurrence; no split
      means no occurrence. */
  lemma {:induction false} SplitOnceShape(s: string, sep: string)
    requires sep != []
    ensures var r := SplitOnce(s, sep);
      (r.Some? ==> s == r.value.0 + sep + r.value.1)
      && (r.Some? ==> forall k :: 0 <= k < |r.value.0| ==> !(sep <= s[k..]))
      && (r.None? ==> forall k :: 0 <= k <= |s| ==> !(sep <= s[k..]))
    decreases |s|
  {
    if !(sep <= s) && s != [] {
      SplitOnceShape(s[1..], sep);
      assert forall k :: 1 <= k <= |s| ==> s[k..] == s[1..][k - 1..];
      match SplitOnce(s[1..], sep)
      case None =>
      case Some(p) =>
        assert s == [s[0]] + s[1..];
    }
  }

  lemma SplitOnceFound(s: string, sep: string)
    requires sep != []
    ensures SplitOnce(s, sep).Some? <==> Contains(s, sep)
  {
    if Contains(s, sep) {
      var k := ContainsWitness(s, sep);
      assert sep <= s[k..];
    }
    SplitOnceShape(s, sep);
    if SplitOnce(s, sep).Some? {
      var p := SplitOnce(s, sep).value;
      assert (p.0 + sep + p.1)[|p.0|..|p.0| + |sep|] == sep;
      ContainsAt(s, sep, |p.0|);
    }
  }

  // ---------------------------------------------------------------------------
  // Lines

  /** The characters at which Python's `str.splitlines()` ends a line. */
  predicate IsLineBreak(ch: char)
  {
    ch == '\n' || ch == '\r' || ch == '\U{0b}' || ch == '\U{0c}' || ch == '\U{1c}' || ch == '\U{1d}'
    || ch == '\U{1e}' || ch == '\U{85}' || ch == '\U{2028}' || ch == '\U{2029}'
  }

  predicate NoLineBreak(s: string)
  {
    forall k :: 0 <= k < |s| ==> !IsLineBreak(s[k])
  }

  function FirstLineBreak(s: string): (i: nat)
    requires !NoLineBreak(s)
    ensures i < |s|
  {
    if IsLineBreak(s[0]) then 0 else FirstLineBreak(s[1..]) + 1
  }

  /** The first line break is one, with no line break before it. */
  lemma {:induction false} FirstLineBreakShape(s: string)
    requires !NoLineBreak(s)
    ensures var i := FirstLineBreak(s); IsLineBreak(s[i]) && NoLineBreak(s[..i])
  {
    if !IsLineBreak(s[0]) {
      FirstLineBreakShape(s[1..]);
      var j := FirstLineBreak(s[1..]);
      assert s[..j + 1] == [s[0]] + s[1..][..j];
      NoLineBreakConcat([s[0]], s[1..][..j]);
    }
  }

  lemma {:induction false} FirstLineBreakAfter(a: string, b: string)
    requires NoLineBreak(a)
    ensures !NoLineBreak(a + "\n" + b) && FirstLineBreak(a + "\n" + b) == |a|
    decreases |a|
  {
    var s := a + "\n" + b;
    assert s[|a|] == '\n';
    if a != [] {
      assert s[1..] == a[1..] + "\n" + b;
      FirstLineBreakAfter(a[1..], b);
    }
  }

  /** Python's `s.splitlines()`: "\r\n" ends one line, a final line break opens no
      empty line, and no line holds a line break. */
  function SplitLines(s: string): (lines: seq<string>)
    ensures s == [] <==> lines == []
    decreases |s|
  {
    if s == [] then []
    else if NoLineBreak(s) then [s]
    else
      var i := FirstLineBreak(s);
      var next := if s[i] == '\r' && i + 1 < |s| && s[i + 1] == '\n' then i + 2 else i + 1;
      [s[..i]] + SplitLines(s[next..])
  }

  /** No line holds a line break. */
  lemma {:induction false} SplitLinesShape(s: string)
    ensures forall k :: 0 <= k < |SplitLines(s)| ==> NoLineBreak(SplitLines(s)[k])
    decreases |s|
  {
    if s != [] && !NoLineBreak(s) {
      var i := FirstLineBreak(s);
      FirstLineBreakShape(s);
      var next := if s[i] == '\r' && i + 1 < |s| && s[i + 1] == '\n' then i + 2 else i + 1;
      SplitLinesShape(s[next..]);
      LinesCons(s[..i], SplitLines(s[next..]));
    }
  }

  /** A line without line breaks put in front of such lines. */
  lemma LinesCons(l: string, lines: seq<string>)
    requires NoLineBreak(l) && forall k :: 0 <= k < |lines| ==> NoLineBreak(lines[k])
    ensures forall k :: 0 <= k < |[l] + lines| ==> NoLineBreak(([l] + lines)[k])
  {
    forall k | 0 <= k < |[l] + lines| ensures NoLineBreak(([l] + lines)[k]) {
      if k > 0 { assert ([l] + lines)[k] == lines[k - 1]; }
    }
  }

  /** A line without line breaks, then `"\n"`, is split off as the first line. */
  lemma SplitLinesAfter(l: string, rest: string)
    requires NoLineBreak(l)
    ensures SplitLines(l + "\n" + rest) == [l] + SplitLines(rest)
  {
    var s := l + "\n" + rest;
    FirstLineBreakAfter(l, rest);
    assert s[|l|] == '\n';
    assert s[..|l|] == l;
    assert s[|l| + 1..] == rest;
  }

  /** `"\n".join(lines) + "\n"` splits back into `lines` when no line holds a line break. */
  lemma {:induction false} SplitLinesOfJoined(lines: seq<string>)
    requires |lines| >= 1
    requires forall k :: 0 <= k < |lines| ==> NoLineBreak(lines[k])
    ensures SplitLines(Join(lines, "\n") + "\n") == lines
    decreases |lines|
  {
    var l := lines[0];
    if |lines| == 1 {
      assert Join(lines, "\n") + "\n" == l + "\n" + [];
      SplitLinesAfter(l, []);
    } else {
      var rest := Join(lines[1..], "\n") + "\n";
      assert Join(lines, "\n") + "\n" == l + "\n" + rest;
      SplitLinesAfter(l, rest);
      SplitLinesOfJoined(lines[1..]);
    }
  }

  lemma NoLineBreakConcat(a: string, b: string)
    ensures NoLineBreak(a + b) <==> NoLineBreak(a) && NoLineBreak(b)
  {
    if NoLineBreak(a) && NoLineBreak(b) {
      forall k | 0 <= k < |a + b| ensures !IsLineBreak((a + b)[k]) {
        if k >= |a| {
          assert (a + b)[k] == b[k - |a|];
        }
      }
    }
    if NoLineBreak(a + b) {
      forall k | 0 <= k < |a| ensures !IsLineBreak(a[k]) {
        assert (a + b)[k] == a[k];
      }
      forall k | 0 <= k < |b| ensures !IsLineBreak(b[k]) {
        assert (a + b)[|a| + k] == b[k];
      }
    }
  }

  /** Joining lines without line breaks, with a separator without one, gives one line. */
  lemma {:induction false} JoinNoLineBreak(parts: seq<string>, sep: string)
    requires NoLineBreak(sep)
    requires forall k :: 0 <= k < |parts| ==> NoLineBreak(parts[k])
    ensures NoLineBreak(Join(parts, sep))
  {
    if |parts| > 1 {
      JoinNoLineBreak(parts[1..], sep);
      NoLineBreakConcat(parts[0], sep);
      NoLineBreakConcat(parts[0] + sep, Join(parts[1..], sep));
    }
  }

  // ---------------------------------------------------------------------------
  // Stripping

  /** The characters Python's `str.isspace()` accepts; `str.strip()` removes them. */
  predicate IsSpace(ch: char)
  {
    ch == ' ' || ch == '\t' || IsLineBreak(ch) || ch == '\U{1f}' || ch == '\U{a0}' || ch == '\U{1680}'
    || ('\U{2000}' <= ch <= '\U{200a}') || ch == '\U{202f}' || ch == '\U{205f}' || ch == '\U{3000}'
  }

  lemma DigitIsNotSpace(ch: char)
    requires IsDigit(ch)
    ensures !IsSpace(ch)
  {
  }

  function TrimStartSpace(s: string): string
  {
    if s != [] && IsSpace(s[0]) then TrimStartSpace(s[1..]) else s
  }

  function TrimEndSpace(s: string): string
  {
    if s != [] && IsSpace(s[|s| - 1]) then TrimEndSpace(s[..|s| - 1]) else s
  }

  /** Python's `s.strip()`: a contiguous piece of `s` with no whitespace at either end. */
  function Strip(s: string): string
  {
    TrimEndSpace(TrimStartSpace(s))
  }

  /** `lstrip()` leaves a suffix that does not begin with whitespace. */
  lemma {:induction false} TrimStartSpaceShape(s: string)
    ensures var r := TrimStartSpace(s); |r| <= |s| && s[|s| - |r|..] == r && (r == [] || !IsSpace(r[0]))
  {
    if s != [] && IsSpace(s[0]) {
      TrimStartSpaceShape(s[1..]);
      var r := TrimStartSpace(s);
      assert s[1..][|s| - 1 - |r|..] == s[|s| - |r|..];
    }
  }

  /** `rstrip()` leaves a prefix that does not end with whitespace. */
  lemma {:induction false} TrimEndSpaceShape(s: string)
    ensures var r := TrimEndSpace(s); r <= s && (r == [] || !IsSpace(r[|r| - 1]))
  {
    if s != [] && IsSpace(s[|s| - 1]) {
      TrimEndSpaceShape(s[..|s| - 1]);
    }
  }

  /** `strip()` leaves a piece of `s` with no whitespace at either end. */
  lemma StripShape(s: string)
    ensures var r := Strip(s); |r| <= |s| && (r == [] || (!IsSpace(r[0]) && !IsSpace(r[|r| - 1])))
  {
    var t := TrimStartSpace(s);
    TrimStartSpaceShape(s);
    TrimEndSpaceShape(t);
  }

  function TrimStartChar(s: string, c: char): string
  {
    if s != [] && s[0] == c then TrimStartChar(s[1..], c) else s
  }

  function TrimEndChar(s: string, c: char): string
  {
    if s != [] && s[|s| - 1] == c then TrimEndChar(s[..|s| - 1], c) else s
  }

  /** Python's `s.strip(c)` for one character `c`. */
  function StripChar(s: string, c: char): string
  {
    TrimEndChar(TrimStartChar(s, c), c)
  }

  /** `lstrip(c)` leaves a suffix that does not begin with `c`. */
  lemma {:induction false} TrimStartCharShape(s: string, c: char)
    ensures var r := TrimStartChar(s, c); |r| <= |s| && s[|s| - |r|..] == r && (r == [] || r[0] != c)
  {
    if s != [] && s[0] == c {
      TrimStartCharShape(s[1..], c);
      var r := TrimStartChar(s, c);
      assert s[1..][|s| - 1 - |r|..] == s[|s| - |r|..];
    }
  }

  /** `rstrip(c)` leaves a prefix that does not end with `c`. */
  lemma {:induction false} TrimEndCharShape(s: string, c: char)
    ensures var r := TrimEndChar(s, c); r <= s && (r == [] || r[|r| - 1] != c)
  {
    if s != [] && s[|s| - 1] == c {
      TrimEndCharShape(s[..|s| - 1], c);
    }
  }

  /** `strip(c)` leaves neither end equal to `c`. */
  lemma StripCharShape(s: string, c: char)
    ensures var r := StripChar(s, c); r == [] || (r[0] != c && r[|r| - 1] != c)
  {
    TrimStartCharShape(s, c);
    TrimEndCharShape(TrimStartChar(s, c), c);
  }

  /** Stripping keeps a character out that was not there. */
  lemma StripKeepsOut(s: string, c: char)
    requires c !in s
    ensures c !in Strip(s)
  {
    var t := TrimStartSpace(s);
    TrimStartSpaceShape(s);
    assert t == s[|s| - |t|..];
    var r := TrimEndSpace(t);
    TrimEndSpaceShape(t);
    assert r == t[..|r|];
  }

  /** Stripping one character keeps another out that was not there. */
  lemma StripCharKeepsOut(s: string, c: char, d: char)
    requires d !in s
    ensures d !in StripChar(s, c)
  {
    var t := TrimStartChar(s, c);
    TrimStartCharShape(s, c);
    assert t == s[|s| - |t|..];
    var r := TrimEndChar(t, c);
    TrimEndCharShape(t, c);
    assert r == t[..|r|];
  }

  lemma StripCharKeeps(s: string, c: char)
    requires s == [] || (s[0] != c && s[|s| - 1] != c)
    ensures StripChar(s, c) == s
  {
  }

  // ---------------------------------------------------------------------------
  // Integers as text

  predicate IsDigit(ch: char)
  {
    '0' <= ch <= '9'
  }

  predicate AllDigits(s: string)
  {
    forall k :: 0 <= k < |s| ==> IsDigit(s[k])
  }

  function DigitChar(d: nat): (ch: char)
    requires d < 10
    ensures IsDigit(ch) && ch as int - '0' as int == d
  {
    (d + '0' as int) as char
  }

  function DigitValue(ch: char): (d: nat)
    requires IsDigit(ch)
    ensures d < 10 && DigitChar(d) == ch
  {
    ch as int - '0' as int
  }

  /** The decimal numeral of `n`, without leading zeros. */
  function DigitString(n: nat): (s: string)
    ensures |s| >= 1 && AllDigits(s)
    ensures n >= 10 ==> s[0] != '0'
  {
    if n < 10 then [DigitChar(n)] else DigitString(n / 10) + [DigitChar(n % 10)]
  }

  /** The value of a string of decimal digits (leading zeros allowed). */
  function DigitsValue(s: string): nat
    requires AllDigits(s)
  {
    if s == [] then 0 else 10 * DigitsValue(s[..|s| - 1]) + DigitValue(s[|s| - 1])
  }

  lemma {:induction false} DigitsValueOfDigitString(n: nat)
    ensures DigitsValue(DigitString(n)) == n
  {
    if n >= 10 {
      var s := DigitString(n);
      assert s[..|s| - 1] == DigitString(n / 10);
      DigitsValueOfDigitString(n / 10);
    }
  }

  /** Python's `str(i)`. */
  function IntToString(i: int): string
  {
    if i < 0 then "-" + DigitString(-i) else DigitString(i)
  }

  lemma IntToStringNoLineBreak(i: int)
    ensures NoLineBreak(IntToString(i))
  {
    var d := DigitString(if i < 0 then -i else i);
    assert forall k :: 0 <= k < |d| ==> IsDigit(d[k]);
    NoLineBreakConcat("-", d);
  }

  /** Python's `f"{i:02d}"`: at least two characters, zeros after the sign. */
  function Pad2(i: int): string
  {
    if 0 <= i < 10 then "0" + DigitString(i) else IntToString(i)
  }

  /** Below 100 the numeral is two digits, the tens then the units; from 100 on it is the plain
      numeral, and a negative number is its sign and its magnitude unpadded. */
  lemma Pad2Shape(i: int)
    ensures var s := Pad2(i);
      (0 <= i < 100 ==> |s| == 2 && AllDigits(s) && s == [DigitChar(i / 10), DigitChar(i % 10)])
      && (i >= 100 ==> s == DigitString(i))
      && (i < 0 ==> s == "-" + DigitString(-i))
  {
    assert 10 <= i < 100 ==> DigitString(i) == [DigitChar(i / 10), DigitChar(i % 10)];
  }

  /** A non-negative padded numeral holds only digits, so no other character. */
  lemma Pad2FreeOf(n: nat, c: char)
    requires !IsDigit(c)
    ensures c !in Pad2(n)
  {
    var s := Pad2(n);
    Pad2Shape(n);
    assert AllDigits(s) by {
      if n >= 10 { assert s == DigitString(n); }
    }
    forall k | 0 <= k < |s| ensures s[k] != c {
      assert IsDigit(s[k]);
    }
  }

  /** Python's `int(s)` on a string: surrounding whitespace, one optional sign, one or more
      decimal digits. `None` stands for the ValueError. */
  function ParseInt(s: string): Option<int>
  {
    ParseSigned(Strip(s))
  }

  /** A numeral with an optional sign and no surrounding whitespace. */
  function ParseSigned(t: string): Option<int>
  {
    if t != [] && (t[0] == '-' || t[0] == '+') then
      match ParseUnsigned(t[1..])
      case None => None
      case Some(v) => Some(if t[0] == '-' then -v else v)
    else ParseUnsigned(t)
  }

  function ParseUnsigned(t: string): Option<int>
  {
    if t != [] && AllDigits(t) then Some(DigitsValue(t)) else None
  }

  lemma StripNoSpace(s: string)
    requires forall k :: 0 <= k < |s| ==> !IsSpace(s[k])
    ensures Strip(s) == s
  {
  }

  lemma DigitsHaveNoSpace(s: string)
    requires AllDigits(s)
    ensures Strip(s) == s
  {
    forall k | 0 <= k < |s| ensures !IsSpace(s[k]) { DigitIsNotSpace(s[k]); }
    StripNoSpace(s);
  }

  lemma ParseIntOfDigits(d: string)
    requires d != [] && AllDigits(d)
    ensures ParseInt(d) == Some(DigitsValue(d))
  {
    DigitsHaveNoSpace(d);
    assert IsDigit(d[0]);
    assert ParseSigned(d) == ParseUnsigned(d);
  }

  /** `int(str(n)) == n` for every non-negative `n`. */
  lemma ParseIntToString(n: nat)
    ensures ParseInt(IntToString(n)) == Some(n)
  {
    DigitsValueOfDigitString(n);
    ParseIntOfDigits(DigitString(n));
  }

  /** `int(f"{i:02d}") == i` for every non-negative `i`. */
  lemma ParseIntPad2(i: nat)
    ensures ParseInt(Pad2(i)) == Some(i)
  {
    if 0 <= i < 10 {
      var s := Pad2(i);
      Pad2Shape(i);
      assert s[..1] == "0";
      assert DigitsValue("0") == 0 by { assert "0"[..0] == []; }
      assert DigitsValue(s) == i;
      ParseIntOfDigits(s);
    } else {
      ParseIntToString(i);
    }
  }

  /** `a, b = map(int, s.split(sep))`: exactly two fields, both integers. `None` stands for
      the ValueError that a wrong field count or a bad numeral raises. */
  function ParseIntPair(s: string, sep: char): (r: Option<(int, int)>)
    ensures r.Some? <==>
      |Split(s, sep)| == 2 && ParseInt(Split(s, sep)[0]).Some? && ParseInt(Split(s, sep)[1]).Some?
    ensures r.Some? ==>
      ParseInt(Split(s, sep)[0]) == Some(r.value.0) && ParseInt(Split(s, sep)[1]) == Some(r.value.1)
  {
    var fields := Split(s, sep);
    if |fields| != 2 then None
    else match (ParseInt(fields[0]), ParseInt(fields[1]))
      case (Some(a), Some(b)) => Some((a, b))
      case _ => None
  }

  /** Two numerals joined by a separator that neither contains read back as their values. */
  lemma ParseIntPairOfJoined(x: string, y: string, sep: char, a: int, b: int)
    requires sep !in x && sep !in y
    requires ParseInt(x) == Some(a) && ParseInt(y) == Some(b)
    ensures ParseIntPair(x + [sep] + y, sep) == Some((a, b))
  {
    assert x + [sep] + y == Join([x, y], [sep]);
    SplitJoin([x, y], sep);
  }

  /** `f"{h:02d}:{m:02d}"` of non-negative values parses back to `(h, m)`. */
  lemma ParseIntPairOfPadded(h: nat, m: nat)
    ensures ParseIntPair(Pad2(h) + ":" + Pad2(m), ':') == Some((h, m))
  {
    ParseIntPad2(h);
    ParseIntPad2(m);
    Pad2FreeOf(h, ':');
    Pad2FreeOf(m, ':');
    ParseIntPairOfJoined(Pad2(h), Pad2(m), ':', h, m);
  }
}
