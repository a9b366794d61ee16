/**
 * The Python `str` and slice operations the pipeline is written with, as
 * functions on `seq<char>`. Characters are Unicode scalar values, as
 * Python's code points are for the text this system handles.
 */
module PyStr {

  /** The characters for which Python's `str.isspace()` holds: what `str.strip()` removes. */
  predicate SpaceChar(c: char) {
    || c == ' '
    || ('\t' <= c <= '\r')
    || ('\U{1c}' <= c <= '\U{1f}')
    || c == '\U{85}' || c == '\U{a0}' || c == '\U{1680}'
    || ('\U{2000}' <= c <= '\U{200a}')
    || c == '\U{2028}' || c == '\U{2029}' || c == '\U{202f}' || c == '\U{205f}' || c == '\U{3000}'
  }

  /**
   * `c.isspace()`. It is reached through a few layers of `SpaceLayer` so that
   * the verifier treats it as a plain fact about `c` in the many proofs that
   * never look at which characters count as space; IsSpaceChars opens it, and
   * for a literal character it evaluates outright.
   */
  predicate IsSpace(c: char) {
    SpaceLayer(c, 3)
  }

  predicate SpaceLayer(c: char, n: nat)
    decreases n
  {
    if n == 0 then SpaceChar(c) else SpaceLayer(c, n - 1)
  }

  lemma {:induction false} IsSpaceChars(c: char)
    ensures IsSpace(c) <==> SpaceChar(c)
  {
    assert SpaceLayer(c, 3) == SpaceLayer(c, 2) == SpaceLayer(c, 1) == SpaceLayer(c, 0);
  }

  predicate AllSpace(s: string) {
    forall i :: 0 <= i < |s| ==> IsSpace(s[i])
  }

  /** A string with no surrounding white space, i.e. one that `str.strip()` leaves alone. */
  predicate Trimmed(s: string) {
    s == [] || (!IsSpace(s[0]) && !IsSpace(s[|s| - 1]))
  }

  /** `s.lstrip()`: the longest suffix of `s` that does not start with white space. */
  function LStrip(s: string): (r: string)
    ensures |r| <= |s|
    ensures AllSpace(s[..|s| - |r|])
    ensures r == [] || !IsSpace(r[0])
  {
    if |s| > 0 && IsSpace(s[0]) then LStrip(s[1..]) else s
  }

  /** What `lstrip` keeps is a suffix of its argument. */
  lemma {:induction false} LStripSuffix(s: string)
    ensures LStrip(s) == s[|s| - |LStrip(s)|..]
  {
    if |s| > 0 && IsSpace(s[0]) {
      LStripSuffix(s[1..]);
      assert s[1..][|s| - 1 - |LStrip(s)|..] == s[|s| - |LStrip(s)|..];
    }
  }

  /** `s.rstrip()`: the longest prefix of `s` that does not end with white space. */
  function RStrip(s: string): (r: string)
    ensures |r| <= |s|
    ensures AllSpace(s[|r|..])
    ensures r == [] || !IsSpace(r[|r| - 1])
  {
    if |s| > 0 && IsSpace(s[|s| - 1]) then RStrip(s[..|s| - 1]) else s
  }

  /** What `rstrip` keeps is a prefix of its argument. */
  lemma {:induction false} RStripPrefix(s: string)
    ensures RStrip(s) == s[..|RStrip(s)|]
  {
    if |s| > 0 && IsSpace(s[|s| - 1]) {
      RStripPrefix(s[..|s| - 1]);
    }
  }

  /** `s.strip()` */
  function Strip(s: string): (r: string)
    ensures |r| <= |s|
    ensures Trimmed(r)
  {
    RStripPrefix(LStrip(s));
    RStrip(LStrip(s))
  }

  /** `s.rstrip(c)` for a one-character argument: the longest prefix not ending in `c`. */
  function RStripChar(s: string, c: char): (r: string)
    ensures |r| <= |s| && r == s[..|r|]
    ensures forall i :: |r| <= i < |s| ==> s[i] == c
    ensures r == [] || r[|r| - 1] != c
  {
    if |s| > 0 && s[|s| - 1] == c then RStripChar(s[..|s| - 1], c) else s
  }

  predicate StartsWith(s: string, p: string) {
    |p| <= |s| && s[..|p|] == p
  }

  predicate EndsWith(s: string, p: string) {
    |p| <= |s| && s[|s| - |p|..] == p
  }

  /** `pat` occurs in `s` starting at index `i`. */
  predicate OccursAt(s: string, pat: string, i: int) {
    0 <= i && i + |pat| <= |s| && s[i..i + |pat|] == pat
  }

  predicate Contains(s: string, pat: string) {
    exists i :: 0 <= i <= |s| && OccursAt(s, pat, i)
  }

  /**
   * `s.replace(pat, rep)`: every occurrence of `pat`, scanning left to right
   * without overlap, replaced by `rep`.
   */
  function ReplaceAll(s: string, pat: string, rep: string): string
    requires |pat| > 0
    decreases |s|
  {
    if |s| < |pat| then s
    else if s[..|pat|] == pat then rep + ReplaceAll(s[|pat|..], pat, rep)
    else [s[0]] + ReplaceAll(s[1..], pat, rep)
  }

  /** `s.find(c)` for a one-character argument: the first index of `c`, or -1. */
  function FindChar(s: string, c: char): (r: int)
    ensures -1 <= r < |s|
    ensures r == -1 <==> c !in s
    ensures r >= 0 ==> s[r] == c && c !in s[..r]
  {
    if s == [] then -1
    else if s[0] == c then 0
    else
      var k := FindChar(s[1..], c);
      if k == -1 then -1
      else
        assert s[..k + 1] == [s[0]] + s[1..][..k];
        k + 1
  }

  /** `s.rfind(c)` for a one-character argument: the last index of `c`, or -1. */
  function RFindChar(s: string, c: char): (r: int)
    ensures -1 <= r < |s|
    ensures r == -1 <==> c !in s
    ensures r >= 0 ==> s[r] == c && c !in s[r + 1..]
  {
    if s == [] then -1
    else if s[|s| - 1] == c then |s| - 1
    else
      var k := RFindChar(s[..|s| - 1], c);
      if k == -1 then -1
      else
        RFindLater(s, c, k);
        k
  }

  /** No `c` after index `k` of `s[..|s| - 1]` and none at the end: none after `k` in `s`. */
  lemma {:induction false} RFindLater(s: string, c: char, k: nat)
    requires k < |s| - 1 && s[|s| - 1] != c && c !in s[..|s| - 1][k + 1..]
    ensures c !in s[k + 1..]
  {
    assert s[k + 1..] == s[..|s| - 1][k + 1..] + [s[|s| - 1]];
  }

  /** `s.split(sep)[0]`: what comes before the first occurrence of `sep`, or all of `s`. */
  function SplitHead(s: string, sep: string): (r: string)
    requires |sep| > 0
    ensures |r| <= |s| && forall i :: 0 <= i < |r| ==> r[i] == s[i]
    ensures forall i :: 0 <= i < |r| ==> !OccursAt(s, sep, i)
    ensures |r| < |s| ==> OccursAt(s, sep, |r|)
  {
    if OccursAt(s, sep, 0) then []
    else if s == [] then []
    else
      var t := SplitHead(s[1..], sep);
      SplitHeadStep(s, sep, t);
      [s[0]] + t
  }

  /** The head of `s[1..]`, with `s[0]` put back in front, is the head of `s`. */
  lemma {:induction false} SplitHeadStep(s: string, sep: string, t: string)
    requires s != [] && !OccursAt(s, sep, 0)
    requires |t| <= |s| - 1 && forall i :: 0 <= i < |t| ==> t[i] == s[1..][i]
    requires forall i :: 0 <= i < |t| ==> !OccursAt(s[1..], sep, i)
    requires |t| < |s| - 1 ==> OccursAt(s[1..], sep, |t|)
    ensures var r := [s[0]] + t;
      && |r| <= |s| && (forall i :: 0 <= i < |r| ==> r[i] == s[i])
      && (forall i :: 0 <= i < |r| ==> !OccursAt(s, sep, i))
      && (|r| < |s| ==> OccursAt(s, sep, |r|))
  {
    forall i | 1 <= i <= |t| + 1 ensures OccursAt(s, sep, i) <==> OccursAt(s[1..], sep, i - 1) {
      OccursShift(s, sep, i - 1, 1);
    }
  }

  /** `(a + c + b).split(c)[0] == a` when `a` has no `c`. */
  lemma {:induction false} SplitHeadAt(a: string, c: char, b: string)
    requires c !in a
    ensures SplitHead(a + [c] + b, [c]) == a
  {
    var t := a + [c] + b;
    var r := SplitHead(t, [c]);
    assert OccursAt(t, [c], |a|) by {
      assert t[|a|..|a| + 1] == [c];
    }
    forall i | 0 <= i < |a| ensures !OccursAt(t, [c], i) {
      OccursAtChar(t, [c], i, 0);
      assert t[i] == a[i];
    }
    assert t[..|a|] == a;
  }

  /** `a.split(c)[0] == a` when `a` has no `c`. */
  lemma {:induction false} SplitHeadAbsent(a: string, c: char)
    requires c !in a
    ensures SplitHead(a, [c]) == a
  {
    forall i | 0 <= i < |a| ensures !OccursAt(a, [c], i) {
      OccursAtChar(a, [c], i, 0);
    }
  }

  /** `s.split(c, 1)[-1]`: what follows the first `c`, or all of `s` when there is none. */
  function AfterFirst(s: string, c: char): (r: string)
    ensures c !in s ==> r == s
    ensures c in s ==> exists i :: 0 <= i < |s| && s[i] == c && c !in s[..i] && r == s[i + 1..]
  {
    var i := FindChar(s, c);
    if i < 0 then s else s[i + 1..]
  }

  /** `s.rsplit(c, 1)[0]`: what precedes the last `c`, or all of `s` when there is none. */
  function BeforeLast(s: string, c: char): (r: string)
    ensures c !in s ==> r == s
    ensures c in s ==> exists i :: 0 <= i < |s| && s[i] == c && c !in s[i + 1..] && r == s[..i]
  {
    var i := RFindChar(s, c);
    if i < 0 then s else s[..i]
  }

  /** Cutting after the first newline of `a + "\n" + b`, where `a` has none. */
  lemma {:induction false} AfterFirstAt(a: string, b: string)
    requires '\n' !in a
    ensures AfterFirst(a + ("\n" + b), '\n') == b
  {
    var t := a + ("\n" + b);
    assert t[|a|] == '\n' && t[..|a|] == a;
    var i := FindChar(t, '\n');
    assert forall k :: 0 <= k < |a| ==> t[k] == a[k];
    assert t[|a| + 1..] == b;
  }

  /** Cutting before the last newline of `a + "\n" + b`, where `b` has none. */
  lemma {:induction false} BeforeLastAt(a: string, b: string)
    requires '\n' !in b
    ensures BeforeLast((a + "\n") + b, '\n') == a
  {
    var t := (a + "\n") + b;
    assert t[|a|] == '\n' && t[|a| + 1..] == b;
    var j := RFindChar(t, '\n');
    assert forall k :: |a| < k < |t| ==> t[k] == b[k - |a| - 1];
    assert t[..|a|] == a;
  }

  // ----- decimal numbers -----

  predicate IsDigit(c: char) {
    '0' <= c <= '9'
  }

  /** `s.isdigit()`, for ASCII text: non-empty and made of digits only. */
  predicate IsDigits(s: string) {
    |s| > 0 && forall i :: 0 <= i < |s| ==> IsDigit(s[i])
  }

  function DigitChar(d: nat): (c: char)
    requires d < 10
    ensures IsDigit(c) && c as int - '0' as int == d
  {
    ('0' as int + d) as char
  }

  /** `str(n)` for a non-negative integer: its decimal digits, no leading zero. */
  function NatToString(n: nat): (r: string)
    ensures IsDigits(r)
    ensures r[0] == '0' ==> n == 0
  {
    if n < 10 then [DigitChar(n)] else NatToString(n / 10) + [DigitChar(n % 10)]
  }

  /** `int(s)` for a string of ASCII digits. */
  function ParseDigits(s: string): nat
    requires forall i :: 0 <= i < |s| ==> IsDigit(s[i])
  {
    if s == [] then 0
    else
      assert IsDigit(s[|s| - 1]);
      ParseDigits(s[..|s| - 1]) * 10 + (s[|s| - 1] as int - '0' as int)
  }

  /** `int(str(n)) == n` */
  lemma {:induction false} ParseNatToString(n: nat)
    ensures ParseDigits(NatToString(n)) == n
  {
    if n >= 10 {
      var s := NatToString(n);
      assert s[..|s| - 1] == NatToString(n / 10);
      ParseNatToString(n / 10);
    }
  }

  /** Distinct numbers render to distinct strings. */
  lemma {:induction false} NatToStringInjective(m: nat, n: nat)
    requires NatToString(m) == NatToString(n)
    ensures m == n
  {
    ParseNatToString(m);
    ParseNatToString(n);
  }

  // ----- Python slicing -----

  /** How Python resolves a slice bound `i` against a sequence of length `n`. */
  function PyIndex(i: int, n: nat): (r: nat)
    ensures r <= n
    ensures 0 <= i <= n ==> r == i
    ensures i > n ==> r == n
  {
    if i < 0 then (if i + n < 0 then 0 else i + n) else if i > n then n else i
  }

  /** `s[a:b]` */
  function Slice<T>(s: seq<T>, a: int, b: int): (r: seq<T>)
    ensures |r| <= |s|
  {
    var lo, hi := PyIndex(a, |s|), PyIndex(b, |s|);
    if lo < hi then s[lo..hi] else []
  }

  /** `s[:n]` */
  function Take<T>(s: seq<T>, n: int): (r: seq<T>)
    ensures |r| <= |s| && r == s[..|r|]
    ensures 0 <= n ==> |r| == if n < |s| then n else |s|
    ensures n < 0 ==> |r| == if |s| + n < 0 then 0 else |s| + n
  {
    if n >= |s| then s
    else if n >= 0 then s[..n]
    else if |s| + n < 0 then []
    else s[..|s| + n]
  }

  // ----- lemmas about occurrences and ReplaceAll -----

  /** Occurrences in a suffix are occurrences in the whole string, shifted. */
  lemma {:induction false} OccursShift(s: string, pat: string, i: int, n: int)
    requires 0 <= n <= |s| && 0 <= i
    ensures OccursAt(s[n..], pat, i) <==> OccursAt(s, pat, i + n)
  {
    if i + n + |pat| <= |s| {
      assert s[n..][i..i + |pat|] == s[i + n..i + n + |pat|];
    }
  }

  /** An occurrence fixes the characters it covers. */
  lemma {:induction false} OccursAtChar(s: string, pat: string, i: int, k: int)
    ensures OccursAt(s, pat, i) && 0 <= k < |pat| ==> s[i + k] == pat[k]
  {
    if OccursAt(s, pat, i) && 0 <= k < |pat| {
      assert s[i..i + |pat|][k] == s[i + k];
    }
  }

  /** One step of the left-to-right scan when `s` does not start with `pat`. */
  lemma {:induction false} ReplaceStep(s: string, pat: string, rep: string)
    requires |pat| > 0 && |s| > 0 && !OccursAt(s, pat, 0)
    ensures ReplaceAll(s, pat, rep) == [s[0]] + ReplaceAll(s[1..], pat, rep)
  {
    if |s| < |pat| {
      assert ReplaceAll(s[1..], pat, rep) == s[1..];
    }
  }

  /** Replacing leaves a string without occurrences alone. */
  lemma {:induction false} ReplaceAbsent(s: string, pat: string, rep: string)
    requires |pat| > 0
    requires forall i :: 0 <= i < |s| ==> !OccursAt(s, pat, i)
    ensures ReplaceAll(s, pat, rep) == s
    decreases |s|
  {
    if |s| > 0 {
      ReplaceStep(s, pat, rep);
      forall i | 0 <= i < |s[1..]| ensures !OccursAt(s[1..], pat, i) {
        OccursShift(s, pat, i, 1);
      }
      ReplaceAbsent(s[1..], pat, rep);
    }
  }

  /** No occurrence of `pat` in `s + t` begins inside `s` and ends inside `t`. */
  predicate NoStraddle(s: string, t: string, pat: string) {
    forall i :: 0 <= i < |s| < i + |pat| ==> !OccursAt(s + t, pat, i)
  }

  lemma {:induction false} NoStraddleDrop(s: string, t: string, pat: string, n: nat)
    requires n <= |s| && NoStraddle(s, t, pat)
    ensures NoStraddle(s[n..], t, pat)
  {
    assert (s + t)[n..] == s[n..] + t;
    forall i | 0 <= i < |s[n..]| < i + |pat| ensures !OccursAt(s[n..] + t, pat, i) {
      OccursShift(s + t, pat, i, n);
    }
  }

  /** Replacing distributes over a concatenation that no occurrence straddles. */
  lemma {:induction false} ReplaceConcat(s: string, t: string, pat: string, rep: string)
    requires |pat| > 0
    requires NoStraddle(s, t, pat)
    ensures ReplaceAll(s + t, pat, rep) == ReplaceAll(s, pat, rep) + ReplaceAll(t, pat, rep)
    decreases |s|
  {
    if s == [] {
      assert s + t == t;
    } else if OccursAt(s + t, pat, 0) {
      assert |pat| <= |s|;
      NoStraddleDrop(s, t, pat, |pat|);
      ReplaceConcat(s[|pat|..], t, pat, rep);
      ReplaceConcatHit(s, t, pat, rep);
    } else {
      NoStraddleDrop(s, t, pat, 1);
      ReplaceConcat(s[1..], t, pat, rep);
      ReplaceConcatMiss(s, t, pat, rep);
    }
  }

  /** The inductive step of `ReplaceConcat` when `s` starts with `pat`. */
  lemma {:induction false} ReplaceConcatHit(s: string, t: string, pat: string, rep: string)
    requires 0 < |pat| <= |s| && OccursAt(s + t, pat, 0)
    requires ReplaceAll(s[|pat|..] + t, pat, rep) == ReplaceAll(s[|pat|..], pat, rep) + ReplaceAll(t, pat, rep)
    ensures ReplaceAll(s + t, pat, rep) == ReplaceAll(s, pat, rep) + ReplaceAll(t, pat, rep)
  {
    assert (s + t)[..|pat|] == s[..|pat|];
    assert (s + t)[|pat|..] == s[|pat|..] + t;
    assert ReplaceAll(s + t, pat, rep) == rep + (ReplaceAll(s[|pat|..], pat, rep) + ReplaceAll(t, pat, rep));
  }

  /** The inductive step of `ReplaceConcat` when `s + t` does not start with `pat`. */
  lemma {:induction false} ReplaceConcatMiss(s: string, t: string, pat: string, rep: string)
    requires 0 < |pat| && s != [] && !OccursAt(s + t, pat, 0)
    requires ReplaceAll(s[1..] + t, pat, rep) == ReplaceAll(s[1..], pat, rep) + ReplaceAll(t, pat, rep)
    ensures ReplaceAll(s + t, pat, rep) == ReplaceAll(s, pat, rep) + ReplaceAll(t, pat, rep)
  {
    OccursInPrefix(s, t, pat);
    ReplaceStepConcat(s, t, pat, rep);
    ReplaceStep(s, pat, rep);
    var a, b := ReplaceAll(s[1..], pat, rep), ReplaceAll(t, pat, rep);
    assert [s[0]] + (a + b) == ([s[0]] + a) + b;
  }

  /** `ReplaceStep` for `s + t`, with the rest written as `s[1..] + t`. */
  lemma {:induction false} ReplaceStepConcat(s: string, t: string, pat: string, rep: string)
    requires 0 < |pat| && s != [] && !OccursAt(s + t, pat, 0)
    ensures ReplaceAll(s + t, pat, rep) == [s[0]] + ReplaceAll(s[1..] + t, pat, rep)
  {
    ReplaceStep(s + t, pat, rep);
    assert (s + t)[1..] == s[1..] + t;
  }

  /** An occurrence at the start of `s` is one at the start of `s + t`. */
  lemma {:induction false} OccursInPrefix(s: string, t: string, pat: string)
    ensures OccursAt(s, pat, 0) ==> OccursAt(s + t, pat, 0)
  {
    if |pat| <= |s| {
      assert (s + t)[..|pat|] == s[..|pat|];
    }
  }

  /** Deleting occurrences never lengthens a string, and changes it only by shortening it. */
  lemma {:induction false} DeleteShrinks(s: string, pat: string)
    requires |pat| > 0
    ensures |ReplaceAll(s, pat, "")| <= |s|
    ensures |ReplaceAll(s, pat, "")| == |s| ==> ReplaceAll(s, pat, "") == s
    decreases |s|
  {
    if |s| >= |pat| {
      if s[..|pat|] == pat {
        DeleteShrinks(s[|pat|..], pat);
      } else {
        DeleteShrinks(s[1..], pat);
      }
    }
  }

  /** Deleting occurrences of a pattern keeps the last character when the pattern cannot end there. */
  lemma {:induction false} DeleteKeepsLast(s: string, pat: string)
    requires |pat| > 0 && |s| > 0 && s[|s| - 1] != pat[|pat| - 1]
    ensures var r := ReplaceAll(s, pat, ""); |r| > 0 && r[|r| - 1] == s[|s| - 1]
    decreases |s|
  {
    if |s| >= |pat| {
      if s[..|pat|] == pat {
        assert s[|pat| - 1] == pat[|pat| - 1];
        DeleteKeepsLast(s[|pat|..], pat);
      } else if |s| > 1 {
        DeleteKeepsLast(s[1..], pat);
      }
    }
  }

  /** Replacing one character by one character works position by position. */
  lemma {:induction false} ReplaceCharAt(s: string, a: char, b: char)
    ensures |ReplaceAll(s, [a], [b])| == |s|
    ensures forall i :: 0 <= i < |s| ==> ReplaceAll(s, [a], [b])[i] == if s[i] == a then b else s[i]
    decreases |s|
  {
    if |s| > 0 {
      ReplaceCharAt(s[1..], a, b);
    }
  }

  // ----- lemmas about strip -----

  lemma {:induction false} LStripSkipsSpace(w: string, s: string)
    requires AllSpace(w)
    ensures LStrip(w + s) == LStrip(s)
    decreases |w|
  {
    if w != [] {
      assert (w + s)[1..] == w[1..] + s;
      LStripSkipsSpace(w[1..], s);
    } else {
      assert w + s == s;
    }
  }

  lemma {:induction false} RStripSkipsSpace(s: string, w: string)
    requires AllSpace(w)
    ensures RStrip(s + w) == RStrip(s)
    decreases |w|
  {
    if w != [] {
      assert (s + w)[..|s + w| - 1] == s + w[..|w| - 1];
      RStripSkipsSpace(s, w[..|w| - 1]);
    } else {
      assert s + w == s;
    }
  }

  /** A string that starts with a non-space character is its own `lstrip()`. */
  lemma {:induction false} LStripNonSpace(s: string)
    requires s != [] && !IsSpace(s[0])
    ensures LStrip(s) == s
  {
  }

  /** A string that ends with a non-space character is its own `rstrip()`. */
  lemma {:induction false} RStripNonSpace(s: string)
    requires s != [] && !IsSpace(s[|s| - 1])
    ensures RStrip(s) == s
  {
  }

  lemma {:induction false} LStripAppend(s: string, b: string)
    requires LStrip(s) != []
    ensures LStrip(s + b) == LStrip(s) + b
    decreases |s|
  {
    if IsSpace(s[0]) {
      assert (s + b)[1..] == s[1..] + b;
      LStripAppend(s[1..], b);
    }
  }

  lemma {:induction false} AllSpaceStripsAway(w: string)
    requires AllSpace(w)
    ensures LStrip(w) == [] && Strip(w) == []
  {
    LStripSkipsSpace(w, []);
    assert w + [] == w;
  }

  /** Surrounding white space does not change what `strip()` returns. */
  lemma {:induction false} StripPadding(a: string, s: string, b: string)
    requires AllSpace(a) && AllSpace(b)
    ensures Strip(a + s + b) == Strip(s)
  {
    assert a + s + b == a + (s + b);
    LStripSkipsSpace(a, s + b);
    var l := LStrip(s);
    if l == [] {
      assert AllSpace(s + b) by {
        assert s[..|s|] == s;
      }
      AllSpaceStripsAway(s + b);
    } else {
      LStripAppend(s, b);
      RStripSkipsSpace(l, b);
    }
  }

  /** The first `c` of `pre + rest` is the head of `rest` when `pre` holds none. */
  lemma {:induction false} FindCharAfter(pre: string, rest: string, c: char)
    requires c !in pre && rest != [] && rest[0] == c
    ensures FindChar(pre + rest, c) == |pre|
  {
    var t := pre + rest;
    var r := FindChar(t, c);
    assert t[|pre|] == c;
    assert forall i :: 0 <= i < |pre| ==> t[i] == pre[i];
    assert r >= |pre|;
    assert t[..r + 1][|pre|] == c;
  }

  /** The last `c` of `rest + post` is the end of `rest` when `post` holds none. */
  lemma {:induction false} RFindCharBefore(rest: string, post: string, c: char)
    requires c !in post && rest != [] && rest[|rest| - 1] == c
    ensures RFindChar(rest + post, c) == |rest| - 1
  {
    var t := rest + post;
    var r := RFindChar(t, c);
    assert t[|rest| - 1] == c;
    assert forall i :: |rest| <= i < |t| ==> t[i] == post[i - |rest|];
    assert r <= |rest| - 1;
    assert t[r..][|rest| - 1 - r] == c;
  }

  lemma {:induction false} StripTrimmed(s: string)
    requires Trimmed(s)
    ensures Strip(s) == s
  {
  }
}
