/** The Python `str` operations that the validator and the fence cleaner rely on:
    `in`, `find`, `split`, `join`, `strip`, `isspace`, the regular-expression
    classes `\s` and `\w`, and `str(n)` for a natural number. */
module Text {

  datatype Option<+T> = None | Some(value: T)

  /** `p` occurs in `s` starting at index `i`. */
  predicate OccursAt(s: string, p: string, i: nat) {
    i + |p| <= |s| && s[i..i + |p|] == p
  }

  /** Python's `p in s`. */
  predicate Contains(s: string, p: string) {
    exists i: nat | i <= |s| :: OccursAt(s, p, i)
  }

  /** Python's `s.find(p, k)`: the first occurrence of `p` at or after `k`. */
  function FindFrom(s: string, p: string, k: nat): (r: Option<nat>)
    decreases |s| - k
    ensures r.Some? ==> k <= r.value && OccursAt(s, p, r.value)
    ensures r.Some? ==> forall j: nat :: k <= j < r.value ==> !OccursAt(s, p, j)
    ensures r.None? ==> forall j: nat :: k <= j ==> !OccursAt(s, p, j)
  {
    if |s| < k + |p| then None
    else if OccursAt(s, p, k) then Some(k)
    else FindFrom(s, p, k + 1)
  }

  /** Python's `s.find(p)`. */
  function Find(s: string, p: string): (r: Option<nat>)
    ensures r.Some? <==> Contains(s, p)
    ensures r.Some? ==> OccursAt(s, p, r.value) && forall j: nat :: j < r.value ==> !OccursAt(s, p, j)
  {
    FindFrom(s, p, 0)
  }

  /** Python's `sep.join(parts)`. */
  function Join(parts: seq<string>, sep: string): (r: string)
  {
    if |parts| == 0 then ""
    else if |parts| == 1 then parts[0]
    else parts[0] + sep + Join(parts[1..], sep)
  }

  /** Python's `s.split(sep)` for a non-empty separator: the pieces between
      the non-overlapping occurrences of `sep`, scanned left to right. */
  function Split(s: string, sep: string): (parts: seq<string>)
    requires |sep| > 0
    decreases |s|
    ensures |parts| >= 1
    ensures |parts| >= 2 <==> Contains(s, sep)
  {
    match Find(s, sep)
    case None => [s]
    case Some(i) => [s[..i]] + Split(s[i + |sep|..], sep)
  }

  /** The text before the first occurrence of `sep`, or all of it: `s.split(sep)[0]`. */
  function Before(s: string, sep: string): (r: string)
    ensures |r| <= |s| && r == s[..|r|]
  {
    match Find(s, sep)
    case None => s
    case Some(i) => s[..i]
  }

  /** The text after the first occurrence of `sep`. */
  function After(s: string, sep: string): (r: string)
    requires Contains(s, sep)
    ensures |r| <= |s| - |sep| && r == s[|s| - |r|..]
  {
    s[Find(s, sep).value + |sep|..]
  }

  // ---------------------------------------------------------------------------
  // Occurrences inside slices and concatenations

  /** An occurrence inside a slice is an occurrence in the whole text. */
  lemma OccursInSlice(s: string, a: nat, b: nat, p: string, j: nat)
    requires a <= b <= |s| && OccursAt(s[a..b], p, j)
    ensures OccursAt(s, p, a + j)
  {
    var q := s[a..b];
    forall t | 0 <= t < |p| ensures s[a + j + t] == p[t] {
      assert q[j..j + |p|][t] == q[j + t] == s[a + j + t];
    }
    assert s[a + j..a + j + |p|] == p;
  }

  /** A slice of `s` that contains `p` means `s` contains `p`. */
  lemma ContainsSlice(s: string, a: nat, b: nat, p: string)
    requires a <= b <= |s| && Contains(s[a..b], p)
    ensures Contains(s, p)
  {
    var j: nat :| j <= b - a && OccursAt(s[a..b], p, j);
    OccursInSlice(s, a, b, p, j);
  }

  /** Containment is transitive. */
  lemma ContainsTrans(s: string, t: string, p: string)
    requires Contains(s, t) && Contains(t, p)
    ensures Contains(s, p)
  {
    var i: nat :| i <= |s| && OccursAt(s, t, i);
    assert s[i..i + |t|] == t;
    ContainsSlice(s, i, i + |t|, p);
  }

  /** An occurrence lying wholly inside `s[a..b]` is an occurrence in the slice. */
  lemma OccursInWindow(s: string, a: nat, b: nat, p: string, j: nat)
    requires a <= j && j + |p| <= b <= |s| && OccursAt(s, p, j)
    ensures OccursAt(s[a..b], p, j - a)
  {
    var q := s[a..b];
    forall t | 0 <= t < |p| ensures q[j - a + t] == p[t] {
      assert s[j..j + |p|][t] == s[j + t] == q[j - a + t];
    }
    assert q[j - a..j - a + |p|] == p;
  }

  /** A text contains every one of its pieces placed between two others. */
  lemma ContainsMiddle(a: string, p: string, b: string)
    ensures Contains(a + p + b, p)
  {
    assert (a + p + b)[|a|..|a| + |p|] == p;
    assert OccursAt(a + p + b, p, |a|);
  }

  /** Each part of a join is contained in the joined text. */
  lemma {:induction false} ContainsJoinedPart(parts: seq<string>, sep: string, k: nat, p: string)
    requires k < |parts| && Contains(parts[k], p)
    ensures Contains(Join(parts, sep), p)
  {
    if |parts| == 1 {
    } else {
      var rest := Join(parts[1..], sep);
      assert Join(parts, sep) == parts[0] + (sep + rest);
      if k == 0 {
        ContainsSlice(Join(parts, sep), 0, |parts[0]|, p);
      } else {
        ContainsJoinedPart(parts[1..], sep, k - 1, p);
        var whole := Join(parts, sep);
        assert whole[|parts[0]| + |sep|..|whole|] == rest;
        ContainsSlice(whole, |parts[0]| + |sep|, |whole|, p);
      }
    }
  }

  // ---------------------------------------------------------------------------
  // Properties of split

  /** Joining the pieces of a split with the same separator gives the text back. */
  lemma {:induction false} SplitJoin(s: string, sep: string)
    requires |sep| > 0
    decreases |s|
    ensures Join(Split(s, sep), sep) == s
  {
    match Find(s, sep)
    case None =>
    case Some(i) =>
      var rest := s[i + |sep|..];
      SplitJoin(rest, sep);
      assert s == s[..i] + sep + rest by {
        assert s[i..i + |sep|] == sep;
      }
  }

  /** No piece of a split contains the separator. */
  lemma {:induction false} SplitPiecesFree(s: string, sep: string, k: nat)
    requires |sep| > 0 && k < |Split(s, sep)|
    decreases |s|
    ensures !Contains(Split(s, sep)[k], sep)
  {
    match Find(s, sep)
    case None =>
      assert Split(s, sep) == [s];
    case Some(i) =>
      if k > 0 {
        assert |Split(s, sep)| == 1 + |Split(s[i + |sep|..], sep)|;
        SplitLaterPiece(s, sep, i, k - 1);
        SplitPiecesFree(s[i + |sep|..], sep, k - 1);
      } else {
        SplitFirst(s, sep);
        BeforeFree(s, sep);
      }
  }

  /** The first piece of a split is the text before the first separator. */
  lemma SplitFirst(s: string, sep: string)
    requires |sep| > 0
    ensures Split(s, sep)[0] == Before(s, sep)
  {
  }

  /** The second piece of a split is the text between the first and second separators. */
  lemma SplitSecond(s: string, sep: string)
    requires |sep| > 0 && Contains(s, sep)
    ensures Split(s, sep)[1] == Before(After(s, sep), sep)
  {
    var i := Find(s, sep).value;
    var rest := s[i + |sep|..];
    assert After(s, sep) == rest;
    var tail := Split(rest, sep);
    assert Split(s, sep) == [s[..i]] + tail;
    assert Split(s, sep)[1] == tail[0];
    SplitFirst(rest, sep);
  }

  /** The text before the first separator contains no separator. */
  lemma BeforeFree(s: string, sep: string)
    requires |sep| > 0
    ensures !Contains(Before(s, sep), sep)
  {
    match Find(s, sep)
    case None =>
    case Some(i) =>
      if Contains(s[..i], sep) {
        var j: nat :| j <= i && OccursAt(s[..i], sep, j);
        OccursInSlice(s, 0, i, sep, j);
      }
  }

  /** A text free of the separator is its own first piece. */
  lemma BeforeAbsent(s: string, sep: string)
    requires !Contains(s, sep)
    ensures Before(s, sep) == s
  {
  }

  /** An occurrence of `p` cannot cover a character that `p` does not contain. */
  lemma NoStraddle(s: string, p: string, c: char, i: nat, j: nat)
    requires c !in p && i < |s| && s[i] == c && OccursAt(s, p, j)
    ensures j + |p| <= i || i < j
  {
  }

  /** An occurrence of `p` that cannot straddle a one-character separator
      (`p` does not contain that character) lies within one of the pieces. */
  lemma {:induction false} ContainedInSomePiece(s: string, c: char, p: string)
    requires c !in p && Contains(s, p)
    decreases |s|
    ensures exists k :: 0 <= k < |Split(s, [c])| && Contains(Split(s, [c])[k], p)
  {
    var sep := [c];
    var parts := Split(s, sep);
    var j: nat :| j <= |s| && OccursAt(s, p, j);
    match Find(s, sep)
    case None =>
      assert parts == [s];
      assert Contains(parts[0], p);
    case Some(i) =>
      var rest := s[i + |sep|..];
      assert s[i..i + 1] == sep;
      NoStraddle(s, p, c, i, j);
      if j + |p| <= i {
        OccursInWindow(s, 0, i, p, j);
        SplitFirst(s, sep);
        assert s[0..i] == parts[0];
      } else {
        OccursInWindow(s, i + 1, |s|, p, j);
        assert s[i + 1..|s|] == rest;
        ContainedInSomePiece(rest, c, p);
        var k :| 0 <= k < |Split(rest, sep)| && Contains(Split(rest, sep)[k], p);
        SplitLaterPiece(s, sep, i, k);
        assert Contains(parts[k + 1], p);
      }
  }

  /** Piece `k` after the first separator is piece `k + 1` of the whole split. */
  lemma SplitLaterPiece(s: string, sep: string, i: nat, k: nat)
    requires |sep| > 0 && Find(s, sep) == Some(i) && k < |Split(s[i + |sep|..], sep)|
    ensures k + 1 < |Split(s, sep)| && Split(s, sep)[k + 1] == Split(s[i + |sep|..], sep)[k]
  {
    assert Split(s, sep) == [s[..i]] + Split(s[i + |sep|..], sep);
  }

  /** When `p` does not contain the one-character separator, `p` occurs in the
      text iff it occurs in one of the pieces. */
  lemma ContainsIffSomePiece(s: string, c: char, p: string)
    requires c !in p
    ensures Contains(s, p) <==> exists k :: 0 <= k < |Split(s, [c])| && Contains(Split(s, [c])[k], p)
  {
    var parts := Split(s, [c]);
    if Contains(s, p) {
      ContainedInSomePiece(s, c, p);
    }
    if exists k :: 0 <= k < |parts| && Contains(parts[k], p) {
      var k :| 0 <= k < |parts| && Contains(parts[k], p);
      ContainsJoinedPart(parts, [c], k, p);
      SplitJoin(s, [c]);
    }
  }

  // ---------------------------------------------------------------------------
  // Whitespace, word characters and strip

  /** Python's `str.isspace()` on one character; the same set is what the
      regular-expression class `\s` matches in a `str` pattern. */
  predicate IsSpace(c: char) {
    ('\t' <= c <= '\r') || ('\U{1C}' <= c <= ' ') || c == '\U{85}' || c == '\U{A0}'
    || c == '\U{1680}' || ('\U{2000}' <= c <= '\U{200A}') || c == '\U{2028}' || c == '\U{2029}'
    || c == '\U{202F}' || c == '\U{205F}' || c == '\U{3000}'
  }

  /** The regular-expression class `\w`, restricted to ASCII. */
  predicate IsWordChar(c: char) {
    ('a' <= c <= 'z') || ('A' <= c <= 'Z') || ('0' <= c <= '9') || c == '_'
  }

  predicate AllSpace(s: string) {
    forall k :: 0 <= k < |s| ==> IsSpace(s[k])
  }

  /** A line is non-blank: it has a non-space character, which is when
      `line.strip()` is truthy (`StripEmptyIff`). */
  predicate HasNonSpace(s: string) {
    exists k :: 0 <= k < |s| && !IsSpace(s[k])
  }

  /** Neither end of `s` is whitespace. */
  predicate IsStripped(s: string) {
    |s| == 0 || (!IsSpace(s[0]) && !IsSpace(s[|s| - 1]))
  }

  /** The first index at or after `i` that is not whitespace, or `|s|`. */
  function SpaceRunEnd(s: string, i: nat): (n: nat)
    requires i <= |s|
    decreases |s| - i
    ensures i <= n <= |s|
    ensures forall k :: i <= k < n ==> IsSpace(s[k])
    ensures n == |s| || !IsSpace(s[n])
  {
    if i < |s| && IsSpace(s[i]) then SpaceRunEnd(s, i + 1) else i
  }

  /** Going down from `j`, the index just after the last character below `j`
      that is not whitespace, stopping at `lo`. */
  function SpaceRunStart(s: string, lo: nat, j: nat): (n: nat)
    requires lo <= j <= |s|
    decreases j
    ensures lo <= n <= j
    ensures forall k :: n <= k < j ==> IsSpace(s[k])
    ensures n == lo || !IsSpace(s[n - 1])
  {
    if lo < j && IsSpace(s[j - 1]) then SpaceRunStart(s, lo, j - 1) else j
  }

  /** Python's `s.strip()`: `s` is the result with whitespace added at both ends. */
  function Strip(s: string): (r: string)
    ensures IsStripped(r)
    ensures exists i: nat :: OccursAt(s, r, i) && AllSpace(s[..i]) && AllSpace(s[i + |r|..])
    ensures IsStripped(s) ==> r == s
  {
    var a := SpaceRunEnd(s, 0);
    var b := SpaceRunStart(s, a, |s|);
    assert OccursAt(s, s[a..b], a);
    assert AllSpace(s[..a]) by {
      forall k | 0 <= k < a ensures IsSpace(s[..a][k]) {
        assert s[..a][k] == s[k];
      }
    }
    assert AllSpace(s[b..]) by {
      forall k | 0 <= k < |s| - b ensures IsSpace(s[b..][k]) {
        assert s[b..][k] == s[b + k];
      }
    }
    assert IsStripped(s) && |s| > 0 ==> a == 0 && b == |s|;
    s[a..b]
  }

  /** The result of strip is part of the text. */
  lemma StripContained(s: string)
    ensures Contains(s, Strip(s))
  {
    var i: nat :| OccursAt(s, Strip(s), i) && AllSpace(s[..i]) && AllSpace(s[i + |Strip(s)|..]);
  }

  /** `s.strip()` is empty (falsy) iff `s` has no non-whitespace character. */
  lemma StripEmptyIff(s: string)
    ensures Strip(s) == [] <==> !HasNonSpace(s)
  {
    var r := Strip(s);
    var i: nat :| OccursAt(s, r, i) && AllSpace(s[..i]) && AllSpace(s[i + |r|..]);
    if r == [] {
      forall k | 0 <= k < |s| ensures IsSpace(s[k]) {
        if k < i {
          assert s[..i][k] == s[k];
        } else {
          assert s[i..][k - i] == s[k];
        }
      }
    }
    if r != [] {
      assert s[i..i + |r|][0] == s[i];
      assert !IsSpace(s[i]);
    }
  }

  /** A text has a non-whitespace character iff one of its lines is non-blank. */
  lemma NonSpaceIffNonBlankPiece(s: string)
    ensures HasNonSpace(s) <==> exists k :: 0 <= k < |Split(s, "\n")| && HasNonSpace(Split(s, "\n")[k])
  {
    var parts := Split(s, "\n");
    if HasNonSpace(s) {
      var j :| 0 <= j < |s| && !IsSpace(s[j]);
      assert s[j..j + 1] == [s[j]];
      assert OccursAt(s, [s[j]], j);
      ContainedInSomePiece(s, '\n', [s[j]]);
      var k :| 0 <= k < |parts| && Contains(parts[k], [s[j]]);
      NonSpaceCharContained(parts[k], s[j]);
    }
    if exists k :: 0 <= k < |parts| && HasNonSpace(parts[k]) {
      var k :| 0 <= k < |parts| && HasNonSpace(parts[k]);
      var j :| 0 <= j < |parts[k]| && !IsSpace(parts[k][j]);
      var c := parts[k][j];
      assert parts[k][j..j + 1] == [c];
      assert OccursAt(parts[k], [c], j);
      ContainsJoinedPart(parts, "\n", k, [c]);
      SplitJoin(s, "\n");
      NonSpaceCharContained(s, c);
    }
  }

  /** A text that contains a non-whitespace character is non-blank. */
  lemma NonSpaceCharContained(t: string, c: char)
    requires !IsSpace(c) && Contains(t, [c])
    ensures HasNonSpace(t)
  {
    var j: nat :| j <= |t| && OccursAt(t, [c], j);
    assert t[j..j + 1][0] == t[j];
  }

  // ---------------------------------------------------------------------------
  // Decimal rendering of naturals (Python's `str(n)` inside an f-string)

  function DigitChar(d: nat): (c: char)
    requires d < 10
    ensures '0' <= c <= '9' && (c as int) - ('0' as int) == d
  {
    ('0' as int + d) as char
  }

  /** Python's `str(n)` for `n >= 0`. */
  function NatToString(n: nat): (r: string)
    ensures |r| >= 1
    ensures forall k :: 0 <= k < |r| ==> '0' <= r[k] <= '9'
  {
    if n < 10 then [DigitChar(n)] else NatToString(n / 10) + [DigitChar(n % 10)]
  }

  /** The value of a string of decimal digits (Python's `int(s)`). */
  function DigitsValue(s: string): (r: nat)
    requires forall k :: 0 <= k < |s| ==> '0' <= s[k] <= '9'
  {
    if |s| == 0 then 0
    else DigitsValue(s[..|s| - 1]) * 10 + ((s[|s| - 1] as int) - ('0' as int))
  }

  /** `int(str(n)) == n`: the rendering loses nothing. */
  lemma {:induction false} NatToStringRoundTrip(n: nat)
    ensures DigitsValue(NatToString(n)) == n
  {
    if n >= 10 {
      NatToStringRoundTrip(n / 10);
      var r := NatToString(n);
      assert r[..|r| - 1] == NatToString(n / 10);
    }
  }
}
