/** The four fixed regular expressions of src/validators.py, written out as
    string predicates over the text they are searched in:
      `async def (test_\w+)`            (findall)  -> TestNames
      `@pytest\.mark\.asyncio\s+async def NAME`     -> Decorated
      `page\.M\(`                                   -> Called
      `await\s+page\.M\(`                           -> Awaited */
module Patterns {
  import opened Text

  const AsyncDef := "async def "
  const TestPrefix := "test_"
  const AsyncioMarker := "@pytest.mark.asyncio"
  const AwaitKeyword := "await"

  predicate AllWord(s: string) {
    forall k :: 0 <= k < |s| ==> IsWordChar(s[k])
  }

  /** The longest prefix of `s` made of word characters: what a greedy `\w*` takes. */
  function WordRun(s: string): (w: string)
    ensures |w| <= |s| && w == s[..|w|]
    ensures AllWord(w)
    ensures |w| == |s| || !IsWordChar(s[|w|])
  {
    if |s| > 0 && IsWordChar(s[0]) then [s[0]] + WordRun(s[1..]) else []
  }

  /** `async def test_\w+` matches at the start of `s`. */
  predicate TestDefAt(s: string) {
    var head := AsyncDef + TestPrefix;
    OccursAt(s, head, 0) && |s| > |head| && IsWordChar(s[|head|])
  }

  /** The name that `async def (test_\w+)` captures at the start of `s`. */
  function TestNameAt(s: string): (name: string)
    requires TestDefAt(s)
    ensures |name| > |TestPrefix| && name[..|TestPrefix|] == TestPrefix && AllWord(name)
    ensures OccursAt(s, AsyncDef + name, 0)
  {
    var head := AsyncDef + TestPrefix;
    var w := WordRun(s[|head|..]);
    var name := TestPrefix + w;
    assert s[..|AsyncDef + name|] == head + w by {
      assert s[..|head|] == head;
      assert s[|head|..|head| + |w|] == w;
    }
    name
  }

  /** `re.findall(r'async def (test_\w+)', code)`: the captured names of the
      non-overlapping matches, left to right. */
  function TestNames(code: string): (names: seq<string>)
    decreases |code|
  {
    if |code| == 0 then []
    else if TestDefAt(code) then
      var name := TestNameAt(code);
      [name] + TestNames(code[|AsyncDef| + |name|..])
    else TestNames(code[1..])
  }

  /** `\s+` followed by `p` matches at index `j` of `s`. */
  predicate SpacesThen(s: string, j: nat, p: string) {
    exists k: nat | j < k <= |s| :: AllSpace(s[j..k]) && OccursAt(s, p, k)
  }

  /** `re.search(rf'@pytest\.mark\.asyncio\s+async def {name}', code)` succeeds.
      There is no word boundary after `name`. */
  predicate Decorated(code: string, name: string) {
    exists i: nat | i <= |code| :: OccursAt(code, AsyncioMarker, i) && SpacesThen(code, i + |AsyncioMarker|, AsyncDef + name)
  }

  /** The literal text that `page\.M\(` matches. */
  function CallOf(m: string): (r: string) {
    "page." + m + "("
  }

  /** `re.search(rf'page\.{m}\(', code)` succeeds. */
  predicate Called(code: string, m: string) {
    Contains(code, CallOf(m))
  }

  /** `re.search(rf'await\s+page\.{m}\(', code)` succeeds. */
  predicate Awaited(code: string, m: string) {
    exists i: nat | i <= |code| :: OccursAt(code, AwaitKeyword, i) && SpacesThen(code, i + |AwaitKeyword|, CallOf(m))
  }

  // ---------------------------------------------------------------------------

  /** Every captured name is `test_` followed by at least one word character. */
  lemma {:induction false} TestNamesShape(code: string, n: string)
    requires n in TestNames(code)
    decreases |code|
    ensures |n| > |TestPrefix| && n[..|TestPrefix|] == TestPrefix && AllWord(n)
  {
    if TestDefAt(code) {
      var name := TestNameAt(code);
      var skip := |AsyncDef| + |name|;
      assert TestNames(code) == [name] + TestNames(code[skip..]);
      if n != name {
        TestNamesShape(code[skip..], n);
      }
    } else if |code| > 0 {
      assert TestNames(code) == TestNames(code[1..]);
      TestNamesShape(code[1..], n);
    }
  }

  /** Every captured name is declared in the text as `async def NAME`. */
  lemma {:induction false} TestNamesDeclared(code: string, n: string)
    requires n in TestNames(code)
    decreases |code|
    ensures Contains(code, AsyncDef + n)
  {
    if TestDefAt(code) {
      var name := TestNameAt(code);
      var skip := |AsyncDef| + |name|;
      assert TestNames(code) == [name] + TestNames(code[skip..]);
      if n == name {
        assert OccursAt(code, AsyncDef + n, 0);
      } else {
        assert n in TestNames(code[skip..]);
        TestNamesDeclared(code[skip..], n);
        ContainsSuffix(code, skip, AsyncDef + n);
      }
    } else if |code| > 0 {
      assert TestNames(code) == TestNames(code[1..]);
      TestNamesDeclared(code[1..], n);
      ContainsSuffix(code, 1, AsyncDef + n);
    }
  }

  lemma ContainsSuffix(s: string, a: nat, p: string)
    requires a <= |s| && Contains(s[a..], p)
    ensures Contains(s, p)
  {
    assert s[a..|s|] == s[a..];
    ContainsSlice(s, a, |s|, p);
  }

  /** A text without `async def test_` declares no tests. */
  lemma {:induction false} NoTestsWithoutDeclaration(code: string)
    requires !Contains(code, AsyncDef + TestPrefix)
    decreases |code|
    ensures TestNames(code) == []
  {
    if |code| > 0 {
      assert !OccursAt(code, AsyncDef + TestPrefix, 0);
      if Contains(code[1..], AsyncDef + TestPrefix) {
        ContainsSuffix(code, 1, AsyncDef + TestPrefix);
      }
      NoTestsWithoutDeclaration(code[1..]);
    }
  }

  /** Completeness: a match of `async def test_\w+` anywhere in the text is
      found, and the first match gives the first captured name. */
  lemma {:induction false} FirstTestDefCaptured(code: string, i: nat)
    requires i <= |code| && TestDefAt(code[i..])
    requires forall j :: 0 <= j < i ==> !TestDefAt(code[j..])
    decreases i
    ensures TestNames(code) != [] && TestNames(code)[0] == TestNameAt(code[i..])
  {
    if i == 0 {
      assert code[0..] == code;
      assert TestNames(code) == [TestNameAt(code)] + TestNames(code[|AsyncDef| + |TestNameAt(code)|..]);
    } else {
      assert code[0..] == code;
      assert !TestDefAt(code);
      assert TestNames(code) == TestNames(code[1..]);
      assert code[1..][i - 1..] == code[i..];
      forall j | 0 <= j < i - 1 ensures !TestDefAt(code[1..][j..]) {
        assert code[1..][j..] == code[j + 1..];
      }
      FirstTestDefCaptured(code[1..], i - 1);
    }
  }

  /** Every text with a match has a first one. */
  lemma {:induction false} FirstTestDef(code: string, i: nat) returns (f: nat)
    requires i <= |code| && TestDefAt(code[i..])
    decreases i
    ensures f <= i && TestDefAt(code[f..])
    ensures forall j :: 0 <= j < f ==> !TestDefAt(code[j..])
  {
    if exists j :: 0 <= j < i && TestDefAt(code[j..]) {
      var j :| 0 <= j < i && TestDefAt(code[j..]);
      f := FirstTestDef(code, j);
    } else {
      f := i;
    }
  }

  /** Soundness of the empty case: a capture comes from a match in the text. */
  lemma {:induction false} CapturedHasTestDef(code: string) returns (i: nat)
    requires TestNames(code) != []
    decreases |code|
    ensures i <= |code| && TestDefAt(code[i..])
  {
    if TestDefAt(code) {
      i := 0;
      assert code[0..] == code;
    } else {
      assert |code| > 0 && TestNames(code) == TestNames(code[1..]);
      var k := CapturedHasTestDef(code[1..]);
      assert code[1..][k..] == code[k + 1..];
      i := k + 1;
    }
  }

  /** `findall` finds nothing iff `async def test_\w+` matches nowhere. */
  lemma TestNamesEmptyIff(code: string)
    ensures TestNames(code) == [] <==> forall i :: 0 <= i <= |code| ==> !TestDefAt(code[i..])
  {
    if TestNames(code) != [] {
      var i := CapturedHasTestDef(code);
    }
    if exists i :: 0 <= i <= |code| && TestDefAt(code[i..]) {
      var i :| 0 <= i <= |code| && TestDefAt(code[i..]);
      var f := FirstTestDef(code, i);
      FirstTestDefCaptured(code, f);
    }
  }

  /** A decorated test name is declared in the text. */
  lemma DecoratedIsDeclared(code: string, name: string)
    requires Decorated(code, name)
    ensures Contains(code, AsyncDef + name)
  {
    var i: nat :| i <= |code| && OccursAt(code, AsyncioMarker, i) && SpacesThen(code, i + |AsyncioMarker|, AsyncDef + name);
    var k: nat :| i + |AsyncioMarker| < k <= |code| && AllSpace(code[i + |AsyncioMarker|..k]) && OccursAt(code, AsyncDef + name, k);
  }

  /** No word boundary: the decorator on `NAME + suffix` also satisfies `NAME`,
      so a decorated `test_ab` covers an undecorated `test_a`. */
  lemma DecoratedPrefix(code: string, name: string, suffix: string)
    requires Decorated(code, name + suffix)
    ensures Decorated(code, name)
  {
    var i: nat :| i <= |code| && OccursAt(code, AsyncioMarker, i) && SpacesThen(code, i + |AsyncioMarker|, AsyncDef + (name + suffix));
    var j := i + |AsyncioMarker|;
    var k: nat :| j < k <= |code| && AllSpace(code[j..k]) && OccursAt(code, AsyncDef + (name + suffix), k);
    assert code[k..k + |AsyncDef + name|] == (AsyncDef + (name + suffix))[..|AsyncDef + name|] == AsyncDef + name;
    assert OccursAt(code, AsyncDef + name, k);
  }

  /** A decorator line directly above a declaration satisfies the pattern. */
  lemma DecoratorAbove(before: string, name: string, after: string)
    ensures Decorated(before + AsyncioMarker + "\n" + AsyncDef + name + after, name)
  {
    var code := before + AsyncioMarker + "\n" + AsyncDef + name + after;
    var i := |before|;
    var j := i + |AsyncioMarker|;
    assert code[i..j] == AsyncioMarker;
    assert code[j..j + 1] == "\n";
    assert AllSpace(code[j..j + 1]);
    assert code[j + 1..j + 1 + |AsyncDef + name|] == AsyncDef + name;
    assert SpacesThen(code, j, AsyncDef + name) by {
      assert OccursAt(code, AsyncDef + name, j + 1);
    }
    assert OccursAt(code, AsyncioMarker, i);
  }

  /** An awaited call is a call: `await\s+page\.M\(` implies `page\.M\(`. */
  lemma AwaitedIsCalled(code: string, m: string)
    requires Awaited(code, m)
    ensures Called(code, m)
  {
    var i: nat :| i <= |code| && OccursAt(code, AwaitKeyword, i) && SpacesThen(code, i + |AwaitKeyword|, CallOf(m));
    var k: nat :| i + |AwaitKeyword| < k <= |code| && AllSpace(code[i + |AwaitKeyword|..k]) && OccursAt(code, CallOf(m), k);
  }
}
