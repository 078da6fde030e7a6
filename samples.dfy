/** The sample inputs that the repository feeds to the validator, written as
    their lines joined with newlines, and what validation makes of them. */
module Samples {
  import opened Text
  import opened Validators

  /** The "good" sample of test_validator.py; the lines that hold a needle of
      the import and fixture checks are written with that needle. */
  const GoodLines := [
    "",
    PytestImport,
    PlaywrightFrom + ".async_api import async_playwright, Page",
    "",
    FixtureMarker,
    BrowserDef + "():",
    "    async with async_playwright() as p:",
    "        browser = await p.chromium.launch(headless=False)",
    "        yield browser",
    "        await browser.close()",
    "",
    FixtureMarker,
    PageDef + "(browser):",
    "    page = await browser.new_page()",
    "    yield page",
    "    await page.close()",
    "",
    "@pytest.mark.asyncio",
    "async def test_example(page: Page):",
    "    await page.goto(\"https://example.com\")",
    "    title = await page.title()",
    "    assert \"Example\" in title",
    ""]

  /** The "bad" sample of test_validator.py. */
  const BadLines := [
    "",
    PytestImport,
    "",
    "async def test_example(page):",
    "    page.goto(\"https://example.com\")",
    "    title = page.title()",
    "    assert \"Example\" in title",
    ""]

  /** The deliberately broken, indented snippet of test_complete_workflow.py. */
  const SnippetLines := [
    "",
    "    async def test_example():",
    "        page.goto(\"https://example.com\")",
    "    "]

  const Newline := "\n"

  // ---------------------------------------------------------------------------

  lemma {:induction false} AbsentFromJoin(parts: seq<string>, sep: string, c: char)
    requires forall k :: 0 <= k < |parts| ==> c !in parts[k]
    requires c !in sep
    ensures c !in Join(parts, sep)
  {
    if |parts| > 1 {
      AbsentFromJoin(parts[1..], sep, c);
    }
  }

  /** A text lacking one of the characters of `p` does not contain `p`. */
  lemma MissingChar(s: string, p: string, c: char)
    requires c in p && c !in s
    ensures !Contains(s, p)
  {
    var t :| 0 <= t < |p| && p[t] == c;
    forall i: nat | i <= |s| ensures !OccursAt(s, p, i) {
      if i + |p| <= |s| {
        assert s[i + t] != c;
        assert s[i..i + |p|][t] == s[i + t];
      }
    }
  }

  lemma PrefixContained(s: string, p: string)
    requires |p| <= |s| && s[..|p|] == p
    ensures Contains(s, p)
  {
    assert OccursAt(s, p, 0);
  }

  lemma GoodSampleImports()
    ensures HasPytestImport(Join(GoodLines, Newline)) && HasPlaywrightImport(Join(GoodLines, Newline))
  {
    var lines := GoodLines;
    PrefixContained(lines[1], PytestImport);
    ContainsJoinedPart(lines, Newline, 1, PytestImport);
    PrefixContained(lines[2], PlaywrightFrom);
    ContainsJoinedPart(lines, Newline, 2, PlaywrightFrom);
  }

  lemma GoodSampleFixtures()
    ensures HasBrowserFixture(Join(GoodLines, Newline)) && HasPageFixture(Join(GoodLines, Newline))
  {
    var lines := GoodLines;
    PrefixContained(lines[4], FixtureMarker);
    ContainsJoinedPart(lines, Newline, 4, FixtureMarker);
    PrefixContained(lines[5], BrowserDef);
    ContainsJoinedPart(lines, Newline, 5, BrowserDef);
    PrefixContained(lines[12], PageDef);
    ContainsJoinedPart(lines, Newline, 12, PageDef);
  }

  /** The good sample is valid whenever it parses. */
  lemma GoodSampleValid(parse: string -> ParseOutcome)
    requires parse(Join(GoodLines, Newline)).Parsed?
    ensures Validate(Join(GoodLines, Newline), parse).isValid
    ensures Validate(Join(GoodLines, Newline), parse).errors == []
  {
    GoodSampleImports();
    GoodSampleFixtures();
    ValidIffNoBlockingProblem(Join(GoodLines, Newline), parse);
  }

  /** A text without 'w' names no playwright import; one without '@' has no fixture. */
  lemma NeedlesNeed(code: string)
    ensures 'w' !in code ==> !HasPlaywrightImport(code)
    ensures '@' !in code ==> !HasBrowserFixture(code) && !HasPageFixture(code)
    ensures 'i' !in code ==> !HasPytestImport(code)
  {
    assert PlaywrightFrom[9] == 'w' && PlaywrightImport[11] == 'w' && FixtureMarker[0] == '@' && PytestImport[0] == 'i';
    if 'w' !in code {
      MissingChar(code, PlaywrightFrom, 'w');
      MissingChar(code, PlaywrightImport, 'w');
    }
    if '@' !in code {
      MissingChar(code, FixtureMarker, '@');
    }
    if 'i' !in code {
      MissingChar(code, PytestImport, 'i');
    }
  }

  lemma OnlyPytestErrors(code: string, parse: string -> ParseOutcome)
    requires parse(code).Parsed? && HasPytestImport(code) && !HasPlaywrightImport(code)
    requires !HasBrowserFixture(code) && !HasPageFixture(code)
    ensures Validate(code, parse).errors == [MissingImportMessage("playwright"), MissingBrowserFixture, MissingPageFixture]
    ensures !Validate(code, parse).isValid
  {
    MissingImportErrorsOfTwo(("pytest", true), ("playwright", false));
  }

  lemma NothingPresentErrors(code: string, parse: string -> ParseOutcome)
    requires !HasPytestImport(code) && !HasPlaywrightImport(code)
    requires !HasBrowserFixture(code) && !HasPageFixture(code)
    ensures Validate(code, parse).errors == SyntaxErrors(parse(code))
      + [MissingImportMessage("pytest"), MissingImportMessage("playwright"), MissingBrowserFixture, MissingPageFixture]
    ensures !Validate(code, parse).isValid
  {
    MissingImportErrorsOfTwo(("pytest", false), ("playwright", false));
    var imports := [MissingImportMessage("pytest"), MissingImportMessage("playwright")];
    var fixtures := [MissingBrowserFixture, MissingPageFixture];
    assert ImportErrors(code) == imports && FixtureErrors(code) == fixtures;
    AppendAssoc(SyntaxErrors(parse(code)), imports, fixtures);
    assert imports + fixtures
      == [MissingImportMessage("pytest"), MissingImportMessage("playwright"), MissingBrowserFixture, MissingPageFixture];
  }

  lemma LinesLack(lines: seq<string>, c: char)
    requires c != '\n'
    requires forall k :: 0 <= k < |lines| ==> c !in lines[k]
    ensures c !in Join(lines, Newline)
  {
    AbsentFromJoin(lines, Newline, c);
  }

  // The absence lemmas below take one fixed character each rather than a
  // character parameter: checking every character of the sample lines against
  // one known character is far cheaper for the verifier than against a choice
  // of several.

  /** The bad sample has no 'w', hence no playwright import. */
  lemma BadSampleLacksW()
    ensures 'w' !in Join(BadLines, Newline)
  {
    LinesLack(BadLines, 'w');
  }

  /** The bad sample has no '@', hence no fixture marker. */
  lemma BadSampleLacksAt()
    ensures '@' !in Join(BadLines, Newline)
  {
    LinesLack(BadLines, '@');
  }

  lemma BadSampleHasPytest()
    ensures HasPytestImport(Join(BadLines, Newline))
  {
    assert OccursAt(BadLines[1], PytestImport, 0);
    ContainsJoinedPart(BadLines, Newline, 1, PytestImport);
  }

  /** The snippet has no 'i', hence no `import pytest`. */
  lemma SnippetLacksI()
    ensures 'i' !in Join(SnippetLines, Newline)
  {
    LinesLack(SnippetLines, 'i');
  }

  /** The snippet has no 'w', hence no playwright import. */
  lemma SnippetLacksW()
    ensures 'w' !in Join(SnippetLines, Newline)
  {
    LinesLack(SnippetLines, 'w');
  }

  /** The snippet has no '@', hence no fixture marker. */
  lemma SnippetLacksAt()
    ensures '@' !in Join(SnippetLines, Newline)
  {
    LinesLack(SnippetLines, '@');
  }

  /** The bad sample, even when it parses, lacks the playwright import and both fixtures. */
  lemma BadSampleErrors(parse: string -> ParseOutcome)
    requires parse(Join(BadLines, Newline)).Parsed?
    ensures Validate(Join(BadLines, Newline), parse).errors
      == [MissingImportMessage("playwright"), MissingBrowserFixture, MissingPageFixture]
    ensures !Validate(Join(BadLines, Newline), parse).isValid
  {
    var code := Join(BadLines, Newline);
    BadSampleLacksW();
    BadSampleLacksAt();
    BadSampleHasPytest();
    NeedlesNeed(code);
    OnlyPytestErrors(code, parse);
  }

  /** The indented snippet is rejected whatever the parser says, with all four
      import and fixture errors after the parser's own. */
  lemma SnippetRejected(parse: string -> ParseOutcome)
    ensures Validate(Join(SnippetLines, Newline), parse).errors
      == SyntaxErrors(parse(Join(SnippetLines, Newline)))
        + [MissingImportMessage("pytest"), MissingImportMessage("playwright"), MissingBrowserFixture, MissingPageFixture]
    ensures !Validate(Join(SnippetLines, Newline), parse).isValid
  {
    var code := Join(SnippetLines, Newline);
    SnippetLacksI();
    SnippetLacksW();
    SnippetLacksAt();
    NeedlesNeed(code);
    NothingPresentErrors(code, parse);
  }
}
