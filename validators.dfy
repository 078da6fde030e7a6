/** The static validator for generated Playwright test code (src/validators.py).

    Every check is given twice: as a pure function of the source text that
    says which diagnostics it produces (`ImportErrors`, `FixtureErrors`, ...),
    and as a method of `CodeValidator` that appends them to the validator's
    lists, step by step, as the Python code does, proved to append exactly
    what the function says.  The lemmas at the end state what the checks mean. */
module Validators {
  import opened Text
  import opened Patterns

  // ---------------------------------------------------------------------------
  // ValidationResult and its text rendering

  const SuccessHeader := "✅ VALIDACIÓN EXITOSA"
  const FailureHeader := "❌ VALIDACIÓN FALLIDA"
  const ErrorsHeader := "\n🔴 ERRORES:"
  const WarningsHeader := "\n⚠️  ADVERTENCIAS:"
  const SuggestionsHeader := "\n💡 SUGERENCIAS:"
  const ItemPrefix := "  - "

  /** One `"  - " + item` line per item, in order. */
  function Bullets(items: seq<string>): (lines: seq<string>)
    ensures |lines| == |items|
    ensures forall k :: 0 <= k < |items| ==> lines[k] == ItemPrefix + items[k]
  {
    seq(|items|, k requires 0 <= k < |items| => ItemPrefix + items[k])
  }

  /** A titled section, present only when it has items. */
  function Section(header: string, items: seq<string>): (r: seq<string>)
  {
    if |items| == 0 then [] else [header] + Bullets(items)
  }

  function SectionSize(items: seq<string>): (r: nat)
  {
    if |items| == 0 then 0 else 1 + |items|
  }

  datatype ValidationResult = ValidationResult(
    isValid: bool,
    errors: seq<string>,
    warnings: seq<string>,
    suggestions: seq<string>)
  {
    /** The lines that `__str__` joins with newlines. */
    function Lines(): (r: seq<string>)
    {
      [if isValid then SuccessHeader else FailureHeader]
        + Section(ErrorsHeader, errors)
        + Section(WarningsHeader, warnings)
        + Section(SuggestionsHeader, suggestions)
    }

    /** `__str__`: builds the list of lines by appending, then joins it. */
    method ToText() returns (text: string)
      ensures text == Join(Lines(), "\n")
      ensures OccursAt(text, SuccessHeader, 0) <==> isValid
    {
      var lines: seq<string> := [];
      if isValid {
        lines := lines + [SuccessHeader];
      } else {
        lines := lines + [FailureHeader];
      }
      assert lines == [if isValid then SuccessHeader else FailureHeader];
      ghost var done := lines;
      if |errors| > 0 {
        lines := lines + [ErrorsHeader];
        lines := AppendBullets(lines, errors);
      }
      SectionAppended(done, ErrorsHeader, errors, lines);
      done := lines;
      if |warnings| > 0 {
        lines := lines + [WarningsHeader];
        lines := AppendBullets(lines, warnings);
      }
      SectionAppended(done, WarningsHeader, warnings, lines);
      done := lines;
      if |suggestions| > 0 {
        lines := lines + [SuggestionsHeader];
        lines := AppendBullets(lines, suggestions);
      }
      SectionAppended(done, SuggestionsHeader, suggestions, lines);
      assert lines == Lines();
      text := Join(lines, "\n");
      RenderedHeader(this);
    }
  }

  /** Appending a header and its bullets when there are items is appending the section. */
  lemma SectionAppended(before: seq<string>, header: string, items: seq<string>, after: seq<string>)
    requires after == if |items| > 0 then before + [header] + Bullets(items) else before
    ensures after == before + Section(header, items)
  {
  }

  /** The `for item in items: lines.append(f"  - {item}")` loop. */
  method AppendBullets(lines: seq<string>, items: seq<string>) returns (out: seq<string>)
    ensures out == lines + Bullets(items)
  {
    out := lines;
    for k := 0 to |items|
      invariant out == lines + Bullets(items[..k])
    {
      assert Bullets(items[..k + 1]) == Bullets(items[..k]) + [ItemPrefix + items[k]];
      out := out + [ItemPrefix + items[k]];
    }
    assert items[..|items|] == items;
  }

  // ---------------------------------------------------------------------------
  // Diagnostic messages (their wording is kept as constants)

  /** What Python's parser reports; `ast.parse` itself is not modelled. */
  datatype ParseOutcome =
    | Parsed
    | SyntaxError(lineno: Option<nat>, msg: string)
    | ParseFailure(detail: string)

  function LineNumberText(lineno: Option<nat>): (r: string)
  {
    match lineno
    case None => "None"
    case Some(n) => NatToString(n)
  }

  function SyntaxErrorMessage(lineno: Option<nat>, msg: string): (r: string)
  {
    "Error de sintaxis en línea " + LineNumberText(lineno) + ": " + msg
  }

  function ParseErrorMessage(detail: string): (r: string)
  {
    "Error al parsear código: " + detail
  }

  function MissingImportMessage(lib: string): (r: string)
  {
    "Falta import requerido: " + lib
  }

  const MissingBrowserFixture := "Falta fixture 'browser'"
  const MissingPageFixture := "Falta fixture 'page'"

  function MissingAsyncioMessage(name: string): (r: string)
  {
    "Test '" + name + "' es async pero falta @pytest.mark.asyncio"
  }

  function MissingAwaitMessage(m: string): (r: string)
  {
    "Método 'page." + m + "()' debería usar 'await'"
  }

  function TooManyTestsMessage(count: nat): (r: string)
  {
    "Se generaron " + NatToString(count) + " tests. " + "Considera simplificar a 1-3 tests principales."
  }

  function TooLongMessage(lineCount: nat, count: nat, expected: nat): (r: string)
  {
    "Código muy extenso (" + NatToString(lineCount) + " líneas para " + NatToString(count) + " tests). "
      + "Esperado: ~" + NatToString(expected) + " líneas. " + "Considera simplificar."
  }

  const PageObjectSuggestion :=
    "Detectado Page Object Model. " + "Para tests simples, considera usar código inline más simple."
  const ParametrizeSuggestion :=
    "Detectado test parametrizado. " + "Verifica si es realmente necesario o si complica innecesariamente."

  // ---------------------------------------------------------------------------
  // What each check produces, as functions of the text

  function SyntaxErrors(outcome: ParseOutcome): (r: seq<string>)
  {
    match outcome
    case Parsed => []
    case SyntaxError(lineno, msg) => [SyntaxErrorMessage(lineno, msg)]
    case ParseFailure(detail) => [ParseErrorMessage(detail)]
  }

  const PytestImport := "import pytest"
  const PlaywrightFrom := "from playwright"
  const PlaywrightImport := "import playwright"

  predicate HasPytestImport(code: string) {
    Contains(code, PytestImport)
  }

  predicate HasPlaywrightImport(code: string) {
    Contains(code, PlaywrightFrom) || Contains(code, PlaywrightImport)
  }

  /** The `required_imports` dictionary after the scan, in insertion order. */
  function RequiredImports(code: string): (r: seq<(string, bool)>)
  {
    [("pytest", HasPytestImport(code)), ("playwright", HasPlaywrightImport(code))]
  }

  /** One error per library whose flag is still false, in dictionary order. */
  function MissingImportErrors(required: seq<(string, bool)>): (r: seq<string>)
  {
    if |required| == 0 then []
    else
      var last := required[|required| - 1];
      MissingImportErrors(required[..|required| - 1]) + (if last.1 then [] else [MissingImportMessage(last.0)])
  }

  function ImportErrors(code: string): (r: seq<string>)
  {
    MissingImportErrors(RequiredImports(code))
  }

  /** One more library adds at most its own error. */
  lemma MissingImportErrorsStep(required: seq<(string, bool)>, k: nat)
    requires k < |required|
    ensures MissingImportErrors(required[..k + 1])
      == MissingImportErrors(required[..k]) + (if required[k].1 then [] else [MissingImportMessage(required[k].0)])
  {
    assert required[..k + 1][..k] == required[..k];
  }

  lemma MissingImportErrorsOfTwo(a: (string, bool), b: (string, bool))
    ensures MissingImportErrors([a, b])
      == (if a.1 then [] else [MissingImportMessage(a.0)]) + (if b.1 then [] else [MissingImportMessage(b.0)])
  {
    assert [a, b][..1] == [a];
    assert [a][..0] == [];
    assert MissingImportErrors([a]) == (if a.1 then [] else [MissingImportMessage(a.0)]);
  }

  const FixtureMarker := "@pytest.fixture"
  const BrowserDef := "async def browser"
  const PageDef := "async def page"

  predicate HasBrowserFixture(code: string) {
    Contains(code, FixtureMarker) && Contains(code, BrowserDef)
  }

  predicate HasPageFixture(code: string) {
    Contains(code, FixtureMarker) && Contains(code, PageDef)
  }

  function FixtureErrors(code: string): (r: seq<string>)
  {
    (if HasBrowserFixture(code) then [] else [MissingBrowserFixture])
      + (if HasPageFixture(code) then [] else [MissingPageFixture])
  }

  /** One warning per name, in order, whose declaration does not follow the asyncio marker. */
  function AsyncioWarnings(code: string, names: seq<string>): (r: seq<string>)
  {
    if |names| == 0 then []
    else
      var name := names[|names| - 1];
      AsyncioWarnings(code, names[..|names| - 1]) + (if Decorated(code, name) then [] else [MissingAsyncioMessage(name)])
  }

  const PlaywrightMethods := ["goto", "click", "fill", "screenshot", "title", "wait_for_selector", "locator", "get_by_"]

  /** One warning per method, in list order, called somewhere but awaited nowhere. */
  function AwaitWarnings(code: string, methods: seq<string>): (r: seq<string>)
  {
    if |methods| == 0 then []
    else
      var m := methods[|methods| - 1];
      AwaitWarnings(code, methods[..|methods| - 1]) + (if Called(code, m) && !Awaited(code, m) then [MissingAwaitMessage(m)] else [])
  }

  /** Number of lines that are not blank. */
  function NonBlankCount(lines: seq<string>): (r: nat)
  {
    if |lines| == 0 then 0
    else (if HasNonSpace(lines[0]) then 1 else 0) + NonBlankCount(lines[1..])
  }

  function NonBlankLineCount(code: string): (r: nat)
  {
    NonBlankCount(Split(code, "\n"))
  }

  function TestCount(code: string): (r: nat)
  {
    |TestNames(code)|
  }

  /** About 20 lines per test. */
  function ExpectedLines(count: nat): (r: nat)
  {
    count * 20
  }

  predicate TooManyTests(code: string) {
    TestCount(code) > 3
  }

  predicate TooLong(code: string) {
    NonBlankLineCount(code) > ExpectedLines(TestCount(code)) * 2
  }

  function ManyTestsWarnings(code: string): (r: seq<string>)
  {
    if TooManyTests(code) then [TooManyTestsMessage(TestCount(code))] else []
  }

  function LengthWarnings(code: string): (r: seq<string>)
  {
    if TooLong(code) then [TooLongMessage(NonBlankLineCount(code), TestCount(code), ExpectedLines(TestCount(code)))] else []
  }

  function ComplexityWarnings(code: string): (r: seq<string>)
  {
    ManyTestsWarnings(code) + LengthWarnings(code)
  }

  const ClassKeyword := "class "
  const PageWord := "Page"
  const ParametrizeMarker := "@pytest.mark.parametrize"

  function PageObjectSuggestions(code: string): (r: seq<string>)
  {
    if Contains(code, ClassKeyword) && Contains(code, PageWord) && TestCount(code) <= 2 then [PageObjectSuggestion] else []
  }

  function ParametrizeSuggestions(code: string): (r: seq<string>)
  {
    if Contains(code, ParametrizeMarker) then [ParametrizeSuggestion] else []
  }

  function ComplexitySuggestions(code: string): (r: seq<string>)
  {
    PageObjectSuggestions(code) + ParametrizeSuggestions(code)
  }

  /** What `validate_code` returns for `code`, given what the parser makes of it. */
  function Validate(code: string, parse: string -> ParseOutcome): (r: ValidationResult)
  {
    var errors := SyntaxErrors(parse(code)) + ImportErrors(code) + FixtureErrors(code);
    var warnings := AsyncioWarnings(code, TestNames(code)) + AwaitWarnings(code, PlaywrightMethods) + ComplexityWarnings(code);
    ValidationResult(|errors| == 0, errors, warnings, ComplexitySuggestions(code))
  }

  // ---------------------------------------------------------------------------
  // The validator object: three lists that every check appends to

  class CodeValidator {
    var errors: seq<string>
    var warnings: seq<string>
    var suggestions: seq<string>

    constructor ()
      ensures errors == [] && warnings == [] && suggestions == []
    {
      errors := [];
      warnings := [];
      suggestions := [];
    }

    method ValidateSyntax(code: string, parse: string -> ParseOutcome) returns (ok: bool)
      modifies this
      ensures ok <==> parse(code).Parsed?
      ensures errors == old(errors) + SyntaxErrors(parse(code))
      ensures warnings == old(warnings) && suggestions == old(suggestions)
    {
      match parse(code)
      case Parsed =>
        ok := true;
      case SyntaxError(lineno, msg) =>
        errors := errors + [SyntaxErrorMessage(lineno, msg)];
        ok := false;
      case ParseFailure(detail) =>
        errors := errors + [ParseErrorMessage(detail)];
        ok := false;
    }

    method ValidateImports(code: string) returns (ok: bool)
      modifies this
      ensures errors == old(errors) + ImportErrors(code)
      ensures ok <==> HasPytestImport(code) && HasPlaywrightImport(code)
      ensures warnings == old(warnings) && suggestions == old(suggestions)
    {
      var pytestFound, playwrightFound := false, false;
      var lines := Split(code, "\n");
      for i := 0 to |lines|
        invariant errors == old(errors) && warnings == old(warnings) && suggestions == old(suggestions)
        invariant pytestFound <==> exists j :: 0 <= j < i && Contains(lines[j], PytestImport)
        invariant playwrightFound <==>
          exists j :: 0 <= j < i && (Contains(lines[j], PlaywrightFrom) || Contains(lines[j], PlaywrightImport))
      {
        if Contains(lines[i], PytestImport) {
          pytestFound := true;
        }
        if Contains(lines[i], PlaywrightFrom) || Contains(lines[i], PlaywrightImport) {
          playwrightFound := true;
        }
      }
      ImportScanIsWholeText(code);
      var required := [("pytest", pytestFound), ("playwright", playwrightFound)];
      assert required == RequiredImports(code);
      ok := AppendMissingImports(required);
    }

    /** The second loop of `validate_imports`: one error per library whose
        flag is false, in order; true iff every flag is true. */
    method AppendMissingImports(required: seq<(string, bool)>) returns (allPresent: bool)
      modifies this
      ensures errors == old(errors) + MissingImportErrors(required)
      ensures allPresent <==> forall j :: 0 <= j < |required| ==> required[j].1
      ensures warnings == old(warnings) && suggestions == old(suggestions)
    {
      allPresent := true;
      for k := 0 to |required|
        invariant errors == old(errors) + MissingImportErrors(required[..k])
        invariant warnings == old(warnings) && suggestions == old(suggestions)
        invariant allPresent <==> forall j :: 0 <= j < k ==> required[j].1
      {
        MissingImportErrorsStep(required, k);
        var (lib, present) := required[k];
        if !present {
          errors := errors + [MissingImportMessage(lib)];
          allPresent := false;
        }
      }
      assert required[..|required|] == required;
    }

    method ValidateFixtures(code: string) returns (ok: bool)
      modifies this
      ensures errors == old(errors) + FixtureErrors(code)
      ensures ok <==> HasBrowserFixture(code) && HasPageFixture(code)
      ensures warnings == old(warnings) && suggestions == old(suggestions)
    {
      var hasBrowserFixture := Contains(code, FixtureMarker) && Contains(code, BrowserDef);
      var hasPageFixture := Contains(code, FixtureMarker) && Contains(code, PageDef);
      ok := true;
      if !hasBrowserFixture {
        errors := errors + [MissingBrowserFixture];
        ok := false;
      }
      if !hasPageFixture {
        errors := errors + [MissingPageFixture];
        ok := false;
      }
    }

    method ValidateAsyncAwait(code: string) returns (ok: bool)
      modifies this
      ensures warnings == old(warnings) + AsyncioWarnings(code, TestNames(code)) + AwaitWarnings(code, PlaywrightMethods)
      ensures ok <==> forall n | n in TestNames(code) :: Decorated(code, n)
      ensures errors == old(errors) && suggestions == old(suggestions)
    {
      var issuesFound := false;
      var testFunctions := TestNames(code);
      for i := 0 to |testFunctions|
        invariant warnings == old(warnings) + AsyncioWarnings(code, testFunctions[..i])
        invariant errors == old(errors) && suggestions == old(suggestions)
        invariant issuesFound <==> AsyncioWarnings(code, testFunctions[..i]) != []
      {
        AsyncioWarningsStep(code, testFunctions, i);
        var testName := testFunctions[i];
        if !Decorated(code, testName) {
          warnings := warnings + [MissingAsyncioMessage(testName)];
          issuesFound := true;
        }
      }
      assert testFunctions[..|testFunctions|] == testFunctions;
      AppendAwaitWarnings(code, PlaywrightMethods);
      AsyncioWarningsNoneIff(code, testFunctions);
      ok := !issuesFound;
    }

    /** The second loop of `validate_async_await`: one warning per method in
        `methods` that is called but never awaited, in list order. */
    method AppendAwaitWarnings(code: string, methods: seq<string>)
      modifies this
      ensures warnings == old(warnings) + AwaitWarnings(code, methods)
      ensures errors == old(errors) && suggestions == old(suggestions)
    {
      for i := 0 to |methods|
        invariant warnings == old(warnings) + AwaitWarnings(code, methods[..i])
        invariant errors == old(errors) && suggestions == old(suggestions)
      {
        AwaitWarningsStep(code, methods, i);
        var m := methods[i];
        if Called(code, m) && !Awaited(code, m) {
          warnings := warnings + [MissingAwaitMessage(m)];
        }
      }
      assert methods[..|methods|] == methods;
    }

    method ValidateComplexity(code: string) returns (ok: bool)
      modifies this
      ensures warnings == old(warnings) + ComplexityWarnings(code)
      ensures suggestions == old(suggestions) + ComplexitySuggestions(code)
      ensures ok <==> TestCount(code) <= 3 && NonBlankLineCount(code) <= 40 * TestCount(code)
      ensures errors == old(errors)
    {
      var lineCount := NonBlankLineCount(code);
      var testCount := |TestNames(code)|;
      ok := true;
      if testCount > 3 {
        warnings := warnings + [TooManyTestsMessage(testCount)];
        ok := false;
      }
      assert warnings == old(warnings) + ManyTestsWarnings(code);
      var expectedLines := testCount * 20;
      if lineCount > expectedLines * 2 {
        warnings := warnings + [TooLongMessage(lineCount, testCount, expectedLines)];
        ok := false;
      }
      AppendAssoc(old(warnings), ManyTestsWarnings(code), LengthWarnings(code));
      if Contains(code, ClassKeyword) && Contains(code, PageWord) {
        if testCount <= 2 {
          suggestions := suggestions + [PageObjectSuggestion];
        }
      }
      assert suggestions == old(suggestions) + PageObjectSuggestions(code);
      if Contains(code, ParametrizeMarker) {
        suggestions := suggestions + [ParametrizeSuggestion];
      }
      AppendAssoc(old(suggestions), PageObjectSuggestions(code), ParametrizeSuggestions(code));
    }

    /** Clears the three lists, runs the five checks in order and returns
        copies of the lists; the result depends on `code` alone. */
    method ValidateCode(code: string, parse: string -> ParseOutcome) returns (result: ValidationResult)
      modifies this
      ensures result == Validate(code, parse)
      ensures errors == result.errors && warnings == result.warnings && suggestions == result.suggestions
    {
      errors := [];
      warnings := [];
      suggestions := [];
      var syntaxValid := ValidateSyntax(code, parse);
      var importsValid := ValidateImports(code);
      var fixturesValid := ValidateFixtures(code);
      EmptyAppend(SyntaxErrors(parse(code)));
      assert errors == SyntaxErrors(parse(code)) + ImportErrors(code) + FixtureErrors(code);
      var asyncValid := ValidateAsyncAwait(code);
      EmptyAppend(AsyncioWarnings(code, TestNames(code)));
      assert warnings == AsyncioWarnings(code, TestNames(code)) + AwaitWarnings(code, PlaywrightMethods);
      ghost var passed := warnings;
      var complexityOk := ValidateComplexity(code);
      assert warnings == passed + ComplexityWarnings(code);
      assert warnings == AsyncioWarnings(code, TestNames(code)) + AwaitWarnings(code, PlaywrightMethods) + ComplexityWarnings(code);
      assert suggestions == ComplexitySuggestions(code);
      var isValid := |errors| == 0;
      result := ValidationResult(isValid, errors, warnings, suggestions);
    }
  }

  // ---------------------------------------------------------------------------
  // What the checks mean

  lemma AppendAssoc(a: seq<string>, b: seq<string>, c: seq<string>)
    ensures a + b + c == a + (b + c)
  {
  }

  lemma EmptyAppend(a: seq<string>)
    ensures [] + a == a
  {
  }

  /** One more name adds at most its own warning. */
  lemma AsyncioWarningsStep(code: string, names: seq<string>, i: nat)
    requires i < |names|
    ensures AsyncioWarnings(code, names[..i + 1])
      == AsyncioWarnings(code, names[..i]) + (if Decorated(code, names[i]) then [] else [MissingAsyncioMessage(names[i])])
  {
    assert names[..i + 1][..i] == names[..i];
  }

  /** One more method adds at most its own warning. */
  lemma AwaitWarningsStep(code: string, methods: seq<string>, i: nat)
    requires i < |methods|
    ensures AwaitWarnings(code, methods[..i + 1])
      == AwaitWarnings(code, methods[..i]) + (if Called(code, methods[i]) && !Awaited(code, methods[i]) then [MissingAwaitMessage(methods[i])] else [])
  {
    assert methods[..i + 1][..i] == methods[..i];
  }

  /** The line-by-line import scan finds a library iff its needle occurs
      anywhere in the text: no needle contains a newline. */
  lemma ImportScanIsWholeText(code: string)
    ensures HasPytestImport(code) <==>
      exists j :: 0 <= j < |Split(code, "\n")| && Contains(Split(code, "\n")[j], PytestImport)
    ensures HasPlaywrightImport(code) <==>
      exists j :: 0 <= j < |Split(code, "\n")| &&
        (Contains(Split(code, "\n")[j], PlaywrightFrom) || Contains(Split(code, "\n")[j], PlaywrightImport))
  {
    assert '\n' !in PytestImport && '\n' !in PlaywrightFrom && '\n' !in PlaywrightImport;
    ContainsIffSomePiece(code, '\n', PytestImport);
    ContainsIffSomePiece(code, '\n', PlaywrightFrom);
    ContainsIffSomePiece(code, '\n', PlaywrightImport);
  }

  /** One "missing import" error per missing library, pytest first. */
  lemma ImportErrorsExact(code: string)
    ensures MissingImportMessage("pytest") in ImportErrors(code) <==> !HasPytestImport(code)
    ensures MissingImportMessage("playwright") in ImportErrors(code) <==> !HasPlaywrightImport(code)
    ensures |ImportErrors(code)| == (if HasPytestImport(code) then 0 else 1) + (if HasPlaywrightImport(code) then 0 else 1)
    ensures !HasPytestImport(code) ==> ImportErrors(code)[0] == MissingImportMessage("pytest")
  {
    MissingImportErrorsOfTwo(("pytest", HasPytestImport(code)), ("playwright", HasPlaywrightImport(code)));
    assert MissingImportMessage("pytest") != MissingImportMessage("playwright");
  }

  /** Each fixture error appears iff that fixture is missing, at most once, browser first. */
  lemma FixtureErrorsExact(code: string)
    ensures MissingBrowserFixture in FixtureErrors(code) <==> !HasBrowserFixture(code)
    ensures MissingPageFixture in FixtureErrors(code) <==> !HasPageFixture(code)
    ensures |FixtureErrors(code)| == (if HasBrowserFixture(code) then 0 else 1) + (if HasPageFixture(code) then 0 else 1)
    ensures !HasBrowserFixture(code) ==> FixtureErrors(code)[0] == MissingBrowserFixture
  {
    assert MissingBrowserFixture != MissingPageFixture;
  }

  lemma MessageInjective(pre: string, a: string, b: string, post: string)
    requires pre + a + post == pre + b + post
    ensures a == b
  {
    var s := pre + a + post;
    assert |a| == |b|;
    assert s[|pre|..|pre| + |a|] == a;
    assert (pre + b + post)[|pre|..|pre| + |b|] == b;
  }

  lemma AsyncioMessageInjective(a: string, b: string)
    requires MissingAsyncioMessage(a) == MissingAsyncioMessage(b)
    ensures a == b
  {
    MessageInjective("Test '", a, b, "' es async pero falta @pytest.mark.asyncio");
  }

  lemma AwaitMessageInjective(a: string, b: string)
    requires MissingAwaitMessage(a) == MissingAwaitMessage(b)
    ensures a == b
  {
    MessageInjective("Método 'page.", a, b, "()' debería usar 'await'");
  }

  /** The decorator pass warns about exactly the undecorated names, so it
      finds no issue iff every name is decorated. */
  lemma {:induction false} AsyncioWarningsExact(code: string, names: seq<string>)
    decreases |names|
    ensures AsyncioWarnings(code, names) == [] <==> forall n | n in names :: Decorated(code, n)
    ensures forall n :: MissingAsyncioMessage(n) in AsyncioWarnings(code, names) <==> n in names && !Decorated(code, n)
    ensures |AsyncioWarnings(code, names)| <= |names|
  {
    AsyncioWarningsNoneIff(code, names);
    if |names| > 0 {
      var init := names[..|names| - 1];
      var last := names[|names| - 1];
      AsyncioWarningsExact(code, init);
      assert names == init + [last];
      forall n ensures MissingAsyncioMessage(n) in AsyncioWarnings(code, names) <==> n in names && !Decorated(code, n) {
        if MissingAsyncioMessage(n) == MissingAsyncioMessage(last) {
          AsyncioMessageInjective(n, last);
        }
      }
    }
  }

  /** The decorator pass is silent iff every name is decorated. */
  lemma {:induction false} AsyncioWarningsNoneIff(code: string, names: seq<string>)
    decreases |names|
    ensures AsyncioWarnings(code, names) == [] <==> forall n | n in names :: Decorated(code, n)
  {
    if |names| > 0 {
      var init := names[..|names| - 1];
      AsyncioWarningsNoneIff(code, init);
      assert names == init + [names[|names| - 1]];
    }
  }

  /** The await pass warns about exactly the listed methods that are called
      somewhere and awaited nowhere. */
  lemma {:induction false} AwaitWarningsExact(code: string, methods: seq<string>)
    decreases |methods|
    ensures forall m :: MissingAwaitMessage(m) in AwaitWarnings(code, methods) <==> m in methods && Called(code, m) && !Awaited(code, m)
    ensures |AwaitWarnings(code, methods)| <= |methods|
  {
    if |methods| > 0 {
      var init := methods[..|methods| - 1];
      var last := methods[|methods| - 1];
      AwaitWarningsExact(code, init);
      assert methods == init + [last];
      forall m ensures MissingAwaitMessage(m) in AwaitWarnings(code, methods) <==> m in methods && Called(code, m) && !Awaited(code, m) {
        if MissingAwaitMessage(m) == MissingAwaitMessage(last) {
          AwaitMessageInjective(m, last);
        }
      }
    }
  }

  /** A count of non-blank lines is positive iff some line is non-blank. */
  lemma {:induction false} NonBlankCountPositive(lines: seq<string>)
    ensures NonBlankCount(lines) > 0 <==> exists k :: 0 <= k < |lines| && HasNonSpace(lines[k])
  {
    if |lines| > 0 {
      NonBlankCountPositive(lines[1..]);
      assert forall k :: 0 < k < |lines| ==> lines[k] == lines[1..][k - 1];
      if HasNonSpace(lines[0]) {
        assert NonBlankCount(lines) > 0;
      } else if exists k :: 0 <= k < |lines| && HasNonSpace(lines[k]) {
        var k :| 0 <= k < |lines| && HasNonSpace(lines[k]);
        assert HasNonSpace(lines[1..][k - 1]);
      }
    }
  }

  /** The complexity check fails iff it warns. */
  lemma ComplexityFailsIffWarned(code: string)
    ensures (TestCount(code) <= 3 && NonBlankLineCount(code) <= 40 * TestCount(code)) <==> ComplexityWarnings(code) == []
  {
  }

  /** With no test declared, any text with a non-space character is "too long". */
  lemma ZeroTestsAnyLineIsTooLong(code: string)
    requires TestCount(code) == 0 && HasNonSpace(code)
    ensures TooLongMessage(NonBlankLineCount(code), 0, 0) in ComplexityWarnings(code)
    ensures NonBlankLineCount(code) > 40 * TestCount(code)
  {
    NonSpaceIffNonBlankPiece(code);
    NonBlankCountPositive(Split(code, "\n"));
  }

  /** The too-many-tests warning names the count. */
  lemma TooManyTestsNamesCount(count: nat)
    ensures Contains(TooManyTestsMessage(count), NatToString(count))
  {
    ContainsMiddle("Se generaron ", NatToString(count), " tests. " + "Considera simplificar a 1-3 tests principales.");
    assert TooManyTestsMessage(count)
      == "Se generaron " + NatToString(count) + (" tests. " + "Considera simplificar a 1-3 tests principales.");
  }

  /** More than three tests: a warning naming the count; validity is untouched. */
  lemma ManyTestsWarned(code: string, parse: string -> ParseOutcome)
    requires TestCount(code) > 3
    ensures TooManyTestsMessage(TestCount(code)) in Validate(code, parse).warnings
    ensures Contains(TooManyTestsMessage(TestCount(code)), NatToString(TestCount(code)))
    ensures Validate(code, parse).isValid <==> Validate(code, parse).errors == []
  {
    TooManyTestsNamesCount(TestCount(code));
  }

  /** Only errors decide validity: the code is valid iff it parses and has both
      imports and both fixtures, whatever the warnings and suggestions say. */
  lemma ValidIffNoBlockingProblem(code: string, parse: string -> ParseOutcome)
    ensures Validate(code, parse).isValid <==>
      parse(code).Parsed? && HasPytestImport(code) && HasPlaywrightImport(code) && HasBrowserFixture(code) && HasPageFixture(code)
  {
    var v := Validate(code, parse);
    assert v.errors == SyntaxErrors(parse(code)) + ImportErrors(code) + FixtureErrors(code);
    MissingImportErrorsOfTwo(("pytest", HasPytestImport(code)), ("playwright", HasPlaywrightImport(code)));
  }

  /** The position of an error in the fixed order of the checks. */
  function ErrorRank(e: string): (r: nat)
  {
    if e == MissingImportMessage("pytest") then 1
    else if e == MissingImportMessage("playwright") then 2
    else if e == MissingBrowserFixture then 3
    else if e == MissingPageFixture then 4
    else 0
  }

  predicate RanksIncrease(errs: seq<string>) {
    forall i, j :: 0 <= i < j < |errs| ==> ErrorRank(errs[i]) < ErrorRank(errs[j])
  }

  lemma RanksIncreaseAppend(a: seq<string>, b: seq<string>, bound: nat)
    requires RanksIncrease(a) && RanksIncrease(b)
    requires forall i :: 0 <= i < |a| ==> ErrorRank(a[i]) < bound
    requires forall j :: 0 <= j < |b| ==> bound <= ErrorRank(b[j])
    ensures RanksIncrease(a + b)
  {
    forall i, j | 0 <= i < j < |a + b| ensures ErrorRank((a + b)[i]) < ErrorRank((a + b)[j]) {
      if j < |a| {
        assert (a + b)[i] == a[i] && (a + b)[j] == a[j];
      } else if i < |a| {
        assert (a + b)[i] == a[i] && (a + b)[j] == b[j - |a|];
      } else {
        assert (a + b)[i] == b[i - |a|] && (a + b)[j] == b[j - |a|];
      }
    }
  }

  lemma RanksBoundSize(errs: seq<string>)
    requires RanksIncrease(errs)
    ensures |errs| <= 5
  {
    if |errs| > 5 {
      RankAtLeastIndex(errs, 5);
    }
  }

  lemma {:induction false} RankAtLeastIndex(errs: seq<string>, k: nat)
    requires RanksIncrease(errs) && k < |errs|
    ensures ErrorRank(errs[k]) >= k
  {
    if k > 0 {
      RankAtLeastIndex(errs, k - 1);
    }
  }

  /** Parser messages start with 'E', every other error with 'F'. */
  lemma SyntaxErrorRank(outcome: ParseOutcome, e: string)
    requires e in SyntaxErrors(outcome)
    ensures ErrorRank(e) == 0
  {
    assert e[0] == 'E';
    assert MissingImportMessage("pytest")[0] == 'F' && MissingImportMessage("playwright")[0] == 'F';
    assert MissingBrowserFixture[0] == 'F' && MissingPageFixture[0] == 'F';
  }

  lemma KnownRanks()
    ensures ErrorRank(MissingImportMessage("pytest")) == 1
    ensures ErrorRank(MissingImportMessage("playwright")) == 2
    ensures ErrorRank(MissingBrowserFixture) == 3
    ensures ErrorRank(MissingPageFixture) == 4
  {
    assert MissingImportMessage("pytest")[6] == 'i' && MissingImportMessage("playwright")[6] == 'i';
    assert MissingImportMessage("pytest")[25] == 'y' && MissingImportMessage("playwright")[25] == 'l';
    assert MissingBrowserFixture[6] == 'f' && MissingPageFixture[6] == 'f';
    assert MissingBrowserFixture[15] == 'b' && MissingPageFixture[15] == 'p';
  }

  /** Errors always come in the order of the checks: at most one syntax error,
      then pytest before playwright, then browser before page; so at most five. */
  lemma ErrorsInCheckOrder(code: string, parse: string -> ParseOutcome)
    ensures RanksIncrease(Validate(code, parse).errors)
    ensures |Validate(code, parse).errors| <= 5
  {
    var syn := SyntaxErrors(parse(code));
    var imp := ImportErrors(code);
    var fix := FixtureErrors(code);
    assert Validate(code, parse).errors == syn + imp + fix;
    SyntaxRanks(parse(code));
    ImportRanks(code);
    FixtureRanks(code);
    RanksIncreaseAppend(syn, imp, 1);
    RanksBelowAppend(syn, imp, 3);
    RanksIncreaseAppend(syn + imp, fix, 3);
    RanksBoundSize(syn + imp + fix);
  }

  lemma SyntaxRanks(outcome: ParseOutcome)
    ensures RanksIncrease(SyntaxErrors(outcome))
    ensures forall i :: 0 <= i < |SyntaxErrors(outcome)| ==> ErrorRank(SyntaxErrors(outcome)[i]) < 1
  {
    var syn := SyntaxErrors(outcome);
    forall i | 0 <= i < |syn| ensures ErrorRank(syn[i]) == 0 {
      SyntaxErrorRank(outcome, syn[i]);
    }
  }

  lemma ImportRanks(code: string)
    ensures RanksIncrease(ImportErrors(code))
    ensures forall i :: 0 <= i < |ImportErrors(code)| ==> 1 <= ErrorRank(ImportErrors(code)[i]) < 3
  {
    KnownRanks();
    MissingImportErrorsOfTwo(("pytest", HasPytestImport(code)), ("playwright", HasPlaywrightImport(code)));
  }

  lemma FixtureRanks(code: string)
    ensures RanksIncrease(FixtureErrors(code))
    ensures forall i :: 0 <= i < |FixtureErrors(code)| ==> 3 <= ErrorRank(FixtureErrors(code)[i])
  {
    KnownRanks();
  }

  lemma RanksBelowAppend(a: seq<string>, b: seq<string>, bound: nat)
    requires forall i :: 0 <= i < |a| ==> ErrorRank(a[i]) < bound
    requires forall i :: 0 <= i < |b| ==> ErrorRank(b[i]) < bound
    ensures forall i :: 0 <= i < |a + b| ==> ErrorRank((a + b)[i]) < bound
  {
    forall i | 0 <= i < |a + b| ensures ErrorRank((a + b)[i]) < bound {
      if i >= |a| {
        assert (a + b)[i] == b[i - |a|];
      }
    }
  }

  /** `__str__` opens with the success header iff the result is valid. */
  lemma RenderedHeader(r: ValidationResult)
    ensures r.Lines()[0] == SuccessHeader <==> r.isValid
    ensures OccursAt(Join(r.Lines(), "\n"), SuccessHeader, 0) <==> r.isValid
  {
    var lines := r.Lines();
    JoinStartsWithFirst(lines, "\n");
    assert SuccessHeader[0] != FailureHeader[0];
    if !r.isValid {
      assert Join(lines, "\n")[0] == FailureHeader[0];
    }
  }

  lemma JoinStartsWithFirst(parts: seq<string>, sep: string)
    requires |parts| > 0
    ensures OccursAt(Join(parts, sep), parts[0], 0)
  {
    if |parts| > 1 {
      assert Join(parts, sep) == parts[0] + (sep + Join(parts[1..], sep));
    }
  }

  /** The layout of `__str__`: header, then the error, warning and suggestion
      sections in that order; each section present iff its list is non-empty,
      with one `"  - " + item` line per item in list order. */
  lemma RenderedLayout(r: ValidationResult)
    ensures |r.Lines()| == 1 + SectionSize(r.errors) + SectionSize(r.warnings) + SectionSize(r.suggestions)
    ensures |r.errors| > 0 ==> (
      r.Lines()[1] == ErrorsHeader &&
      forall k :: 0 <= k < |r.errors| ==> r.Lines()[2 + k] == ItemPrefix + r.errors[k])
    ensures |r.warnings| > 0 ==> (
      r.Lines()[1 + SectionSize(r.errors)] == WarningsHeader &&
      forall k :: 0 <= k < |r.warnings| ==> r.Lines()[2 + SectionSize(r.errors) + k] == ItemPrefix + r.warnings[k])
    ensures |r.suggestions| > 0 ==> (
      r.Lines()[1 + SectionSize(r.errors) + SectionSize(r.warnings)] == SuggestionsHeader &&
      forall k :: 0 <= k < |r.suggestions| ==>
        r.Lines()[2 + SectionSize(r.errors) + SectionSize(r.warnings) + k] == ItemPrefix + r.suggestions[k])
  {
    var h := [if r.isValid then SuccessHeader else FailureHeader];
    var e := Section(ErrorsHeader, r.errors);
    var w := Section(WarningsHeader, r.warnings);
    var s := Section(SuggestionsHeader, r.suggestions);
    assert |e| == SectionSize(r.errors) && |w| == SectionSize(r.warnings) && |s| == SectionSize(r.suggestions);
    assert r.Lines() == h + e + w + s;
  }
}
