# Playwright test-code validator and fence cleaner, in Dafny

This project models two parts of an AI-based generator of Playwright browser tests:

- **The static validator** (`src/validators.py`). `CodeValidator` runs five checks over the source text of a generated test:
  - syntax;
  - imports;
  - fixtures;
  - async/await;
  - complexity.

  Each check appends diagnostics to one of three lists: errors, warnings or suggestions. `validate_code` clears the lists, runs the five checks in order and returns a `ValidationResult`. That result is valid exactly when no error was recorded. `ValidationResult.__str__` renders the result as text.
- **The markdown fence cleaner** `AITestGenerator._clean_code_response` (`src/ai_generator.py`). It takes the block after ```` ```python ````, or else the block between the first two ```` ``` ````, and strips the whitespace around it.

Layout:

- `text.dfy` (module `Text`) defines the Python `str` operations the code relies on:
  - `in`, `find`, `split`, `join`;
  - `strip` and `isspace`;
  - the pattern classes `\s` and `\w`;
  - `str(n)`.

  It also proves their properties, such as the split/join round trip.
- `patterns.dfy` (module `Patterns`) writes out the four fixed regular expressions of the validator as predicates on the text:
  - `async def (test_\w+)`, modelled as a `findall` that scans left to right over non-overlapping matches;
  - `@pytest\.mark\.asyncio\s+async def NAME`;
  - `page\.M\(`;
  - `await\s+page\.M\(`.
- `validators.dfy` (module `Validators`) holds the checks and the result rendering:
  - Each check appears twice. A pure function states which diagnostics the check produces from the text. A method of the class `CodeValidator` appends them to the lists step by step, with the same loops and branches as the Python code, and is proved to append exactly what the function says.
  - The second loop of `validate_imports` and the second loop of `validate_async_await` are methods of their own, `AppendMissingImports` and `AppendAwaitWarnings`. The check methods call them at the point where the loop stands in the Python code.
  - `ValidationResult` is a datatype, because the dataclass is never updated after construction. `ToText` is `__str__`, proved equal to joining `Lines()`.
  - Lemmas state what the checks mean.
- `ai_generator.dfy` (module `AiGenerator`) holds `CleanCodeResponse` and its properties.
- `samples.dfy` (module `Samples`) holds the repository's own sample inputs and what validation makes of them:
  - the good and bad code of `test_validator.py`;
  - the indented snippet of `test_complete_workflow.py`.

`ast.parse` is a parameter: a function from the text to a `ParseOutcome`, which is one of:

- `Parsed`;
- `SyntaxError` with an optional line number and a message;
- `ParseFailure`, for any other exception, with its text.

## Model

| member | source | states |
|---|---|---|
| Text.Split | src/validators.py:92 | `split` on a non-empty separator gives at least one piece; two or more exactly when the separator occurs |
| Text.SplitJoin | src/validators.py:92 | joining the pieces of a split with the same separator gives the text back |
| Text.SplitPiecesFree | src/ai_generator.py:190-194 | no piece of a split contains the separator |
| Text.SplitSecond | src/ai_generator.py:190 | `split(sep)[1]` is the text after the first separator, up to the next separator or the end |
| Text.ContainsIffSomePiece | src/validators.py:92-96 | a needle with no newline occurs in the text iff it occurs in one of its lines |
| Text.Strip | src/ai_generator.py:196 | `strip()` has no whitespace at either end; the input is the result with only whitespace added on both sides; a stripped text is unchanged |
| Text.StripEmptyIff | src/validators.py:186 | `line.strip()` is empty (falsy) iff the line has no non-whitespace character, so the non-blank test on lines is the source's `if line.strip()` |
| Text.NonSpaceIffNonBlankPiece | src/validators.py:185-187 | a text has a non-whitespace character iff one of its lines is non-blank |
| Text.NatToStringRoundTrip | src/validators.py:198 | the decimal rendering of a count reads back as the same number |
| Patterns.WordRun | src/validators.py:145 | `\w+` is greedy: it takes the longest run of word characters |
| Patterns.TestNames | src/validators.py:145 | `re.findall(r'async def (test_\w+)', code)`; no contract of its own; its meaning is stated by `TestNamesShape`, `TestNamesDeclared`, `FirstTestDefCaptured` and `TestNamesEmptyIff` |
| Patterns.FirstTestDefCaptured | src/validators.py:145 | completeness: the first place where `async def test_\w+` matches is captured, and its name is the first name `findall` returns |
| Patterns.TestNamesEmptyIff | src/validators.py:190 | `findall` returns nothing (the test count is 0) iff `async def test_\w+` matches nowhere in the text |
| Patterns.TestNamesShape | src/validators.py:145 | every name `findall` captures is `test_` followed by at least one word character |
| Patterns.TestNamesDeclared | src/validators.py:145 | every captured name occurs in the text as `async def NAME` |
| Patterns.NoTestsWithoutDeclaration | src/validators.py:190 | a text without `async def test_` has no tests |
| Patterns.Decorated | src/validators.py:149-150 | `re.search(rf'@pytest\.mark\.asyncio\s+async def {test_name}', code)` as a predicate; no contract of its own; its meaning is stated by `DecoratedIsDeclared`, `DecoratedPrefix` and `DecoratorAbove` |
| Patterns.Called | src/validators.py:164-165 | `re.search(rf'page\.{method}\(', code)` as a predicate; no contract of its own; related to `Awaited` by `AwaitedIsCalled` |
| Patterns.Awaited | src/validators.py:167-168 | `re.search(rf'await\s+page\.{method}\(', code)` as a predicate; no contract of its own; `AwaitedIsCalled` states that it implies `Called` |
| Patterns.DecoratedIsDeclared | src/validators.py:149 | a name the decorator pattern accepts is declared in the text |
| Patterns.DecoratedPrefix | src/validators.py:149 | no word boundary follows the name: a decorated `NAME + suffix` also counts as a decorated `NAME` |
| Patterns.DecoratorAbove | src/validators.py:149 | `@pytest.mark.asyncio` on the line directly above `async def NAME` satisfies the pattern |
| Patterns.AwaitedIsCalled | src/validators.py:164-168 | an awaited call `await page.M(` is also a call `page.M(` |
| Validators.ValidationResult.ToText | src/validators.py:19-43 | `__str__` builds its lines by appending and returns them joined with newlines; it starts with the success header iff the result is valid |
| Validators.AppendBullets | src/validators.py:30-31 | the item loop appends one `"  - " + item` line per item, in order |
| Validators.RenderedHeader | src/validators.py:23-26 | the first line, and the start of the text, is the success header iff the result is valid |
| Validators.RenderedLayout | src/validators.py:28-41 | the header, then the error, warning and suggestion sections in that order; each present iff its list is non-empty, with one bullet line per item in list order |
| Validators.CodeValidator.constructor | src/validators.py:48-52 | a new validator has three empty lists |
| Validators.CodeValidator.ValidateSyntax | src/validators.py:54-74 | true iff the text parses; otherwise one syntax or parse error is appended; the other lists are untouched |
| Validators.CodeValidator.ValidateImports | src/validators.py:76-105 | appends the missing-import errors in dictionary order; true iff `import pytest` and (`from playwright` or `import playwright`) occur |
| Validators.CodeValidator.AppendMissingImports | src/validators.py:99-103 | the loop over the import dictionary appends one error per library whose flag is false, in order, and returns true iff every flag is true |
| Validators.CodeValidator.ValidateFixtures | src/validators.py:107-130 | appends the browser and page fixture errors; true iff both fixtures are present |
| Validators.CodeValidator.ValidateAsyncAwait | src/validators.py:132-173 | appends the decorator warnings, then the await warnings; false iff some test is undecorated; the await warnings never change the result |
| Validators.CodeValidator.AppendAwaitWarnings | src/validators.py:162-171 | the loop over the Playwright methods appends one warning per method that is called but never awaited, in list order |
| Validators.CodeValidator.ValidateComplexity | src/validators.py:175-228 | appends the complexity warnings and suggestions; false iff there are more than 3 tests or more than 40 × tests non-blank lines; suggestions never change the result |
| Validators.CodeValidator.ValidateCode | src/validators.py:230-262 | the result depends on the text alone, not on earlier runs; the lists are left equal to the returned ones |
| Validators.Validate | src/validators.py:230-262 | the result `validate_code` returns, as a function of the text and the parser; no contract of its own; `ValidateCode` is proved to return it, and `ValidIffNoBlockingProblem` and `ErrorsInCheckOrder` state what it means |
| Validators.ImportScanIsWholeText | src/validators.py:92-96 | the line-by-line import scan finds a library iff its needle occurs anywhere in the text |
| Validators.MissingImportErrorsOfTwo | src/validators.py:100-103 | for a two-library dictionary, one error per missing library, first library first |
| Validators.ImportErrorsExact | src/validators.py:99-105 | the error for a library appears iff that library is missing; one error per missing library; pytest comes first |
| Validators.FixtureErrorsExact | src/validators.py:117-128 | the error for a fixture appears iff `@pytest.fixture` or its `async def` line is absent; each at most once; browser comes first |
| Validators.AsyncioMessageInjective | src/validators.py:152 | different test names give different decorator warnings |
| Validators.AwaitMessageInjective | src/validators.py:170 | different methods give different await warnings |
| Validators.AsyncioWarningsExact | src/validators.py:147-154 | warnings name exactly the captured tests that are not decorated; none iff all are decorated; at most one per test |
| Validators.AwaitWarningsExact | src/validators.py:162-171 | warnings name exactly the listed methods that are called but never awaited; at most one per method |
| Validators.NonBlankCountPositive | src/validators.py:186-187 | the non-blank line count is positive iff some line is non-blank |
| Validators.NonBlankLineCount | src/validators.py:185-187 | the number of lines of `code.split("\n")` whose `strip()` is non-empty; no contract of its own; its meaning is stated by `NonBlankCountPositive`, `NonSpaceIffNonBlankPiece` and `StripEmptyIff` |
| Validators.ComplexityFailsIffWarned | src/validators.py:193-211 | the complexity check fails iff it produces a warning |
| Validators.ZeroTestsAnyLineIsTooLong | src/validators.py:204-205 | with no test, any non-whitespace character triggers the length warning; `TestNamesEmptyIff` says when there is no test in terms of the text |
| Validators.TooManyTestsNamesCount | src/validators.py:198 | the too-many-tests warning contains the test count |
| Validators.ManyTestsWarned | src/validators.py:196-201 | with more than three tests the result warns and names the count, and validity still depends only on the errors |
| Validators.ValidIffNoBlockingProblem | src/validators.py:252-255 | the result is valid iff the text parses, has both imports and both fixtures; warnings and suggestions play no part |
| Validators.ErrorsInCheckOrder | src/validators.py:246-248 | errors follow one order: at most one syntax error, then pytest before playwright, then browser before page; at most five |
| AiGenerator.CleanCodeResponse | src/ai_generator.py:178-196 | `_clean_code_response`; no contract of its own; its meaning is stated by `CleanedIsFenceFreeExcerpt`, `NoFenceOnlyStrips`, `CleanIdempotent`, `PlainFenceBlock` and `PythonFenceBlock` |
| AiGenerator.CleanedIsFenceFreeExcerpt | src/ai_generator.py:189-196 | the output is part of the input, has no surrounding whitespace and contains no ```` ``` ```` |
| AiGenerator.NoFenceOnlyStrips | src/ai_generator.py:189-196 | without ```` ``` ```` the input is only stripped |
| AiGenerator.CleanIdempotent | src/ai_generator.py:196 | cleaning a cleaned text changes nothing |
| AiGenerator.PlainFenceBlock | src/ai_generator.py:192-194 | with a plain fence and no ```` ```python ````, the output is the stripped text between the first and second fence, or to the end |
| AiGenerator.FenceBeforePythonFence | src/ai_generator.py:190-191 | unless a backtick directly precedes a ```` ```python ````, the first fence before the next ```` ```python ```` is the first fence at all |
| AiGenerator.PythonFenceBlock | src/ai_generator.py:189-191 | with ```` ```python ```` anywhere, even after a plain fence, the output is the stripped text after its first occurrence, up to the next fence or the end (see Left out) |
| AiGenerator.StrayBackticksMatter | src/ai_generator.py:189-191 | an input on which the block runs on to the next ```` ```python ````, because two stray backticks before it overlap a plain fence |
| Samples.GoodSampleValid | test_validator.py:8-30 | the good sample, when it parses, is valid with no errors |
| Samples.BadSampleErrors | test_validator.py:33-40 | the bad sample, when it parses, has exactly the playwright-import, browser and page errors |
| Samples.SnippetRejected | test_complete_workflow.py:34-42 | the indented snippet is rejected whatever the parser says, with all four import and fixture errors |

## Left out

- `ast.parse` is an opaque parameter. Python's grammar is not modelled, and neither is the text of `e.msg` and `str(e)`.
- Patterns.TestNames: `\w` is modelled as ASCII `[A-Za-z0-9_]`. Python's `str` patterns also match non-ASCII letters and digits. A test name containing them is therefore cut short at the first such character, and a name such as `test_é`, where one comes right after `test_`, is not captured at all.
- `\s` and `strip()` use the `str.isspace` character set. The regular-expression engine itself is not modelled, only the four fixed patterns.
- AiGenerator.PythonFenceBlock: is proved only when, in the text after the first ```` ```python ````, no backtick directly precedes a later ```` ```python ````. Without that, `split("```python")[1]` can end at a ```` ```python ```` whose backticks overlap an earlier ```` ``` ````, and the block then runs on past that fence, as `StrayBackticksMatter` shows.
- `validate_code` returns copies of its lists. Dafny sequences are values, so there is no aliasing to model.
- The emoji headers and the Spanish message wording are kept as constant strings. Their content is not reasoned about beyond what tells one message apart from another.
- The rest of `AITestGenerator` is left out because it is network, environment and logging glue: the API calls, `load_dotenv`, the key lookup and logging.
- `src/prompts.py` is left out: it holds constant templates only.
- `src/simple_generator.py` is left out: it is an API call plus file I/O.
- The driver scripts and the generated tests under `tests/` are left out: they print, call the API or drive a browser.
- Samples: only the errors and validity of the sample inputs are derived. Their warnings and suggestions are not.
- Nothing in the source is concurrent, so no concurrency is modelled.
