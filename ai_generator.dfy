/** The markdown fence cleaner of the test generator
    (`AITestGenerator._clean_code_response` in src/ai_generator.py). */
module AiGenerator {
  import opened Text

  const PythonFence := "```python"
  const Fence := "```"
  const BacktickPythonFence := "````python"

  /** `_clean_code_response`: keeps the block after the first ```` ```python ````
      (or else between the first two ```` ``` ````) and strips it. Both
      `split(...)[1]` are safe: the branch conditions give at least two pieces. */
  function CleanCodeResponse(code: string): (r: string)
  {
    var body :=
      if Contains(code, PythonFence) then Split(Split(code, PythonFence)[1], Fence)[0]
      else if Contains(code, Fence) then Split(Split(code, Fence)[1], Fence)[0]
      else code;
    Strip(body)
  }

  // ---------------------------------------------------------------------------

  lemma FenceInPythonFence()
    ensures Contains(PythonFence, Fence)
  {
    assert OccursAt(PythonFence, Fence, 0);
  }

  /** Every occurrence of ```` ```python ```` starts with an occurrence of ```` ``` ````. */
  lemma PythonFenceIsFence(s: string, i: nat)
    requires OccursAt(s, PythonFence, i)
    ensures OccursAt(s, Fence, i)
  {
    assert s[i..i + |Fence|] == s[i..i + |PythonFence|][..|Fence|];
  }

  /** Each piece of a split is part of the text. */
  lemma SplitPieceContained(s: string, sep: string, k: nat)
    requires |sep| > 0 && k < |Split(s, sep)|
    ensures Contains(s, Split(s, sep)[k])
  {
    var parts := Split(s, sep);
    assert OccursAt(parts[k], parts[k], 0);
    ContainsJoinedPart(parts, sep, k, parts[k]);
    SplitJoin(s, sep);
  }

  /** The cleaned code is part of the response, has no surrounding whitespace
      and contains no ```` ``` ````. */
  lemma {:induction false} CleanedIsFenceFreeExcerpt(code: string)
    ensures IsStripped(CleanCodeResponse(code))
    ensures Contains(code, CleanCodeResponse(code))
    ensures !Contains(CleanCodeResponse(code), Fence)
  {
    var r := CleanCodeResponse(code);
    if Contains(code, PythonFence) || Contains(code, Fence) {
      var outer := if Contains(code, PythonFence) then Split(code, PythonFence) else Split(code, Fence);
      var sep := if Contains(code, PythonFence) then PythonFence else Fence;
      assert outer == Split(code, sep);
      var inner := Split(outer[1], Fence);
      var body := inner[0];
      assert r == Strip(body);
      SplitPieceContained(code, sep, 1);
      SplitPieceContained(outer[1], Fence, 0);
      ContainsTrans(code, outer[1], body);
      StripContained(body);
      ContainsTrans(code, body, r);
      SplitPiecesFree(outer[1], Fence, 0);
      if Contains(r, Fence) {
        ContainsTrans(body, r, Fence);
      }
    } else {
      StripContained(code);
      if Contains(r, Fence) {
        ContainsTrans(code, r, Fence);
      }
    }
  }

  /** Without any fence the response is only stripped. */
  lemma NoFenceOnlyStrips(code: string)
    requires !Contains(code, Fence)
    ensures CleanCodeResponse(code) == Strip(code)
    ensures IsStripped(code) ==> CleanCodeResponse(code) == code
  {
    if Contains(code, PythonFence) {
      FenceInPythonFence();
      ContainsTrans(code, PythonFence, Fence);
    }
  }

  /** Cleaning an already cleaned text changes nothing. */
  lemma CleanIdempotent(code: string)
    ensures CleanCodeResponse(CleanCodeResponse(code)) == CleanCodeResponse(code)
  {
    CleanedIsFenceFreeExcerpt(code);
    NoFenceOnlyStrips(CleanCodeResponse(code));
  }

  /** With a plain fence and no ```` ```python ````, the result is the stripped
      text between the first and the second fence, or to the end of the text
      when there is only one. */
  lemma PlainFenceBlock(code: string)
    requires !Contains(code, PythonFence) && Contains(code, Fence)
    ensures CleanCodeResponse(code) == Strip(Before(After(code, Fence), Fence))
    ensures !Contains(After(code, Fence), Fence) ==> CleanCodeResponse(code) == Strip(After(code, Fence))
  {
    var outer := Split(code, Fence);
    assert CleanCodeResponse(code) == Strip(Split(outer[1], Fence)[0]);
    SplitSecond(code, Fence);
    SplitFirst(outer[1], Fence);
    var rest := After(code, Fence);
    BeforeFree(rest, Fence);
    BeforeAbsent(Before(rest, Fence), Fence);
  }

  /** A ```` ```python ```` that starts less than three places after a
      ```` ``` ```` shares backticks with it, so a backtick directly precedes it. */
  lemma OverlapMakesBacktickPythonFence(s: string, j: nat, i: nat)
    requires OccursAt(s, Fence, j) && OccursAt(s, PythonFence, i) && j < i < j + |Fence|
    ensures OccursAt(s, BacktickPythonFence, i - 1)
  {
    assert s[j..j + 3] == Fence;
    assert s[j..j + 3][i - 1 - j] == s[i - 1] == '`';
    assert s[i..i + 9] == PythonFence;
    assert s[i - 1..i + 9] == [s[i - 1]] + s[i..i + 9];
  }

  /** Unless a backtick directly precedes a ```` ```python ````, the first
      ```` ``` ```` before the next ```` ```python ```` is the first ```` ``` ```` at all. */
  lemma FenceBeforePythonFence(s: string)
    requires !Contains(s, BacktickPythonFence)
    ensures Before(Before(s, PythonFence), Fence) == Before(s, Fence)
  {
    match Find(s, PythonFence)
    case None =>
    case Some(i) =>
      PythonFenceIsFence(s, i);
      var j := Find(s, Fence).value;
      var u := s[..i];
      assert Before(s, PythonFence) == u;
      if j < i {
        if i < j + |Fence| {
          OverlapMakesBacktickPythonFence(s, j, i);
          assert false;
        }
        OccursInWindow(s, 0, i, Fence, j);
        assert s[0..i] == u;
        var f := Find(u, Fence).value;
        OccursInSlice(s, 0, i, Fence, f);
        assert f == j;
      } else {
        if Contains(u, Fence) {
          var f := Find(u, Fence).value;
          OccursInSlice(s, 0, i, Fence, f);
        }
        assert Before(u, Fence) == u;
      }
  }

  /** With ```` ```python ```` anywhere (even after a plain fence), the result is
      the stripped text after its first occurrence up to the next ```` ``` ````,
      or to the end when no fence follows, provided no backtick directly
      precedes a later ```` ```python ````. */
  lemma PythonFenceBlock(code: string)
    requires Contains(code, PythonFence)
    requires !Contains(After(code, PythonFence), BacktickPythonFence)
    ensures CleanCodeResponse(code) == Strip(Before(After(code, PythonFence), Fence))
    ensures !Contains(After(code, PythonFence), Fence) ==> CleanCodeResponse(code) == Strip(After(code, PythonFence))
  {
    var outer := Split(code, PythonFence);
    assert CleanCodeResponse(code) == Strip(Split(outer[1], Fence)[0]);
    SplitSecond(code, PythonFence);
    SplitFirst(outer[1], Fence);
    FenceBeforePythonFence(After(code, PythonFence));
  }

  /** A response whose ```` ```python ```` block ends in two stray backticks
      followed by a second ```` ```python ````. */
  const FenceSample := PythonFence + "x``" + PythonFence
  const FenceSampleRest := "x`````python"

  lemma FenceSampleAfter()
    ensures Contains(FenceSample, PythonFence) && After(FenceSample, PythonFence) == FenceSampleRest
  {
    assert OccursAt(FenceSample, PythonFence, 0);
    assert Find(FenceSample, PythonFence) == Some(0);
  }

  lemma FenceSampleBlock()
    ensures Before(FenceSampleRest, PythonFence) == "x``"
  {
    var rest := FenceSampleRest;
    assert rest[0] != PythonFence[0] && rest[4] != PythonFence[3] && rest[5] != PythonFence[3];
    assert rest[1..10][3] == rest[4] && rest[2..11][3] == rest[5];
    assert !OccursAt(rest, PythonFence, 0) && !OccursAt(rest, PythonFence, 1) && !OccursAt(rest, PythonFence, 2);
    assert OccursAt(rest, PythonFence, 3);
    assert FindFrom(rest, PythonFence, 3) == Some(3);
    assert FindFrom(rest, PythonFence, 0) == Some(3);
  }

  lemma FenceSampleFirstFence()
    ensures Before(FenceSampleRest, Fence) == "x"
    ensures Contains(FenceSampleRest, BacktickPythonFence)
  {
    var rest := FenceSampleRest;
    assert rest[0] != Fence[0];
    assert rest[1..4] == Fence;
    assert FindFrom(rest, Fence, 0) == Some(1);
    assert rest[2..12] == BacktickPythonFence;
    assert OccursAt(rest, BacktickPythonFence, 2);
  }

  /** The hypothesis of `PythonFenceBlock` cannot be dropped: on
      this response the block keeps everything up to the second ```` ```python ````. */
  lemma StrayBackticksMatter()
    ensures Contains(FenceSample, PythonFence)
    ensures Contains(After(FenceSample, PythonFence), BacktickPythonFence)
    ensures CleanCodeResponse(FenceSample) == "x``"
    ensures Strip(Before(After(FenceSample, PythonFence), Fence)) == "x"
  {
    FenceSampleAfter();
    FenceSampleBlock();
    FenceSampleFirstFence();
    SplitSecond(FenceSample, PythonFence);
    assert "x``"[0] != Fence[0];
    assert Find("x``", Fence) == None;
    assert Split("x``", Fence)[0] == "x``";
    assert IsStripped("x``") && IsStripped("x");
  }
}
