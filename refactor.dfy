/**
 * The refactor pipeline for generated code: an empty intent returns the code, the lexical
 * `use const` rule rewrites whole-word `let` and `var`, and an optional AI step replaces the
 * code with a completion when it succeeds and keeps the rule-stage code when it fails.
 */
module Refactor {
  import opened Wrappers
  import opened Text

  /** A non-empty string whose characters are all word characters or all not. */
  predicate Uniform(t: string) {
    t != [] && forall i :: 0 <= i < |t| ==> IsWordChar(t[i]) == IsWordChar(t[0])
  }

  /** A string made only of word characters, such as `let`, `var` and `const`. */
  predicate IsWord(w: string) {
    w != [] && forall i :: 0 <= i < |w| ==> IsWordChar(w[i])
  }

  /** Runs that are uniform and alternate between word and non-word characters: maximal runs. */
  predicate WellFormed(runs: seq<string>) {
    && (forall k :: 0 <= k < |runs| ==> Uniform(runs[k]))
    && (forall k :: 0 <= k < |runs| - 1 ==> IsWordChar(runs[k][0]) != IsWordChar(runs[k + 1][0]))
  }

  function Concat(runs: seq<string>): string
    decreases |runs|
  {
    if runs == [] then "" else runs[0] + Concat(runs[1..])
  }

  /** The text of run `k` sits between the runs before it and the runs after it. */
  lemma {:induction false} ConcatSplit(runs: seq<string>, k: nat)
    requires k < |runs|
    ensures Concat(runs) == Concat(runs[..k]) + runs[k] + Concat(runs[k + 1..])
    decreases k
  {
    if k == 0 {
      assert runs[..0] == [];
    } else {
      var rest := runs[1..];
      ConcatSplit(rest, k - 1);
      assert rest[..k - 1] == runs[..k][1..];
      assert rest[k..] == runs[k + 1..];
      assert rest[k - 1] == runs[k];
    }
  }

  /** A character of the same class as the first run joins that run. */
  lemma JoinRun(c: char, rest: seq<string>)
    requires WellFormed(rest) && rest != [] && IsWordChar(rest[0][0]) == IsWordChar(c)
    ensures WellFormed([[c] + rest[0]] + rest[1..])
    ensures Concat([[c] + rest[0]] + rest[1..]) == [c] + Concat(rest)
  {
    var first := [c] + rest[0];
    var runs := [first] + rest[1..];
    forall i | 0 <= i < |first| ensures IsWordChar(first[i]) == IsWordChar(first[0]) {
      if i > 0 {
        assert first[i] == rest[0][i - 1];
      }
    }
    forall k | 0 <= k < |runs| ensures Uniform(runs[k]) {
      if k > 0 {
        assert runs[k] == rest[k];
      }
    }
    forall k | 0 <= k < |runs| - 1 ensures IsWordChar(runs[k][0]) != IsWordChar(runs[k + 1][0]) {
      assert runs[k + 1] == rest[k + 1];
      if k > 0 {
        assert runs[k] == rest[k];
      }
    }
    assert Concat(rest) == rest[0] + Concat(rest[1..]);
    assert runs[1..] == rest[1..];
  }

  /** A character of the other class than the first run starts a run of its own. */
  lemma StartRun(c: char, rest: seq<string>)
    requires WellFormed(rest) && (rest != [] ==> IsWordChar(rest[0][0]) != IsWordChar(c))
    ensures WellFormed([[c]] + rest)
    ensures Concat([[c]] + rest) == [c] + Concat(rest)
  {
    var runs := [[c]] + rest;
    assert runs[1..] == rest;
    assert forall k :: 0 < k < |runs| ==> runs[k] == rest[k - 1];
  }

  /** The maximal runs of word characters and of other characters that make up `s`. A match of
      `/\bw\b/` for a word `w` is exactly a maximal run equal to `w`, at that run's offset
      (`WholeWordIffRun`). */
  function Runs(s: string): (runs: seq<string>)
    ensures runs == [] <==> s == []
    ensures s != [] ==> runs[0] != [] && runs[0][0] == s[0]
    decreases |s|
  {
    if s == [] then []
    else
      var rest := Runs(s[1..]);
      if rest != [] && IsWordChar(rest[0][0]) == IsWordChar(s[0]) then
        [[s[0]] + rest[0]] + rest[1..]
      else
        [[s[0]]] + rest
  }

  /** The runs are maximal and make up the text: they are uniform, alternate in class, and
      concatenate back to `s`. */
  lemma {:induction false} RunsMaximal(s: string)
    ensures WellFormed(Runs(s))
    ensures Concat(Runs(s)) == s
    decreases |s|
  {
    if s != [] {
      var rest := Runs(s[1..]);
      RunsMaximal(s[1..]);
      assert [s[0]] + s[1..] == s;
      if rest != [] && IsWordChar(rest[0][0]) == IsWordChar(s[0]) {
        JoinRun(s[0], rest);
      } else {
        StartRun(s[0], rest);
      }
    }
  }

  /** A uniform run in front of text whose first run has the other class stays a run of its own. */
  lemma {:induction false} RunsPrepend(t: string, tail: string)
    requires Uniform(t)
    requires tail != [] ==> IsWordChar(tail[0]) != IsWordChar(t[0])
    ensures Runs(t + tail) == [t] + Runs(tail)
    decreases |t|
  {
    var s := t + tail;
    if |t| == 1 {
      assert Runs(s) == [t] + Runs(tail) by {
        assert s[1..] == tail;
        assert [s[0]] == t;
        var rest := Runs(tail);
        assert rest != [] ==> rest[0][0] == tail[0];
      }
    } else {
      var t' := t[1..];
      assert Uniform(t') by {
        forall i | 0 <= i < |t'| ensures IsWordChar(t'[i]) == IsWordChar(t'[0]) {
          assert t'[i] == t[i + 1];
        }
      }
      RunsPrepend(t', tail);
      assert Runs(s) == [t] + Runs(tail) by {
        assert s[1..] == t' + tail;
        var rest := Runs(s[1..]);
        assert rest == [t'] + Runs(tail);
        assert rest[0] == t' && rest[1..] == Runs(tail);
        assert IsWordChar(rest[0][0]) == IsWordChar(s[0]);
        assert [s[0]] + t' == t;
      }
    }
  }

  /** Concatenating maximal runs and splitting again gives the same runs. */
  lemma {:induction false} RunsOfConcat(runs: seq<string>)
    requires WellFormed(runs)
    ensures Runs(Concat(runs)) == runs
    decreases |runs|
  {
    if runs != [] {
      var rest := runs[1..];
      assert WellFormed(rest) by {
        forall k | 0 <= k < |rest| - 1 ensures IsWordChar(rest[k][0]) != IsWordChar(rest[k + 1][0]) {
          assert rest[k] == runs[k + 1] && rest[k + 1] == runs[k + 2];
        }
      }
      RunsOfConcat(rest);
      var tail := Concat(rest);
      assert tail != [] ==> tail[0] == rest[0][0] && IsWordChar(tail[0]) != IsWordChar(runs[0][0]);
      RunsPrepend(runs[0], tail);
      assert [runs[0]] + rest == runs;
    }
  }

  /** Each run equal to `word` replaced by `rep`. */
  function ReplaceRuns(runs: seq<string>, word: string, rep: string): (r: seq<string>)
    ensures |r| == |runs|
    ensures forall k :: 0 <= k < |runs| ==> r[k] == if runs[k] == word then rep else runs[k]
  {
    seq(|runs|, k requires 0 <= k < |runs| => if runs[k] == word then rep else runs[k])
  }

  /** Every whole-word occurrence of the word `word` in `s` replaced by the word `rep`. */
  function ReplaceWord(s: string, word: string, rep: string): string
    requires IsWord(word) && IsWord(rep)
  {
    Concat(ReplaceRuns(Runs(s), word, rep))
  }

  /** Replacing a whole word by another word keeps the run structure: run `k` of the result is
      `rep` where run `k` of `s` was `word`, and run `k` of `s` everywhere else. */
  lemma RunsOfReplaceWord(s: string, word: string, rep: string)
    requires IsWord(word) && IsWord(rep)
    ensures Runs(ReplaceWord(s, word, rep)) == ReplaceRuns(Runs(s), word, rep)
  {
    var runs := Runs(s);
    RunsMaximal(s);
    var r := ReplaceRuns(runs, word, rep);
    assert WellFormed(r) by {
      forall k | 0 <= k < |r| ensures Uniform(r[k]) && IsWordChar(r[k][0]) == IsWordChar(runs[k][0]) {
        if runs[k] == word {
          assert IsWordChar(rep[0]) && IsWordChar(word[0]);
        }
      }
      forall k | 0 <= k < |r| - 1 ensures IsWordChar(r[k][0]) != IsWordChar(r[k + 1][0]) {
        assert IsWordChar(runs[k][0]) != IsWordChar(runs[k + 1][0]);
      }
    }
    RunsOfConcat(r);
  }

  /** The `use const` rule: every whole-word `let`, and then every whole-word `var`, becomes `const`. */
  function UseConst(code: string): string {
    assert IsWord("let") && IsWord("var") && IsWord("const");
    ReplaceWord(ReplaceWord(code, "let", "const"), "var", "const")
  }

  /** After the rule, the runs of the code are those of the input with each `let` and `var`
      run replaced by `const`; so no whole-word `let` or `var` remains and all other text is as it was. */
  lemma UseConstRuns(code: string)
    ensures |Runs(UseConst(code))| == |Runs(code)|
    ensures forall k :: 0 <= k < |Runs(code)| ==>
      Runs(UseConst(code))[k] == if Runs(code)[k] == "let" || Runs(code)[k] == "var" then "const" else Runs(code)[k]
    ensures forall k :: 0 <= k < |Runs(UseConst(code))| ==>
      Runs(UseConst(code))[k] != "let" && Runs(UseConst(code))[k] != "var"
  {
    assert IsWord("let") && IsWord("var") && IsWord("const");
    RunsOfReplaceWord(code, "let", "const");
    RunsOfReplaceWord(ReplaceWord(code, "let", "const"), "var", "const");
  }

  /** Applying the rule to its own output changes nothing more. */
  lemma UseConstIdempotent(code: string)
    ensures UseConst(UseConst(code)) == UseConst(code)
  {
    var once := UseConst(code);
    UseConstRuns(code);
    UseConstRuns(once);
    RunsMaximal(UseConst(once));
    RunsMaximal(once);
    assert Runs(UseConst(once)) == Runs(once);
    assert Concat(Runs(UseConst(once))) == Concat(Runs(once));
  }

  /** Code without a `let` or `var` run passes through the rule unchanged. */
  lemma UseConstKeepsOtherCode(code: string)
    requires forall k :: 0 <= k < |Runs(code)| ==> Runs(code)[k] != "let" && Runs(code)[k] != "var"
    ensures UseConst(code) == code
  {
    UseConstRuns(code);
    RunsMaximal(UseConst(code));
    RunsMaximal(code);
    assert Runs(UseConst(code)) == Runs(code);
    assert Concat(Runs(UseConst(code))) == Concat(Runs(code));
  }

  /** A match of `/\bw\b/` at position `i` of `s`: `w` occurs there, and no word character
      touches it on either side. */
  predicate WholeWordAt(s: string, i: nat, w: string) {
    && i + |w| <= |s|
    && s[i..i + |w|] == w
    && (i == 0 || !IsWordChar(s[i - 1]))
    && (i + |w| == |s| || !IsWordChar(s[i + |w|]))
  }

  /** Two word prefixes of `s` that both end at a word boundary have the same length. */
  lemma BoundaryUnique(s: string, m: nat, n: nat)
    requires m <= |s| && n <= |s|
    requires forall q :: 0 <= q < m ==> IsWordChar(s[q])
    requires forall q :: 0 <= q < n ==> IsWordChar(s[q])
    requires m < |s| ==> !IsWordChar(s[m])
    requires n < |s| ==> !IsWordChar(s[n])
    ensures m == n
  {
  }

  /** In text made of maximal runs, every whole-word match of a word is the run that starts
      at the match's position. */
  lemma {:induction false} WholeWordIsRun(runs: seq<string>, i: nat, w: string)
    requires WellFormed(runs) && IsWord(w) && WholeWordAt(Concat(runs), i, w)
    ensures exists k :: 0 <= k < |runs| && runs[k] == w && |Concat(runs[..k])| == i
    decreases |runs|
  {
    var s := Concat(runs);
    var head := runs[0];
    var rest := runs[1..];
    var tail := Concat(rest);
    assert s == head + tail;
    if i < |head| {
      assert runs[0] == w && |Concat(runs[..0])| == i by {
        assert s[i] == head[i] && s[i] == w[0];
        assert IsWordChar(head[0]);
        if i > 0 {
          assert false;
        }
        assert |head| < |s| ==> !IsWordChar(s[|head|]) by {
          if rest != [] {
            assert tail == rest[0] + Concat(rest[1..]);
            assert s[|head|] == rest[0][0];
          }
        }
        assert forall q :: 0 <= q < |head| ==> s[q] == head[q];
        assert forall q :: 0 <= q < |w| ==> s[q] == w[q];
        BoundaryUnique(s, |head|, |w|);
        assert head == s[..|w|];
        assert runs[..0] == [];
      }
    } else {
      var j := i - |head|;
      assert WellFormed(rest) && WholeWordAt(tail, j, w) by {
        forall k | 0 <= k < |rest| - 1 ensures IsWordChar(rest[k][0]) != IsWordChar(rest[k + 1][0]) {
          assert rest[k] == runs[k + 1] && rest[k + 1] == runs[k + 2];
        }
        assert tail[j..j + |w|] == s[i..i + |w|];
        assert j > 0 ==> tail[j - 1] == s[i - 1];
        assert j + |w| < |tail| ==> tail[j + |w|] == s[i + |w|];
        assert j == 0 ==> !IsWordChar(s[i - 1]) by {
          if j == 0 {
            assert s[i - 1] == head[|head| - 1];
            assert IsWordChar(head[|head| - 1]) == IsWordChar(head[0]);
            assert rest != [] && tail == rest[0] + Concat(rest[1..]);
            assert IsWordChar(rest[0][0]) && rest[0][0] == w[0];
          }
        }
      }
      WholeWordIsRun(rest, j, w);
      var k :| 0 <= k < |rest| && rest[k] == w && |Concat(rest[..k])| == j;
      assert runs[k + 1] == w;
      assert runs[..k + 1][1..] == rest[..k];
    }
  }

  /** Conversely, in text made of maximal runs, every run equal to a word is a whole-word match
      of it at the run's offset. */
  lemma RunIsWholeWord(runs: seq<string>, k: nat, w: string)
    requires WellFormed(runs) && IsWord(w) && k < |runs| && runs[k] == w
    ensures WholeWordAt(Concat(runs), |Concat(runs[..k])|, w)
  {
    var before := Concat(runs[..k]);
    var after := Concat(runs[k + 1..]);
    var s := Concat(runs);
    var i := |before|;
    ConcatSplit(runs, k);
    assert s[i..i + |w|] == w;
    if k > 0 {
      assert !IsWordChar(s[i - 1]) by {
        var prefix := runs[..k];
        ConcatSplit(prefix, k - 1);
        assert prefix[k..] == [];
        assert prefix[..k - 1] == runs[..k - 1];
        var last := runs[k - 1];
        assert before == Concat(runs[..k - 1]) + last;
        assert s[i - 1] == last[|last| - 1];
        assert IsWordChar(last[|last| - 1]) == IsWordChar(last[0]);
        assert IsWordChar(last[0]) != IsWordChar(w[0]);
      }
    }
    if k + 1 < |runs| {
      assert !IsWordChar(s[i + |w|]) by {
        var rest := runs[k + 1..];
        assert after == rest[0] + Concat(rest[1..]);
        assert s[i + |w|] == runs[k + 1][0];
        assert IsWordChar(runs[k][0]) != IsWordChar(runs[k + 1][0]);
      }
    } else {
      assert runs[k + 1..] == [];
    }
  }

  /** A whole-word match of `w` at position `i` of `s` is exactly a maximal run of `s` equal to
      `w` that starts at `i`. */
  lemma WholeWordIffRun(s: string, i: nat, w: string)
    requires IsWord(w)
    ensures WholeWordAt(s, i, w) <==>
      exists k :: 0 <= k < |Runs(s)| && Runs(s)[k] == w && |Concat(Runs(s)[..k])| == i
  {
    var runs := Runs(s);
    RunsMaximal(s);
    if WholeWordAt(s, i, w) {
      WholeWordIsRun(runs, i, w);
    }
    if exists k :: 0 <= k < |runs| && runs[k] == w && |Concat(runs[..k])| == i {
      var k :| 0 <= k < |runs| && runs[k] == w && |Concat(runs[..k])| == i;
      RunIsWholeWord(runs, k, w);
    }
  }

  /** After the `use const` rule no whole-word `let` or `var` is left anywhere in the code. */
  lemma UseConstLeavesNoLetOrVar(code: string, i: nat)
    ensures !WholeWordAt(UseConst(code), i, "let")
    ensures !WholeWordAt(UseConst(code), i, "var")
  {
    var out := UseConst(code);
    var runs := Runs(out);
    RunsMaximal(out);
    assert IsWord("let") && IsWord("var");
    assert !WholeWordAt(out, i, "let") by {
      if WholeWordAt(out, i, "let") {
        WholeWordIsRun(runs, i, "let");
        var k :| 0 <= k < |runs| && runs[k] == "let" && |Concat(runs[..k])| == i;
        UseConstRuns(code);
        assert false;
      }
    }
    assert !WholeWordAt(out, i, "var") by {
      if WholeWordAt(out, i, "var") {
        WholeWordIsRun(runs, i, "var");
        var k :| 0 <= k < |runs| && runs[k] == "var" && |Concat(runs[..k])| == i;
        UseConstRuns(code);
        assert false;
      }
    }
  }

  /** The deterministic rule stage. */
  function RuleStage(code: string, intent: string): (r: string)
    ensures !Contains(intent, "use const") ==> r == code
    ensures Contains(intent, "use const") ==> r == UseConst(code)
  {
    if Contains(intent, "use const") then UseConst(code) else code
  }

  /** Why the AI step failed: no API key (thrown before any request), or a non-OK response. */
  datatype AiError = ConfigurationError | UpstreamError(body: string)

  /** `aiRefactorGeneratedCode(code, intent)`. The completion request is the oracle `complete`,
      which gives the trimmed completion or the body of a failed response. */
  function AiRefactor(code: string, intent: string, keyConfigured: bool,
                      complete: (string, string) -> Result<string, string>): (r: Result<string, AiError>)
    ensures !keyConfigured ==> r == Failure(ConfigurationError)
    ensures keyConfigured && complete(code, intent).Success? ==> r == Success(complete(code, intent).value)
    ensures keyConfigured && complete(code, intent).Failure? ==> r == Failure(UpstreamError(complete(code, intent).error))
  {
    if !keyConfigured then Failure(ConfigurationError)
    else
      match complete(code, intent)
      case Success(s) => Success(s)
      case Failure(body) => Failure(UpstreamError(body))
  }

  /** `refactorGeneratedCode(code, intent = '', useAI = true)`: an absent intent is '', an absent
      `useAI` is true. The result is the rule-stage code unless the AI step runs and succeeds; an AI
      failure never escapes. */
  method RefactorGeneratedCode(code: string, intent: Option<string>, useAI: Option<bool>, keyConfigured: bool,
                               complete: (string, string) -> Result<string, string>) returns (result: string)
    ensures intent.GetOr("") == "" ==> result == code
    ensures intent.GetOr("") != "" && !(useAI.GetOr(true) && keyConfigured) ==>
      result == RuleStage(code, intent.GetOr(""))
    ensures intent.GetOr("") != "" && useAI.GetOr(true) && keyConfigured ==>
      var ruled := RuleStage(code, intent.GetOr(""));
      result == if complete(ruled, intent.GetOr("")).Success? then complete(ruled, intent.GetOr("")).value else ruled
  {
    var text := intent.GetOr("");
    result := code;
    if text == "" {
      return;
    }
    if Contains(text, "use const") {
      result := UseConst(result);
    }
    if useAI.GetOr(true) && keyConfigured {
      var refactored := AiRefactor(result, text, keyConfigured, complete);
      if refactored.Success? {
        result := refactored.value;
      }
    }
  }
}
