/**
 * The older copy of the script, `sandbox/rule_cleanup.py`. Its pass 1, pop,
 * dictionary building and pass 2 are the same code as in `rule_cleanup.py`
 * (the dictionary loop counts to RULE_CNT instead of enumerating `rules`,
 * which is the same range), so it runs the same modelled phases; it has no
 * change test and stops before any upload.
 */
module SandboxRuleCleanup {
  import opened RuleModel
  import opened Dedup
  import RuleCleanup

  /** The sandbox script: the shared phases, ending at the deletion count, with nothing uploaded. */
  method Run(l3: seq<Dict>) returns (res: Result<RuleCleanup.Report, ScriptError>)
    ensures res == RuleCleanup.Evaluation(l3)
    ensures res.Success? ==> res.value.deleted >= 0 && |res.value.rules| == |res.value.b4Compare|
  {
    res := RuleCleanup.Evaluate(l3);
    if res.Success? {
      RuleCleanup.EvaluationUnfolds(l3);
      KeepLastChangedIffShorter(res.value.evalSample);
    }
  }

  /** The "Dup Rule" column marks exactly the rows pass 1 does not keep. */
  lemma DupColumn(l3: seq<Dict>)
    requires RuleCleanup.Evaluation(l3).Success?
    ensures var r := RuleCleanup.Evaluation(l3).value;
            |r.dup| == |l3| &&
            forall i :: 0 <= i < |l3| ==> (r.dup[i] <==> i !in FirstPositions(l3, |l3|))
  {
    RuleCleanup.EvaluationUnfolds(l3);
    forall i | 0 <= i < |l3| {
      FirstPositionsIff(l3, |l3|, i);
    }
  }

  /**
   * The pop takes the last element off `rules` and `b4_compare` together:
   * before it, the two lists were pass 1's kept positions and their ENTRY lists.
   */
  lemma PopBothLists(l3: seq<Dict>)
    requires RuleCleanup.Evaluation(l3).Success?
    ensures var r, kept := RuleCleanup.Evaluation(l3).value, FirstPositions(l3, |l3|);
            |kept| > 0 &&
            r.rules + [kept[|kept| - 1]] == kept &&
            r.b4Compare + [EntryOf(l3[kept[|kept| - 1]])] == RuleCleanup.Entries(l3, kept)
  {
    RuleCleanup.EvaluationUnfolds(l3);
    var kept := FirstPositions(l3, |l3|);
    var last := kept[|kept| - 1];
    assert kept == kept[..|kept| - 1] + [last];
    RuleCleanup.EntriesNext(l3, kept[..|kept| - 1], last);
  }

  /** Each EVAL_SAMPLE entry maps exactly the seven EVAL_KEYS to the `b4_compare` values: no comment. */
  lemma SampleFields(l3: seq<Dict>)
    requires RuleCleanup.Evaluation(l3).Success?
    ensures var r := RuleCleanup.Evaluation(l3).value;
            |r.evalSample| == |r.b4Compare| &&
            forall y :: 0 <= y < |r.evalSample| ==>
              r.evalSample[y].Keys == EvalKeySet && "comment" !in r.evalSample[y] &&
              forall x :: 0 <= x < |EvalKeys| ==> r.evalSample[y][EvalKeys[x]] == r.b4Compare[y][x]
  {
    RuleCleanup.EvaluationUnfolds(l3);
    var r := RuleCleanup.Evaluation(l3).value;
    forall y | 0 <= y < |r.evalSample|
      ensures r.evalSample[y].Keys == EvalKeySet && "comment" !in r.evalSample[y]
      ensures forall x :: 0 <= x < |EvalKeys| ==> r.evalSample[y][EvalKeys[x]] == r.b4Compare[y][x]
    {
      KeyDictFields(r.b4Compare[y]);
    }
  }


  /**
   * EVAL_RESULT is EVAL_SAMPLE with every element dropped that occurs again
   * later: the survivors keep their order, are pairwise different, and every
   * dictionary of the sample is among them.
   */
  lemma Pass2Result(l3: seq<Dict>)
    requires RuleCleanup.Evaluation(l3).Success?
    ensures var r := RuleCleanup.Evaluation(l3).value;
            var kept := LastPositions(r.evalSample, |r.evalSample|);
            Increasing(kept) &&
            r.evalResult == Pick(r.evalSample, kept) &&
            (forall p: nat :: p in kept <==> p < |r.evalSample| && r.evalSample[p] !in r.evalSample[p + 1..]) &&
            Distinct(r.evalResult) &&
            (forall d :: d in r.evalResult <==> d in r.evalSample)
  {
    RuleCleanup.EvaluationUnfolds(l3);
    var s := RuleCleanup.Evaluation(l3).value.evalSample;
    forall p: nat ensures p in LastPositions(s, |s|) <==> p < |s| && s[p] !in s[p + 1..] {
      LastPositionsIff(s, |s|, p);
    }
    KeepLastDistinct(s);
    KeepLastCovers(s);
  }

  /**
   * The reported deletion count SAMPLE_LEN - RESULT_LEN is the number of
   * sample positions whose dictionary appears again later, so never negative;
   * and pass 2 would delete nothing more from its own result.
   */
  lemma DeletedCount(l3: seq<Dict>)
    requires RuleCleanup.Evaluation(l3).Success?
    ensures var r := RuleCleanup.Evaluation(l3).value;
            r.deleted == RepeatCount(r.evalSample, |r.evalSample|) &&
            r.deleted >= 0 &&
            KeepLast(r.evalResult) == r.evalResult
  {
    RuleCleanup.EvaluationUnfolds(l3);
    var s := RuleCleanup.Evaluation(l3).value.evalSample;
    KeepLastRemoved(s, |s|);
    KeepLastIdempotent(s);
  }

  /** With the fetched list [a, b, t] of three different rules, pass 1 keeps all three and the pop removes t. */
  lemma ThreeDifferentRules(a: Dict, b: Dict, t: Dict)
    requires Complete(a) && Complete(b) && Complete(t)
    requires a != b && t != a && t != b
    ensures RuleCleanup.Evaluation([a, b, t]).Success?
    ensures RuleCleanup.Evaluation([a, b, t]).value.rules == [0, 1]
  {
    var l3 := [a, b, t];
    assert l3[..2] == [a, b] && l3[..1] == [a];
    assert FirstPositions(l3, 1) == [0];
    assert FirstPositions(l3, 2) == [0, 1];
    RuleCleanup.TerminalPop(l3);
  }

  /** The dictionaries built for [a, b, t] are those of a and b. */
  lemma ThreeDifferentRulesSample(a: Dict, b: Dict, t: Dict)
    requires Complete(a) && Complete(b) && Complete(t)
    requires a != b && t != a && t != b
    ensures RuleCleanup.Evaluation([a, b, t]).Success?
    ensures RuleCleanup.Evaluation([a, b, t]).value.evalSample == [KeyDict(EntryOf(a)), KeyDict(EntryOf(b))]
  {
    ThreeDifferentRules(a, b, t);
    var l3 := [a, b, t];
    RuleCleanup.EvaluationUnfolds(l3);
    var r := RuleCleanup.Evaluation(l3).value;
    assert r.b4Compare == [EntryOf(a), EntryOf(b)];
  }

  /** Pass 2 on two equal dictionaries leaves one of them. */
  lemma KeepLastOfPair(d: Dict)
    ensures KeepLast([d, d]) == [d]
  {
    var s := [d, d];
    assert s[1..] == [d] && s[2..] == [];
    assert LastPositions(s, 1) == [];
    assert LastPositions(s, 2) == [1];
  }

  /** Pass 2 keeps the last copy: on [d, e, d] the first d goes and e stays in front of it. */
  lemma LastCopyWins(d: Dict, e: Dict)
    requires d != e
    ensures KeepLast([d, e, d]) == [e, d]
  {
    var s := [d, e, d];
    assert s[1..] == [e, d] && s[2..] == [d] && s[3..] == [];
    assert LastPositions(s, 1) == [];
    assert LastPositions(s, 2) == [1];
    assert LastPositions(s, 3) == [1, 2];
  }

  /**
   * Two rules that differ only in their comment both survive pass 1, which
   * compares whole records, and collapse into one dictionary in pass 2.
   */
  lemma CommentOnlyCollapse(a: Dict, b: Dict, t: Dict)
    requires Complete(a) && Complete(b) && Complete(t)
    requires a != b && EntryOf(a) == EntryOf(b) && t != a && t != b
    ensures RuleCleanup.Evaluation([a, b, t]).Success?
    ensures var r := RuleCleanup.Evaluation([a, b, t]).value;
            r.rules == [0, 1] &&
            r.evalSample == [KeyDict(EntryOf(a)), KeyDict(EntryOf(b))] &&
            r.evalResult == [KeyDict(EntryOf(b))] &&
            r.deleted == 1
  {
    ThreeDifferentRules(a, b, t);
    ThreeDifferentRulesSample(a, b, t);
    RuleCleanup.EvaluationUnfolds([a, b, t]);
    KeepLastOfPair(KeyDict(EntryOf(b)));
  }
}
