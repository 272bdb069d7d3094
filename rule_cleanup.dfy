/**
 * The clean-up pipeline of `rule_cleanup.py`: pass 1 over the fetched rules,
 * the pop of the dashboard's default rule, the comment-free dictionaries,
 * pass 2, and the decision whether to upload the result.
 *
 * The script's module-level lists (`rules`, `b4_compare`, `EVAL_SAMPLE`,
 * `EVAL_RESULT`) are the local variables of the methods below; each method is
 * proved against a function that says what the list holds when the loop ends.
 */
module RuleCleanup {
  import opened RuleModel
  import opened Dedup

  /** What pass 1 leaves: kept positions, their ENTRY lists, and the "Dup Rule" column. */
  datatype Pass1State = Pass1State(rules: seq<nat>, b4Compare: seq<Entry>, dup: seq<bool>)

  /** The lists the script holds once pass 2 is over, and the count it reports. */
  datatype Report = Report(
    rules: seq<nat>,
    b4Compare: seq<Entry>,
    dup: seq<bool>,
    evalSample: seq<Dict>,
    evalResult: seq<Dict>,
    deleted: int)

  /** NEW_RULES, the body of the upload: `{"rules": EVAL_RESULT}`. */
  datatype Payload = Payload(rules: seq<Dict>)

  /** A finished run: the report, and the payload uploaded, if any. */
  datatype Outcome = Outcome(report: Report, put: Option<Payload>)

  /**
   * The KeyError pass 1 raises first, looking at positions i, i + 1, ... in
   * turn and, within a rule, at the fields in RuleFields order.
   */
  function MissingFrom(l3: seq<Dict>, i: nat): (r: Option<ScriptError>)
    requires i <= |l3|
    decreases |l3| - i
    ensures r.None? <==> forall j :: i <= j < |l3| ==> Complete(l3[j])
    ensures r.Some? ==> r.value.MissingField? && i <= r.value.position < |l3|
    ensures r.Some? ==> r.value.field in RuleFields && r.value.field !in l3[r.value.position]
    ensures r.Some? ==> forall j :: i <= j < r.value.position ==> Complete(l3[j])
    ensures r.Some? ==> var absent := FirstAbsent(RuleFields, l3[r.value.position]);
              absent.Some? && r.value.field == RuleFields[absent.value]
  {
    if i == |l3| then None
    else match FirstAbsent(RuleFields, l3[i])
      case Some(k) => Some(MissingField(i, RuleFields[k]))
      case None => MissingFrom(l3, i + 1)
  }

  /** The ENTRY lists of the rules at positions `ps`. */
  function Entries(l3: seq<Dict>, ps: seq<nat>): seq<Entry>
    requires forall k :: 0 <= k < |ps| ==> ps[k] < |l3| && Complete(l3[ps[k]])
  {
    seq(|ps|, k requires 0 <= k < |ps| => EntryOf(l3[ps[k]]))
  }

  /** EVAL_SAMPLE as filled from `b4_compare`. */
  function Sample(b4Compare: seq<Entry>): seq<Dict>
    requires forall y :: 0 <= y < |b4Compare| ==> |b4Compare[y]| == |EvalKeys|
  {
    seq(|b4Compare|, y requires 0 <= y < |b4Compare| => KeyDict(b4Compare[y]))
  }

  /** The "Dup Rule" column of the before-table: does an identical rule come earlier? */
  function DupFlags(l3: seq<Dict>, n: nat): seq<bool>
    requires n <= |l3|
  {
    seq(n, i requires 0 <= i < n => l3[i] in l3[..i])
  }

  /** The script from the fetched rules up to the deletion count. */
  function Evaluation(l3: seq<Dict>): Result<Report, ScriptError> {
    match MissingFrom(l3, 0)
    case Some(f) => Failure(f)
    case None =>
      if |l3| == 0 then Failure(PopFromEmpty)
      else
        var kept := FirstPositions(l3, |l3|);
        var rules := kept[..|kept| - 1];
        var b4 := Entries(l3, rules);
        var sample := Sample(b4);
        var result := KeepLast(sample);
        Success(Report(rules, b4, DupFlags(l3, |l3|), sample, result, |sample| - |result|))
  }

  /** The upload decision: NEW_RULES is sent only when pass 2 changed EVAL_SAMPLE. */
  function Upload(report: Report): Option<Payload> {
    if report.evalSample == report.evalResult then None else Some(Payload(report.evalResult))
  }

  /** A whole run of the script. */
  function Cycle(l3: seq<Dict>): Result<Outcome, ScriptError> {
    match Evaluation(l3)
    case Failure(f) => Failure(f)
    case Success(report) => Success(Outcome(report, Upload(report)))
  }

  /** The first incomplete rule is not among a prefix of complete ones. */
  lemma {:induction false} MissingAfterComplete(l3: seq<Dict>, i: nat)
    requires i <= |l3| && forall j :: 0 <= j < i ==> Complete(l3[j])
    ensures MissingFrom(l3, 0) == MissingFrom(l3, i)
  {
    if i > 0 {
      MissingAfterComplete(l3, i - 1);
    }
  }

  /** How the lists pass 1 specifies grow by one position. */
  lemma Pass1Next(l3: seq<Dict>, i: nat)
    requires i < |l3|
    ensures FirstPositions(l3, i + 1) ==
            FirstPositions(l3, i) + (if l3[i] in l3[..i] then [] else [i])
    ensures DupFlags(l3, i + 1) == DupFlags(l3, i) + [l3[i] in l3[..i]]
  {
    assert DupFlags(l3, i + 1)[..i] == DupFlags(l3, i);
  }

  lemma EntriesNext(l3: seq<Dict>, ps: seq<nat>, p: nat)
    requires forall k :: 0 <= k < |ps| ==> ps[k] < |l3| && Complete(l3[ps[k]])
    requires p < |l3| && Complete(l3[p])
    ensures Entries(l3, ps + [p]) == Entries(l3, ps) + [EntryOf(l3[p])]
  {
  }

  /** What pass 1 has built after looking at the first i rules. */
  ghost predicate Pass1Inv(l3: seq<Dict>, i: nat, rules: seq<nat>, b4Compare: seq<Entry>, dupColumn: seq<bool>) {
    && i <= |l3|
    && (forall j :: 0 <= j < i ==> Complete(l3[j]))
    && rules == FirstPositions(l3, i)
    && b4Compare == Entries(l3, rules)
    && dupColumn == DupFlags(l3, i)
  }

  /** A rule with an earlier copy leaves the kept lists as they were. */
  lemma Pass1Repeat(l3: seq<Dict>, i: nat, rules: seq<nat>, b4Compare: seq<Entry>, dupColumn: seq<bool>)
    requires i < |l3| && Complete(l3[i]) && Pass1Inv(l3, i, rules, b4Compare, dupColumn)
    requires l3[i] in l3[..i]
    ensures Pass1Inv(l3, i + 1, rules, b4Compare, dupColumn + [true])
  {
    Pass1Next(l3, i);
  }

  /** A rule without an earlier copy is appended to both kept lists. */
  lemma Pass1Fresh(l3: seq<Dict>, i: nat, rules: seq<nat>, b4Compare: seq<Entry>, dupColumn: seq<bool>)
    requires i < |l3| && Complete(l3[i]) && Pass1Inv(l3, i, rules, b4Compare, dupColumn)
    requires l3[i] !in l3[..i]
    ensures Pass1Inv(l3, i + 1, rules + [i], b4Compare + [EntryOf(l3[i])], dupColumn + [false])
  {
    Pass1Next(l3, i);
    EntriesNext(l3, rules, i);
  }

  /** Pass 1: keep a rule unless its first index, `l3_rules.index(x)`, is already kept. */
  method Pass1(l3: seq<Dict>) returns (res: Result<Pass1State, ScriptError>)
    ensures res.Failure? <==> MissingFrom(l3, 0).Some?
    ensures res.Failure? ==> res.error == MissingFrom(l3, 0).value
    ensures res.Success? ==> res.value.rules == FirstPositions(l3, |l3|)
    ensures res.Success? ==> res.value.b4Compare == Entries(l3, FirstPositions(l3, |l3|))
    ensures res.Success? ==> res.value.dup == DupFlags(l3, |l3|)
  {
    var firstLoop := true;
    var rules: seq<nat> := [];
    var b4Compare: seq<Entry> := [];
    var dup := false;
    var dupColumn: seq<bool> := [];
    var i := 0;
    while i < |l3|
      invariant i <= |l3|
      invariant firstLoop <==> i == 0
      invariant i == 0 ==> !dup
      invariant Pass1Inv(l3, i, rules, b4Compare, dupColumn)
    {
      var x := l3[i];
      var entry := IndexOf(l3, x);
      var absent := FirstAbsent(RuleFields, x);
      if absent.Some? {
        MissingAfterComplete(l3, i);
        return Failure(MissingField(i, RuleFields[absent.value]));
      }
      var e := EntryOf(x);
      FirstIndexKept(l3, i);
      if firstLoop {
        Pass1Fresh(l3, i, rules, b4Compare, dupColumn);
        rules := rules + [entry];
        b4Compare := b4Compare + [e];
      } else if entry in rules {
        Pass1Repeat(l3, i, rules, b4Compare, dupColumn);
        dup := true;
      } else {
        Pass1Fresh(l3, i, rules, b4Compare, dupColumn);
        rules := rules + [entry];
        b4Compare := b4Compare + [e];
        dup := false;
      }
      dupColumn := dupColumn + [dup];
      firstLoop := false;
      i := i + 1;
    }
    MissingAfterComplete(l3, i);
    return Success(Pass1State(rules, b4Compare, dupColumn));
  }

  /** One more `update` extends the dictionary built from a prefix of the keys. */
  lemma ZipNext(keys: seq<string>, vals: seq<Value>, x: nat)
    requires x < |keys| <= |vals|
    ensures Zip(keys[..x + 1], vals) == Zip(keys[..x], vals)[keys[x] := vals[x]]
  {
    assert keys[..x + 1][..x] == keys[..x];
  }

  /** Popping the last kept position pops the last ENTRY list. */
  lemma EntriesDropLast(l3: seq<Dict>, ps: seq<nat>)
    requires |ps| > 0 && forall k :: 0 <= k < |ps| ==> ps[k] < |l3| && Complete(l3[ps[k]])
    ensures Entries(l3, ps)[..|ps| - 1] == Entries(l3, ps[..|ps| - 1])
  {
  }

  /** Fill EVAL_SAMPLE slot by slot, one `update` per EVAL_KEYS entry. */
  method BuildSample(b4Compare: seq<Entry>) returns (evalSample: seq<Dict>)
    requires forall y :: 0 <= y < |b4Compare| ==> |b4Compare[y]| == |EvalKeys|
    ensures evalSample == Sample(b4Compare)
  {
    evalSample := seq(|b4Compare|, _ => map[]);
    var i := 0;
    while i < |b4Compare|
      invariant i <= |b4Compare| && |evalSample| == |b4Compare|
      invariant forall y :: 0 <= y < i ==> evalSample[y] == KeyDict(b4Compare[y])
    {
      var d: Dict := map[];
      var x := 0;
      while x < |EvalKeys|
        invariant x <= |EvalKeys|
        invariant d == Zip(EvalKeys[..x], b4Compare[i])
      {
        ZipNext(EvalKeys, b4Compare[i], x);
        d := d[EvalKeys[x] := b4Compare[i][x]];
        x := x + 1;
      }
      assert EvalKeys[..x] == EvalKeys;
      evalSample := evalSample[i := d];
      i := i + 1;
    }
  }

  /** Pass 2: element i survives when it does not occur in `EVAL_SAMPLE[i + 1:]`. */
  method Pass2(evalSample: seq<Dict>) returns (evalResult: seq<Dict>)
    ensures evalResult == KeepLast(evalSample)
  {
    evalResult := [];
    var i := 0;
    while i < |evalSample|
      invariant i <= |evalSample|
      invariant evalResult == Pick(evalSample, LastPositions(evalSample, i))
    {
      if evalSample[i] !in evalSample[i + 1..] {
        evalResult := evalResult + [evalSample[i]];
      }
      i := i + 1;
    }
  }

  /** Pass 1, the pop of the default rule, the dictionaries and pass 2, in script order. */
  method Evaluate(l3: seq<Dict>) returns (res: Result<Report, ScriptError>)
    ensures res == Evaluation(l3)
  {
    var pass1 := Pass1(l3);
    if pass1.Failure? {
      return Failure(pass1.error);
    }
    var rules, b4Compare := pass1.value.rules, pass1.value.b4Compare;
    if |rules| == 0 {
      return Failure(PopFromEmpty);
    }
    ghost var kept := rules;
    rules := rules[..|rules| - 1];
    b4Compare := b4Compare[..|b4Compare| - 1];
    EntriesDropLast(l3, kept);
    var evalSample := BuildSample(b4Compare);
    var evalResult := Pass2(evalSample);
    return Success(Report(rules, b4Compare, pass1.value.dup, evalSample, evalResult,
                          |evalSample| - |evalResult|));
  }

  /** The script end to end: evaluate, then upload NEW_RULES only if pass 2 changed anything. */
  method Run(l3: seq<Dict>) returns (res: Result<Outcome, ScriptError>)
    ensures res == Cycle(l3)
  {
    var evaluated := Evaluate(l3);
    if evaluated.Failure? {
      return Failure(evaluated.error);
    }
    var report := evaluated.value;
    var newRules := Payload(report.evalResult);
    if report.evalSample == report.evalResult {
      return Success(Outcome(report, None));
    }
    return Success(Outcome(report, Some(newRules)));
  }

  /**
   * Everything the script's lists hold when no exception is raised: pass 1's
   * kept positions minus the popped one, their ENTRY lists, the dictionaries
   * and what pass 2 leaves of them.
   */
  lemma EvaluationUnfolds(l3: seq<Dict>)
    requires Evaluation(l3).Success?
    ensures |l3| > 0 && forall j :: 0 <= j < |l3| ==> Complete(l3[j])
    ensures var kept, report := FirstPositions(l3, |l3|), Evaluation(l3).value;
            |kept| > 0 && report.rules == kept[..|kept| - 1] &&
            report.b4Compare == Entries(l3, report.rules) &&
            report.evalSample == Sample(report.b4Compare) &&
            report.evalResult == KeepLast(report.evalSample) &&
            report.dup == DupFlags(l3, |l3|) &&
            report.deleted == |report.evalSample| - |report.evalResult|
  {
  }

  /**
   * `rules.pop(-1)` removes the last rule pass 1 kept. An empty input makes it
   * fail. When the dashboard's terminal rule has no exact copy earlier in the
   * list, the popped rule is that terminal rule and every other first
   * occurrence stays; when it does have one, the terminal rule was never kept
   * and the pop removes the last kept user rule instead.
   */
  lemma TerminalPop(l3: seq<Dict>)
    requires forall j :: 0 <= j < |l3| ==> Complete(l3[j])
    ensures Evaluation(l3).Failure? <==> |l3| == 0
    ensures |l3| == 0 ==> Evaluation(l3) == Failure(PopFromEmpty)
    ensures |l3| > 0 && l3[|l3| - 1] !in l3[..|l3| - 1] ==>
              Evaluation(l3).value.rules == FirstPositions(l3, |l3| - 1)
    ensures |l3| > 0 && l3[|l3| - 1] in l3[..|l3| - 1] ==>
              var users := FirstPositions(l3, |l3| - 1);
              |users| > 0 && Evaluation(l3).value.rules == users[..|users| - 1]
  {
    if |l3| > 0 {
      Pass1Next(l3, |l3| - 1);
    }
  }

  /**
   * The length check after the pop always passes: `rules`, `b4_compare` and
   * EVAL_SAMPLE run in parallel, `b4_compare[k]` holds the seven compared
   * fields of rule `rules[k]`, the kept positions ascend, each has no exact copy
   * before it, and the terminal position is never among them.
   */
  lemma ParallelLists(l3: seq<Dict>)
    requires Evaluation(l3).Success?
    ensures var r := Evaluation(l3).value;
            |r.rules| == |r.b4Compare| == |r.evalSample| && Increasing(r.rules) &&
            (forall k :: 0 <= k < |r.rules| ==> r.rules[k] < |l3| - 1 && l3[r.rules[k]] !in l3[..r.rules[k]]) &&
            (forall k, x :: 0 <= k < |r.rules| && 0 <= x < |EvalKeys| ==>
               r.b4Compare[k][x] == l3[r.rules[k]][EvalKeys[x]])
  {
    EvaluationUnfolds(l3);
    var kept := FirstPositions(l3, |l3|);
    var r := Evaluation(l3).value;
    forall k | 0 <= k < |r.rules|
      ensures r.rules[k] < |l3| - 1 && l3[r.rules[k]] !in l3[..r.rules[k]]
    {
      assert r.rules[k] == kept[k] < kept[|kept| - 1] < |l3|;
      FirstPositionsIff(l3, |l3|, kept[k]);
    }
  }

  /**
   * NEW_RULES is uploaded exactly when pass 2 deleted at least one rule, the
   * reported count is never negative, and the payload is EVAL_RESULT.
   */
  lemma UploadIffPass2Deleted(l3: seq<Dict>)
    requires Cycle(l3).Success?
    ensures var o := Cycle(l3).value;
            o.report.deleted >= 0 &&
            (o.put.Some? <==> o.report.deleted > 0) &&
            (o.put.Some? ==> o.put.value.rules == o.report.evalResult)
  {
    EvaluationUnfolds(l3);
    KeepLastChangedIffShorter(Evaluation(l3).value.evalSample);
  }

  /**
   * Duplicates that only pass 1 removes never cause an upload: when the
   * dictionaries left after the pop are pairwise different, nothing is sent.
   */
  lemma Pass1AloneNeverUploads(l3: seq<Dict>)
    requires Cycle(l3).Success?
    requires Distinct(Cycle(l3).value.report.evalSample)
    ensures Cycle(l3).value.put.None?
    ensures Cycle(l3).value.report.deleted == 0
  {
    EvaluationUnfolds(l3);
    var s := Evaluation(l3).value.evalSample;
    LastPositionsOfDistinct(s, |s|);
  }

  /** EVAL_SAMPLE[y] holds the seven compared fields of kept rule `rules[y]`, and nothing else. */
  lemma SampleEntry(l3: seq<Dict>, y: nat)
    requires Evaluation(l3).Success? && y < |Evaluation(l3).value.evalSample|
    ensures var r := Evaluation(l3).value;
            y < |r.rules| && r.rules[y] < |l3| &&
            r.evalSample[y].Keys == EvalKeySet && "comment" !in r.evalSample[y] &&
            forall x :: 0 <= x < |EvalKeys| ==>
              EvalKeys[x] in r.evalSample[y] && EvalKeys[x] in l3[r.rules[y]] &&
              r.evalSample[y][EvalKeys[x]] == l3[r.rules[y]][EvalKeys[x]]
  {
    EvaluationUnfolds(l3);
    var r := Evaluation(l3).value;
    var rule := l3[r.rules[y]];
    assert r.b4Compare[y] == EntryOf(rule);
    KeyDictFields(EntryOf(rule));
  }

  /** `d` and `rule` both hold every EVAL_KEYS field, with the same values. */
  ghost predicate SameEvalFields(d: Dict, rule: Dict) {
    forall x :: 0 <= x < |EvalKeys| ==>
      EvalKeys[x] in d && EvalKeys[x] in rule && d[EvalKeys[x]] == rule[EvalKeys[x]]
  }

  /** `d` has exactly the seven EVAL_KEYS, so no comment, and copies them from one of the rules at `ps`. */
  ghost predicate CopiesKeptRule(d: Dict, l3: seq<Dict>, ps: seq<nat>) {
    && d.Keys == EvalKeySet
    && "comment" !in d
    && exists k :: 0 <= k < |ps| && ps[k] < |l3| && SameEvalFields(d, l3[ps[k]])
  }

  /**
   * Every uploaded rule carries exactly the seven EVAL_KEYS fields, never a
   * comment, and copies those fields from one rule that pass 1 kept.
   */
  lemma PayloadShape(l3: seq<Dict>)
    requires Cycle(l3).Success? && Cycle(l3).value.put.Some?
    ensures var o := Cycle(l3).value;
            forall d :: d in o.put.value.rules ==> CopiesKeptRule(d, l3, o.report.rules)
  {
    var r := Evaluation(l3).value;
    assert Cycle(l3).value.put.value.rules == r.evalResult;
    forall d | d in r.evalResult
      ensures CopiesKeptRule(d, l3, r.rules)
    {
      ResultEntry(l3, d);
    }
  }

  /** A dictionary left in EVAL_RESULT is the comparison dictionary of one rule pass 1 kept. */
  lemma ResultEntry(l3: seq<Dict>, d: Dict)
    requires Evaluation(l3).Success? && d in Evaluation(l3).value.evalResult
    ensures CopiesKeptRule(d, l3, Evaluation(l3).value.rules)
  {
    var r := Evaluation(l3).value;
    assert r.evalResult == KeepLast(r.evalSample) by {
      EvaluationUnfolds(l3);
    }
    KeepLastCovers(r.evalSample);
    var y :| 0 <= y < |r.evalSample| && r.evalSample[y] == d;
    SampleEntry(l3, y);
    assert SameEvalFields(d, l3[r.rules[y]]);
  }

  /**
   * Two rules are merged only when they agree on all seven compared fields:
   * if kept rules `rules[j]` and `rules[k]` differ in one of them, their
   * dictionaries stay apart in EVAL_SAMPLE and both reach EVAL_RESULT.
   */
  lemma NoFalseMerge(l3: seq<Dict>, j: nat, k: nat)
    requires Evaluation(l3).Success?
    requires var r := Evaluation(l3).value;
             (j < |r.rules| && k < |r.rules| &&
              exists x :: 0 <= x < |EvalKeys| && l3[r.rules[j]][EvalKeys[x]] != l3[r.rules[k]][EvalKeys[x]])
    ensures var r := Evaluation(l3).value;
            r.evalSample[j] != r.evalSample[k] &&
            r.evalSample[j] in r.evalResult && r.evalSample[k] in r.evalResult
  {
    EvaluationUnfolds(l3);
    var r := Evaluation(l3).value;
    SameKeyDictIff(l3[r.rules[j]], l3[r.rules[k]]);
    KeepLastCovers(r.evalSample);
  }

  /** With the fetched list [a, b, a, t], pass 1 keeps positions 0, 1 and 3, and the pop removes 3. */
  lemma CopyDroppedByPass1(a: Dict, b: Dict, t: Dict)
    requires Complete(a) && Complete(b) && Complete(t)
    requires a != b && t != a && t != b
    ensures Evaluation([a, b, a, t]).Success?
    ensures Evaluation([a, b, a, t]).value.rules == [0, 1]
  {
    var l3 := [a, b, a, t];
    assert FirstPositions(l3, 3) == [0, 1] by {
      assert l3[..3] == [a, b, a] && l3[..2] == [a, b] && l3[..1] == [a];
      assert FirstPositions(l3, 1) == [0];
      assert FirstPositions(l3, 2) == [0, 1];
    }
    assert t !in l3[..3] by {
      assert l3[..3] == [a, b, a];
    }
    TerminalPop(l3);
  }

  /**
   * An exact copy of an earlier rule (comment included) is dropped by pass 1
   * and therefore reported neither as a deletion nor as a change: with the
   * fetched list [a, b, a, t] nothing is uploaded.
   */
  lemma ExactCopyNotUploaded(a: Dict, b: Dict, t: Dict)
    requires Complete(a) && Complete(b) && Complete(t)
    requires EntryOf(a) != EntryOf(b) && t != a && t != b
    ensures Cycle([a, b, a, t]).Success?
    ensures var o := Cycle([a, b, a, t]).value;
            o.report.rules == [0, 1] &&
            o.report.evalResult == [KeyDict(EntryOf(a)), KeyDict(EntryOf(b))] &&
            o.report.deleted == 0 && o.put.None?
  {
    var l3 := [a, b, a, t];
    CopyDroppedByPass1(a, b, t);
    EvaluationUnfolds(l3);
    var r := Evaluation(l3).value;
    assert r.b4Compare == [EntryOf(a), EntryOf(b)];
    KeyDictInjective(EntryOf(a), EntryOf(b));
    assert r.evalSample == [KeyDict(EntryOf(a)), KeyDict(EntryOf(b))];
    assert r.evalResult == r.evalSample by {
      LastPositionsOfDistinct(r.evalSample, 2);
    }
  }

  /**
   * A list holding only the dashboard's terminal rule raises nothing: the pop
   * leaves both lists empty, pass 2 has nothing to do and nothing is uploaded.
   */
  lemma TerminalOnly(t: Dict)
    requires Complete(t)
    ensures Cycle([t]).Success?
    ensures var o := Cycle([t]).value;
            o.report.rules == [] && o.report.evalResult == [] && o.report.deleted == 0 && o.put.None?
  {
    TerminalPop([t]);
    EvaluationUnfolds([t]);
  }
}
