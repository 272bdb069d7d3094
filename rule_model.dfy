/**
 * Layer-3 firewall rules as the dashboard returns them, and the comparison
 * dictionaries the clean-up script builds from them.
 *
 * A rule is a JSON object, so it is modelled as a dictionary from field names
 * to values; Python's `==` on two such dictionaries is map equality here.
 */
module RuleModel {

  datatype Option<+T> = None | Some(value: T)

  datatype Result<+T, +E> = Success(value: T) | Failure(error: E)

  /** A field value: the text fields are strings, `syslogEnabled` is a boolean. */
  datatype Value = Str(s: string) | Bool(b: bool)

  /** A rule object, or one of the comment-free dictionaries built for pass 2. */
  type Dict = map<string, Value>

  /** An ENTRY list: the seven compared values of one rule, in EvalKeys order. */
  type Entry = seq<Value>

  /** The ways the script stops with an exception inside the modelled code. */
  datatype ScriptError =
    | MissingField(position: nat, field: string)  // KeyError reading `field` of rule `position`
    | PopFromEmpty                                 // IndexError from `rules.pop(-1)`

  /** The fields pass 1 reads from every rule, in the order it reads them. */
  const RuleFields: seq<string> :=
    ["comment", "policy", "protocol", "srcPort", "srcCidr", "destPort", "destCidr", "syslogEnabled"]

  /** EVAL_KEYS: the fields compared by pass 2, that is every field but the comment. */
  const EvalKeys: seq<string> :=
    ["policy", "protocol", "srcPort", "srcCidr", "destPort", "destCidr", "syslogEnabled"]

  ghost const EvalKeySet: set<string> := set k | k in EvalKeys

  lemma EvalKeysFacts()
    ensures |EvalKeys| == 7 && RuleFields == ["comment"] + EvalKeys
    ensures "comment" !in EvalKeySet
    ensures forall i, j :: 0 <= i < j < |EvalKeys| ==> EvalKeys[i] != EvalKeys[j]
  {
    assert EvalKeys[0][..2] == "po" && EvalKeys[1][..2] == "pr";
    assert EvalKeys[2][..4] == "srcP" && EvalKeys[3][..4] == "srcC";
    assert EvalKeys[4][..5] == "destP" && EvalKeys[5][..5] == "destC";
  }

  /** A rule from which every field of RuleFields can be read. */
  ghost predicate Complete(x: Dict) {
    forall k :: 0 <= k < |RuleFields| ==> RuleFields[k] in x
  }

  /** The index in `keys` of the first key `x` lacks: the lookup that raises KeyError. */
  function FirstAbsent(keys: seq<string>, x: Dict): (r: Option<nat>)
    ensures r.None? <==> forall k :: 0 <= k < |keys| ==> keys[k] in x
    ensures r.Some? ==> r.value < |keys| && keys[r.value] !in x
    ensures r.Some? ==> forall k :: 0 <= k < r.value ==> keys[k] in x
  {
    if keys == [] then None
    else if keys[0] !in x then Some(0)
    else match FirstAbsent(keys[1..], x)
      case None => None
      case Some(k) => Some(k + 1)
  }

  /** The ENTRY list of a rule: its seven compared values, comment left out. */
  function EntryOf(x: Dict): (e: Entry)
    requires Complete(x)
    ensures |e| == |EvalKeys|
    ensures forall k :: 0 <= k < |EvalKeys| ==> EvalKeys[k] in x && e[k] == x[EvalKeys[k]]
  {
    assert RuleFields[1] in x && RuleFields[2] in x && RuleFields[3] in x && RuleFields[4] in x;
    assert RuleFields[5] in x && RuleFields[6] in x && RuleFields[7] in x;
    [x["policy"], x["protocol"], x["srcPort"], x["srcCidr"], x["destPort"], x["destCidr"], x["syslogEnabled"]]
  }

  /** The dictionary `{keys[0]: vals[0], ...}` built by successive `update` calls. */
  function Zip(keys: seq<string>, vals: seq<Value>): (d: Dict)
    requires |keys| <= |vals|
    ensures d.Keys == set k | k in keys
  {
    if keys == [] then map[]
    else
      var n := |keys| - 1;
      assert keys == keys[..n] + [keys[n]];
      Zip(keys[..n], vals)[keys[n] := vals[n]]
  }

  lemma {:induction false} ZipAt(keys: seq<string>, vals: seq<Value>, x: nat)
    requires |keys| <= |vals| && x < |keys|
    requires forall i, j :: 0 <= i < j < |keys| ==> keys[i] != keys[j]
    ensures Zip(keys, vals)[keys[x]] == vals[x]
  {
    var n := |keys| - 1;
    if x < n {
      assert keys[x] != keys[n];
      ZipAt(keys[..n], vals, x);
    }
  }

  /** A pass-2 comparison dictionary: EVAL_KEYS[x] maps to entry[x]. */
  function KeyDict(e: Entry): Dict
    requires |e| == |EvalKeys|
  {
    Zip(EvalKeys, e)
  }

  /** Each comparison dictionary holds exactly the seven EVAL_KEYS, each mapped to its ENTRY value. */
  lemma KeyDictFields(e: Entry)
    requires |e| == |EvalKeys|
    ensures KeyDict(e).Keys == EvalKeySet
    ensures "comment" !in KeyDict(e)
    ensures forall x :: 0 <= x < |EvalKeys| ==> KeyDict(e)[EvalKeys[x]] == e[x]
  {
    EvalKeysFacts();
    forall x | 0 <= x < |EvalKeys| ensures KeyDict(e)[EvalKeys[x]] == e[x] {
      ZipAt(EvalKeys, e, x);
    }
  }

  /** Two comparison dictionaries are equal exactly when their ENTRY lists are. */
  lemma KeyDictInjective(e1: Entry, e2: Entry)
    requires |e1| == |EvalKeys| && |e2| == |EvalKeys|
    ensures KeyDict(e1) == KeyDict(e2) <==> e1 == e2
  {
    if KeyDict(e1) == KeyDict(e2) {
      KeyDictFields(e1);
      KeyDictFields(e2);
      assert forall x :: 0 <= x < |EvalKeys| ==> e1[x] == e2[x];
    }
  }

  /**
   * Pass-2 equivalence of two rules: their dictionaries match exactly when the
   * rules agree on all seven compared fields, whatever their comments say.
   */
  lemma SameKeyDictIff(a: Dict, b: Dict)
    requires Complete(a) && Complete(b)
    ensures KeyDict(EntryOf(a)) == KeyDict(EntryOf(b)) <==>
            forall x :: 0 <= x < |EvalKeys| ==> a[EvalKeys[x]] == b[EvalKeys[x]]
  {
    KeyDictInjective(EntryOf(a), EntryOf(b));
  }
}
