# Meraki rule de-duplicator: a Dafny model of the clean-up pipeline

The tool fetches the layer-3 firewall rules of one Meraki network, removes
duplicate rules in two passes, and uploads the shorter list if anything changed.
This project models that pipeline as it is written inline in `rule_cleanup.py`,
and in its older copy `sandbox/rule_cleanup.py`, and proves what it does.

- **Rules** are JSON objects, modelled as dictionaries `map<string, Value>`
  (`RuleModel.Dict`). Python's `==` on two dictionaries is map equality.
- **Pass 1** (`RuleCleanup.Pass1`) walks the fetched list. For each rule it
  takes `l3_rules.index(x)`, the first position of an identical record,
  comment included. It keeps the rule unless that position is already in
  `rules`, so the first occurrence wins. Kept rules add their seven-field ENTRY
  list to `b4_compare`, and each row gets its "Dup Rule" flag.
  `Dedup.FirstPositions` specifies `rules`.
- **The pop** removes the last element of `rules` and of `b4_compare`. That
  element is the last rule pass 1 kept, which is the dashboard's default rule
  only when that rule has no exact copy earlier in the list
  (`RuleCleanup.TerminalPop`).
- **EVAL_SAMPLE** (`RuleCleanup.BuildSample`) holds one comment-free dictionary
  per kept rule. Each is built by one `update` per EVAL_KEYS name
  (`RuleModel.KeyDict`).
- **Pass 2** (`RuleCleanup.Pass2`) keeps element `i` exactly when it does not
  occur in `EVAL_SAMPLE[i + 1:]`, so the last occurrence wins
  (`Dedup.KeepLast`).
- **The change test** (`RuleCleanup.Run`) produces the payload
  `{"rules": EVAL_RESULT}` exactly when `EVAL_SAMPLE != EVAL_RESULT`. The
  sandbox copy (`SandboxRuleCleanup.Run`) stops after pass 2 and uploads
  nothing.

Each loop is a method proved against a function: `Pass1` against
`Dedup.FirstPositions`, `RuleCleanup.Entries` and `RuleCleanup.DupFlags`,
`BuildSample` against `RuleCleanup.Sample`, and `Pass2` against
`Dedup.KeepLast`. `Evaluate` and `Run`, which chain the loops, are proved
against `RuleCleanup.Evaluation` and `RuleCleanup.Cycle`. The lemmas state the
properties of those functions.

Errors are modelled as the script raises them. A rule that lacks one of the
eight fields raises KeyError during pass 1. That becomes
`MissingField(position, field)`, naming the first field read in the script's
order; Python's KeyError names only the field. An empty rule list makes
`rules.pop(-1)` raise IndexError, which becomes `PopFromEmpty`. The model
assumes the text fields are plain strings that render as table cells; with that
assumption nothing else in the modelled code fails (see "## Left out").

Behaviour of the code worth knowing:

- Pass 1 compares whole records, comment included, not the comment-free key.
  An exact copy removed by pass 1 does not count in "Deleted N additional
  rules". It does not make the run upload anything either: with `[a, b, a, t]`
  the upload is skipped (`RuleCleanup.ExactCopyNotUploaded`). The change test
  compares the list after pass 1 with the list after pass 2, not with the
  fetched list.
- A list that holds only the default rule raises no error. Both lists end up
  empty and nothing is uploaded (`RuleCleanup.TerminalOnly`).
- The default rule is not set aside before pass 1. If it is an exact copy of an
  earlier rule, the pop removes the last kept user rule instead
  (`RuleCleanup.TerminalPop`).
- Pass 1 keeps the first occurrence and pass 2 the last. With two rules that
  differ only in their comment, the second one's dictionary is uploaded
  (`SandboxRuleCleanup.CommentOnlyCollapse`).

## Model

| member | source | states |
|---|---|---|
| `RuleModel.EvalKeysFacts` | rule_cleanup.py:237-245 | EVAL_KEYS lists seven different field names. "comment" is not among them. The fields pass 1 reads are the comment followed by EVAL_KEYS. |
| `RuleModel.FirstAbsent` | rule_cleanup.py:154-161 | The lookup that raises KeyError. The result is empty exactly when every field is present. Otherwise it is the first absent field in reading order, and every field before it is present. |
| `RuleModel.EntryOf` | rule_cleanup.py:163-171 | ENTRY has seven values. Value k is the rule's field EVAL_KEYS[k], so the comment is left out. |
| `RuleModel.Zip` | rule_cleanup.py:247-250 | The dictionary built by successive `update` calls has exactly the given keys. |
| `RuleModel.ZipAt` | rule_cleanup.py:249-250 | When the keys are distinct, key x maps to value x: no later update overwrites it. |
| `RuleModel.KeyDictFields` | rule_cleanup.py:237-250 | A comparison dictionary has exactly the seven EVAL_KEYS and no comment. EVAL_KEYS[x] maps to ENTRY[x]. |
| `RuleModel.KeyDictInjective` | rule_cleanup.py:247-250 | Two comparison dictionaries are equal if and only if their ENTRY lists are equal. |
| `RuleModel.SameKeyDictIff` | sandbox/rule_cleanup.py:177-190 | Two rules get equal dictionaries if and only if they agree on all seven compared fields, whatever their comments say. |
| `Dedup.IndexOf` | rule_cleanup.py:153 | `list.index`: the result holds x, and no earlier position does. |
| `Dedup.FirstPositions` | rule_cleanup.py:173-192 | Pass 1's kept positions ascend strictly and stay below the scanned length. Position 0 is always kept. |
| `Dedup.FirstPositionsIff` | rule_cleanup.py:187-192 | Position p is kept if and only if no earlier position holds an identical record, so the first occurrence wins. |
| `Dedup.FirstIndexKept` | rule_cleanup.py:152-153 | The test `entry in rules` is true if and only if an identical record comes earlier. When none does, `entry` is the current position. |
| `Dedup.LastPositions` | rule_cleanup.py:255-258 | Pass 2's surviving positions ascend strictly and stay within the sample, so order is preserved. |
| `Dedup.LastPositionsIff` | rule_cleanup.py:256-258 | Position p survives if and only if no later position holds an equal dictionary, so the last occurrence wins. |
| `Dedup.KeepLastDistinct` | rule_cleanup.py:255-258 | EVAL_RESULT has no two equal dictionaries. |
| `Dedup.KeepLastCovers` | rule_cleanup.py:255-258 | A dictionary is in EVAL_RESULT if and only if it is in EVAL_SAMPLE. |
| `Dedup.KeepLastIdempotent` | rule_cleanup.py:256-258 | Pass 2 applied to its own result returns that result unchanged. |
| `Dedup.KeepLastChangedIffShorter` | rule_cleanup.py:324 | EVAL_RESULT is never longer than EVAL_SAMPLE. They differ if and only if RESULT_LEN < SAMPLE_LEN. |
| `Dedup.KeepLastRemoved` | rule_cleanup.py:260-263 | The survivors plus the positions whose element reappears later make up the whole sample. |
| `RuleCleanup.MissingFrom` | rule_cleanup.py:152-161 | The KeyError pass 1 raises first. There is none if and only if every rule has all eight fields. Otherwise it names the first incomplete rule and the first field, in reading order, that the rule lacks. |
| `RuleCleanup.Pass1` | rule_cleanup.py:147-206 | The loop with its FIRST_LOOP flag fails exactly with the first KeyError. Otherwise `rules` are the first-occurrence positions, `b4_compare` their ENTRY lists, and the Dup column the earlier-copy flags. |
| `RuleCleanup.BuildSample` | rule_cleanup.py:233-250 | The nested `update` loop fills slot y of EVAL_SAMPLE with the dictionary of `b4_compare[y]`. |
| `RuleCleanup.Pass2` | rule_cleanup.py:255-258 | The loop leaves EVAL_RESULT equal to the last-occurrence subsequence of EVAL_SAMPLE. |
| `RuleCleanup.Evaluate` | rule_cleanup.py:152-263 | Pass 1, the pop, the dictionaries and pass 2, run in order, give the specified report or the specified exception. |
| `RuleCleanup.Run` | rule_cleanup.py:322-330 | A whole run yields the report, plus the payload `{"rules": EVAL_RESULT}` exactly when EVAL_SAMPLE differs from EVAL_RESULT. |
| `RuleCleanup.TerminalPop` | rule_cleanup.py:208-210 | The run fails if and only if the list is empty. If the last rule has no earlier exact copy, the pop removes exactly that rule. Otherwise it removes the last kept user rule. |
| `RuleCleanup.ParallelLists` | rule_cleanup.py:209-217 | After the pop, `rules`, `b4_compare` and EVAL_SAMPLE have the same length, so the length check passes. Positions ascend, each has no earlier copy, and none is the last input position. `b4_compare[k][x]` is field EVAL_KEYS[x] of rule `rules[k]`. |
| `RuleCleanup.SampleEntry` | rule_cleanup.py:247-250 | EVAL_SAMPLE[y] has exactly the seven EVAL_KEYS, holding the values of kept rule `rules[y]`. |
| `RuleCleanup.UploadIffPass2Deleted` | rule_cleanup.py:322-330 | The deletion count is never negative. NEW_RULES is uploaded if and only if pass 2 deleted at least one rule, and the upload carries EVAL_RESULT. |
| `RuleCleanup.Pass1AloneNeverUploads` | rule_cleanup.py:324-325 | If the dictionaries after the pop are pairwise different, nothing is uploaded and the deletion count is 0, even when pass 1 dropped rules. |
| `RuleCleanup.ResultEntry` | rule_cleanup.py:247-258 | Every dictionary left in EVAL_RESULT has exactly the seven EVAL_KEYS and no comment, and copies those fields from one rule pass 1 kept. |
| `RuleCleanup.PayloadShape` | rule_cleanup.py:322 | Every uploaded rule has exactly the seven EVAL_KEYS fields and no comment. Its values are copied from one kept rule. |
| `RuleCleanup.NoFalseMerge` | rule_cleanup.py:247-258 | Two kept rules that differ in one of the seven fields get different dictionaries, and both reach EVAL_RESULT. |
| `RuleCleanup.ExactCopyNotUploaded` | rule_cleanup.py:187-192 | With `[a, b, a, t]`, pass 1 drops the copy of a. The report shows 0 deletions and nothing is uploaded. |
| `RuleCleanup.TerminalOnly` | rule_cleanup.py:208-210 | A list that holds only the default rule leaves empty lists and uploads nothing. |
| `SandboxRuleCleanup.Run` | sandbox/rule_cleanup.py:92-204 | The sandbox copy computes the same report as the main script, with a non-negative count and equal-length lists. It uploads nothing. |
| `SandboxRuleCleanup.DupColumn` | sandbox/rule_cleanup.py:126-145 | The "Dup Rule" column is true exactly on the rows pass 1 does not keep. |
| `SandboxRuleCleanup.PopBothLists` | sandbox/rule_cleanup.py:148-157 | The pop removes the last kept position from `rules` and that rule's ENTRY from `b4_compare`, together. |
| `SandboxRuleCleanup.SampleFields` | sandbox/rule_cleanup.py:173-190 | Each EVAL_SAMPLE[y] maps EVAL_KEYS[x] to `b4_compare[y][x]`. It has exactly those seven keys and no comment. |
| `SandboxRuleCleanup.Pass2Result` | sandbox/rule_cleanup.py:196-199 | EVAL_RESULT is the subsequence of EVAL_SAMPLE at the ascending positions whose dictionary does not occur later. It has no duplicates and holds every dictionary of the sample. |
| `SandboxRuleCleanup.DeletedCount` | sandbox/rule_cleanup.py:192-204 | SAMPLE_LEN - RESULT_LEN equals the number of positions whose dictionary reappears later, so it is non-negative. Pass 2 would delete nothing more from EVAL_RESULT. |
| `SandboxRuleCleanup.ThreeDifferentRules` | sandbox/rule_cleanup.py:92-150 | For three different records `[a, b, t]`, pass 1 keeps all three and the pop leaves positions 0 and 1. |
| `SandboxRuleCleanup.ThreeDifferentRulesSample` | sandbox/rule_cleanup.py:187-190 | For `[a, b, t]`, EVAL_SAMPLE holds the dictionaries of a and b. |
| `SandboxRuleCleanup.KeepLastOfPair` | sandbox/rule_cleanup.py:197-199 | Pass 2 on two equal dictionaries leaves one of them. |
| `SandboxRuleCleanup.LastCopyWins` | sandbox/rule_cleanup.py:196-199 | Pass 2 keeps the last copy: on `[d, e, d]` with d different from e it leaves `[e, d]`, so the first d goes and order is kept. |
| `SandboxRuleCleanup.CommentOnlyCollapse` | sandbox/rule_cleanup.py:103-199 | Two rules that differ only in their comment both survive pass 1. Pass 2 collapses them into one dictionary, that of the later rule, and reports one deletion. |

## Left out

- `get_rules` and `put_rules` in both files are left out: HTTPS requests, the `Retry`/`HTTPAdapter` backoff, timeouts and `sys.exit`. This is network I/O. The fetched list is the model's input. The upload is the `put` payload of the outcome; whether the dashboard accepts it is not modelled.
- The sandbox `get_rules` reaches `response.json()` with `response` unbound after a timeout. This is network I/O and is not modelled.
- The `get_response["rules"]` lookup on the fetched JSON is not modelled. The model starts from the rule list.
- Reading `config.ini` with `configparser` and the `logging`/`RichHandler` set-up are left out: they are configuration and logging plumbing.
- The `rich` tables, the console messages and `EXIT_COMMENT` are left out: they are presentation only. Only the boolean behind the "Dup Rule" column is modelled.
- `l3rules.py` is not part of this model. It is a separate network script (GET, PUT, GET, then a table).
- The dashboard re-adding its default rule after an upload is not modelled: it happens on the server side.
- Field values are modelled as strings and booleans only. Python's `True == 1` equality across types cannot arise between them, and other JSON types are not modelled.
- The placeholder strings `"rule_dict" + str(i)` that pre-fill EVAL_SAMPLE are modelled as empty dictionaries. Every slot is overwritten before it is read.
- Each dictionary in EVAL_SAMPLE is filled in place with `update`. The model builds each dictionary in a local variable and then stores it in its slot. Nothing else refers to these dictionaries, so no aliasing is lost.
- The exceptions raised while printing the before-table are not modelled. `table_before.add_row` (rule_cleanup.py:194-205, sandbox/rule_cleanup.py:134-145) receives the comment and six compared fields without `str()`, so a boolean in one of them makes `rich` raise NotRenderableError in pass 1. `console.print(table_before)` (rule_cleanup.py:314) parses cell text as markup, so text such as `[/admin]` raises MarkupError before the upload. The model assumes the text fields are plain strings that render as written; for other inputs `RuleCleanup.Evaluation` and `RuleCleanup.Cycle` report a result where the script stops with one of these exceptions.
