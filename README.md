# canon52 minimal: canonicalisation and adjudication, modelled in Dafny

`src/canon52_minimal.py` does three things:

- **CanonText**: it brings a text to a canonical form. Newlines are normalised, trailing
  spaces are stripped from every line, the text is put in NFC, and then tabs, zero-width
  characters and control characters are refused.
- **CanonJSON**: it brings a JSON document to a canonical form. Floats are refused, object
  keys are sorted, and array elements are sorted by a type-aware key
  (null < bool < int < string < the compact JSON text of anything else). The result is written
  as compact ASCII JSON. `sha256_canon` hashes the canonical form of either kind of input.
- **The minimal adjudicator** (SUPxANNO + SupportPack): it reads a request of boolean flags and
  integers and classifies it as a hard or soft attack. It picks a route (FAST, SAFE, BLACKHOLE)
  and binds a justification `d_t` to that route. It computes the world effect ΔΩ and builds the
  SupportPack, the receipt that makes sure no denial is silent.

Two self-test runners replay vector packs against these functions and count passes and failures.

The Dafny project has one module per concern:

| file | module | what it holds |
|---|---|---|
| `results.dfy` | `Results` | `Result` and `Option` |
| `chars.dfy` | `Chars` | ASCII text, shared by both canonicalisers |
| `sorting.dfy` | `Sorting` | code-point string order; insertion sort by a total preorder; uniqueness of a sorted permutation |
| `json.dfy` | `JsonValues` | JSON values; `json.dumps(ensure_ascii=True, separators=(",", ":"))` as `Serialize`, proved injective and ASCII-only on float-free values |
| `canon_text.dfy` | `CanonText` | `normalize_newlines`, `strip_trailing_spaces`, `forbid_text_chars`, `canon_text` |
| `canon_json.dfy` | `JsonCanon` | `elem_key`, the canonical form `Normalize`, the function `Canonicalize` that the hash uses, and the recursive method `CanonicalizeJsonObj` with its loops, which computes the same result |
| `canon_hash.dfy` | `CanonHash` | `canon_json` and `sha256_canon` |
| `adjudicator.dfy` | `Adjudicator` | `classify_attack`, `decide_route`, `bind_support_branch`, `adjudicate`, on a typed request |
| `request.dfy` | `Requests` | reading a request dict: Python truthiness of `req.get(...)` and `int(...)` |
| `json_eq.dfy` | `JsonEquality` | Python `==` on JSON values (`True == 1`, dicts compared as mappings) |
| `tally.dfy` | `Tallies` | the OK/FAIL counts and the failed ids of a replay |
| `replay.dfy` | `Replay` | `run_adjud_tests` and `run_canon_selftest` |

The model takes three collaborators as parameters:

- Unicode NFC is a function `nfc: string -> string`. The only assumptions are the laws in
  `CanonText.NfcLaws`: NFC leaves ASCII text alone, it is idempotent, it does not create a
  trailing space, and it composes the text on either side of a TAB separately, leaving the TAB
  in place (a TAB has combining class 0 and takes part in no composition).
- `json.loads` (with floats refused) is a function `parse: string -> Result<Json>`. The
  assumptions are `CanonHash.ParseLaws`: it reads back the compact serialisation of a
  float-free value, and the objects it returns have distinct keys.
- SHA-256 is a function `digest: string -> string`. Nothing is assumed about it.

## Model

| member | source | states |
|---|---|---|
| Sorting.StrLeTotal | src/canon52_minimal.py:154 | Python's code-point order on keys is total, so `items.sort` has a well-defined result |
| Sorting.SortBy | src/canon52_minimal.py:173 | sorting returns a permutation of its input (same multiset) |
| Sorting.SortBySorted | src/canon52_minimal.py:173 | under a total preorder the sorted list is ordered by that preorder |
| Sorting.SortedUnique | src/canon52_minimal.py:173 | two ordered permutations of the same elements are equal when the order only ties equal elements |
| Sorting.SortByPermutationInvariant | src/canon52_minimal.py:154 | sorting any reordering of the same elements gives the same list |
| Sorting.MapSeqPermutation | src/canon52_minimal.py:158 | canonicalising element by element commutes with reordering: permuted inputs give permuted outputs |
| Sorting.DistinctPermutation | src/canon52_minimal.py:150-155 | a reordering of pairwise distinct items is still pairwise distinct |
| JsonValues.NatToDecimal | src/canon52_minimal.py:187 | `json.dumps` writes a natural number as a non-empty run of digits |
| JsonValues.DecimalRoundTrip | src/canon52_minimal.py:187 | the digits written for n read back as n |
| JsonValues.NatToDecimalInjective | src/canon52_minimal.py:187 | distinct numbers are written differently |
| JsonValues.Hex4RoundTrip | src/canon52_minimal.py:170 | the four hex digits of a `\uXXXX` escape read back as the code unit |
| JsonValues.UnicodeEscape | src/canon52_minimal.py:170 | a non-ASCII character is escaped as one `\uXXXX` or a surrogate pair of them |
| JsonValues.EscapeCharRoundTrip | src/canon52_minimal.py:170 | every character's ASCII escape decodes back to that character and consumes exactly the escape |
| JsonValues.QuotePrefix | src/canon52_minimal.py:187 | a string literal is read back where it stands: equal literal texts followed by anything come from equal strings |
| JsonValues.SerializeInjective | src/canon52_minimal.py:170 | compact serialisation is injective on float-free values, so rank-4 `elem_key` ties only equal values |
| JsonValues.QuoteAscii | src/canon52_minimal.py:187 | with `ensure_ascii=True` a string literal is pure ASCII, whatever characters the string holds |
| JsonValues.SerializeAscii | src/canon52_minimal.py:184-187 | the compact serialisation of any float-free value, the text `canon_json` returns, is pure ASCII |
| CanonText.ReplaceCrLf | src/canon52_minimal.py:110 | `replace("\r\n", "\n")` is the text cut at every CR LF (`SplitCrLf`) and rejoined with LF; a text without `\r` is unchanged |
| CanonText.SplitCrLf | src/canon52_minimal.py:110 | the pieces between CR LF pairs hold no CR LF pair, and joining them with CR LF gives back the text |
| CanonText.ReplaceCr | src/canon52_minimal.py:110 | each remaining `\r` becomes `\n`; every other character and the length are kept |
| CanonText.BreakLines | src/canon52_minimal.py:109-110 | an independent reading of line breaks (CR LF, lone CR, LF): at least one line, none holding CR or LF |
| CanonText.ReplacementsJoinBreakLines | src/canon52_minimal.py:110 | the two replacements in their order write every line break as one LF between the same lines |
| CanonText.NormalizeNewlines | src/canon52_minimal.py:109-110 | the result has no `\r`, a text without `\r` is unchanged, and the result read back as lines is exactly the input broken at CR LF, lone CR and LF (`BreakLines`) |
| CanonText.SplitLines | src/canon52_minimal.py:114 | `split("\n")` gives at least one line, no line contains `\n`, and joining the lines with `\n` gives back the text |
| CanonText.SplitJoinLines | src/canon52_minimal.py:114-116 | splitting at LF undoes joining with LF for lines free of LF |
| CanonText.RStripSpaces | src/canon52_minimal.py:115 | `rstrip(" ")` keeps a prefix of the line that does not end in a space, and drops only spaces |
| CanonText.StripTrailingSpaces | src/canon52_minimal.py:113-116 | the result has as many lines as the input, and line i of it is line i of the input right-stripped of spaces |
| CanonText.StripTrailingSpacesNoTrailingSpace | src/canon52_minimal.py:113-116 | after stripping, no line ends in a space |
| CanonText.StripTrailingSpacesIdentity | src/canon52_minimal.py:113-116 | stripping a text that has no trailing spaces changes nothing |
| CanonText.CharError | src/canon52_minimal.py:121-129 | a character is refused exactly when it is a tab, a zero-width character, a control character other than `\n`, or DEL; the message is one of the three codes |
| CanonText.FirstViolation | src/canon52_minimal.py:119-129 | no error exactly when every character is allowed; otherwise the error is that of the first refused character |
| CanonText.ForbidTextChars | src/canon52_minimal.py:119-129 | the scan loop reports exactly the first violation |
| CanonText.Prepare | src/canon52_minimal.py:133-135 | under the NFC laws the prepared text has no trailing space on any line, and a TAB in the input is still present in it |
| CanonText.NfcKeepsTab | src/canon52_minimal.py:135 | a lawful NFC keeps a TAB of its input |
| CanonText.InJoinLines | src/canon52_minimal.py:116 | a character other than LF is in the rejoined text exactly when it is in one of the lines |
| CanonText.CanonText | src/canon52_minimal.py:132-137 | an accepted text is the prepared text (newlines normalised, trailing spaces stripped, NFC) and has only allowed characters, no `\r` and no tab; a refusal carries one of the three codes |
| CanonText.CanonTextFirstError | src/canon52_minimal.py:132-137 | `canon_text` fails exactly when the prepared text has a refused character, and the message is that of the first one |
| CanonText.CanonTextNoTrailingSpace | src/canon52_minimal.py:132-137 | canonical text has no trailing spaces on any line |
| CanonText.CanonTextIdempotent | src/canon52_minimal.py:132-137 | canonical text is its own canonical text |
| CanonText.CanonTextRejectsTab | src/canon52_minimal.py:119-137 | under any lawful NFC, a raw text holding a TAB anywhere is refused |
| CanonText.CanonTextTabMessage | src/canon52_minimal.py:121-122 | the one-character text `\t` is refused with `TAB_FORBIDDEN` |
| CanonText.PrepareFixedPoint | src/canon52_minimal.py:132-135 | ASCII text without `\r` and without trailing spaces reaches the scan unchanged |
| JsonCanon.ElemLeTotalPreorder | src/canon52_minimal.py:160-173 | the `elem_key` order is a total preorder, so `sorted(elems, key=elem_key)` is well defined |
| JsonCanon.MemberLeTotalPreorder | src/canon52_minimal.py:154 | ordering members by key is a total preorder |
| JsonCanon.KeyOf | src/canon52_minimal.py:160-171 | `elem_key` ranks null 0, bool 1, int 2, str 3 and anything else 4; a bool sorts as 0/1, an int as itself, a string by its text, anything else by its compact serialisation |
| JsonCanon.ElemLeAntisymmetric | src/canon52_minimal.py:160-171 | two float-free values with equal `elem_key` are equal |
| JsonCanon.NormalizeSorted | src/canon52_minimal.py:147-179 | a scalar is returned as is; an array or object stays one and holds its canonicalised elements or members, permuted into `elem_key` or key order |
| JsonCanon.Canonicalize | src/canon52_minimal.py:147-181 | the result exists exactly when the value holds no float, the error is `FLOAT_FORBIDDEN`, and the result of a value with distinct keys is canonical with distinct keys |
| JsonCanon.NormalizeFloatFree | src/canon52_minimal.py:147-179 | canonicalisation introduces no float |
| JsonCanon.NormMembersKeyed | src/canon52_minimal.py:150-155 | distinct keys stay distinct, so the rebuilt dict loses no member |
| JsonCanon.SortedMembersStrict | src/canon52_minimal.py:154-155 | after `items.sort` the keys are strictly increasing |
| JsonCanon.NormalizeUniqueKeys | src/canon52_minimal.py:147-155 | canonicalisation keeps every object's keys distinct |
| JsonCanon.NormalizeCanonical | src/canon52_minimal.py:147-179 | the result is canonical: no float, keys strictly sorted, arrays sorted by `elem_key`, at every depth |
| JsonCanon.CanonicalFixed | src/canon52_minimal.py:147-179 | canonicalising a canonical value changes nothing |
| JsonCanon.CanonicalizeIdempotent | src/canon52_minimal.py:147-181 | `canonicalize_json_obj` is idempotent |
| JsonCanon.ElemsFloatFreePermutation | src/canon52_minimal.py:158 | whether an array holds a float does not depend on its order |
| JsonCanon.MembersFloatFreePermutation | src/canon52_minimal.py:150-153 | whether an object holds a float does not depend on its member order |
| JsonCanon.ArrayOrderIrrelevant | src/canon52_minimal.py:157-173 | reordering an array's elements does not change its canonical form or its error |
| JsonCanon.ObjectOrderIrrelevant | src/canon52_minimal.py:148-155 | reordering an object's members does not change its canonical form or its error |
| JsonCanon.NormalizeMembersReordered | src/canon52_minimal.py:147-158 | reordering the members of objects at any depth, where every object's keys are distinct, changes neither the canonical form nor whether a float is present |
| JsonCanon.CanonicalizeJsonObj | src/canon52_minimal.py:147-181 | the recursive method returns the canonical form when the value has no float, and `FLOAT_FORBIDDEN` otherwise |
| JsonCanon.CanonicalizeMembers | src/canon52_minimal.py:148-155 | the loop over `obj.items()` canonicalises every member, or stops with `FLOAT_FORBIDDEN` |
| JsonCanon.CanonicalizeElems | src/canon52_minimal.py:157-158 | the loop over the list canonicalises every element, or stops with `FLOAT_FORBIDDEN` |
| CanonHash.CanonJsonText | src/canon52_minimal.py:184-187 | a parse error is passed on; a parsed value with a float gives `FLOAT_FORBIDDEN`; otherwise the text is the compact serialisation of the canonical form |
| CanonHash.CanonJsonTextIdempotent | src/canon52_minimal.py:184-187 | the canonical JSON text is its own canonical text |
| CanonHash.CanonJsonTextMemberOrder | src/canon52_minimal.py:184-187 | two documents that read as reorderings of each other (`MembersReordered`: the members of any object, at any depth, written in another order) have the same canonical text, or fail alike |
| CanonHash.Sha256Canon | src/canon52_minimal.py:190-195 | any kind other than `text` and `json` gives `BAD_KIND`; `text` gives the digest of the prepared text or the error of its first refused character; `json` gives the digest of the serialised canonical form, `FLOAT_FORBIDDEN`, or the parse error |
| CanonHash.Sha256CanonStable | src/canon52_minimal.py:190-195 | hashing the canonical form gives the same result as hashing the raw input |
| CanonHash.Sha256CanonNewlines | src/canon52_minimal.py:190-192 | a text and its newline-normalised form have the same hash |
| CanonHash.Sha256CanonJsonSeparates | src/canon52_minimal.py:190-195 | with a collision-free digest, two `json` inputs with the same hash have the same canonical value |
| CanonHash.Sha256CanonTextSeparates | src/canon52_minimal.py:190-192 | with a collision-free digest, two `text` inputs with the same hash have the same canonical text |
| Adjudicator.ClassifyAttack | src/canon52_minimal.py:201-212 | AttackHard is 1 exactly when one of the four hard flags is set, AttackSoft is 1 exactly when one of the seven soft flags is set, and each is 0 otherwise |
| Adjudicator.DecideRoute | src/canon52_minimal.py:215-228 | BLACKHOLE exactly on a hard attack; FAST exactly when there is no attack, no uncertainty, nothing pending and the id and proof are valid; SAFE otherwise |
| Adjudicator.BindSupportBranch | src/canon52_minimal.py:231-256 | per route, each justification holds exactly when its own test passes and every earlier test of that route fails |
| Adjudicator.Adjudicate | src/canon52_minimal.py:260-320 | the SupportPack carries the decision's `d_t` and `I_FLOW` |
| Adjudicator.DecisionFields | src/canon52_minimal.py:260-320 | AttackHard and AttackSoft are 1 exactly when a hard or a soft flag is set and 0 otherwise; I_FLOW, in the record and in the SupportPack, is `i_flow`; CommitUnique is `commit_unique` on FAST and 0 elsewhere; OutAllowed and disable_planes are the route's lists; SupportOK is true |
| Adjudicator.AdjudicateTotal | src/canon52_minimal.py:305-318 | `BYPASS_DETECTED` is never raised, and `SupportOK` is true |
| Adjudicator.WorldEffectEquation | src/canon52_minimal.py:271-276 | ΔΩ is `delta_omega_req` exactly when FAST, CommitUnique = 1, I_FLOW = 0 and WORLD_ALLOW hold, and 0 otherwise; that condition holds exactly when there is no attack, the id and proof are valid, the world allows, commit_unique = 1 and i_flow = 0 |
| Adjudicator.NoSilentDenial | src/canon52_minimal.py:288-306 | the reason codes are empty exactly for WORLD_ALLOW; any other `d_t` carries `REASON_<d_t>` |
| Adjudicator.RoutePrecedence | src/canon52_minimal.py:215-252 | a hard attack always goes to BLACKHOLE with QUARANTINE; BLACKHOLE happens exactly on a hard attack; FAST happens exactly when there is no attack and the id and proof are valid |
| Adjudicator.RouteByFlags | src/canon52_minimal.py:201-228 | in request terms: BLACKHOLE exactly when a hard flag is set; FAST exactly when none of the eleven attack flags is set and the id and proof are valid |
| Adjudicator.JustificationPrecedence | src/canon52_minimal.py:231-247 | in request terms: on FAST the world write beats the policy, which beats the evidence; on SAFE pending beats REF, which beats rollback, which beats a plain denial |
| Adjudicator.JustificationByRoute | src/canon52_minimal.py:232-266 | each route binds only its own justifications; CommitUnique is 0 off the FAST route |
| Adjudicator.SupportPackConsistent | src/canon52_minimal.py:278-303 | the tombstone flag is set exactly when ΔΩ = 0; the receipt follows the justification and route; the anchor names the route; only FAST keeps all planes enabled |
| Adjudicator.ScenarioChiHarm | src/canon52_minimal.py:203-252 | `chi_harm` alone goes to BLACKHOLE/QUARANTINE with a DenyPacket and no world effect |
| Adjudicator.ScenarioPending | src/canon52_minimal.py:221-243 | `pending` alone goes to SAFE/PENDING with reason `REASON_PENDING` |
| Adjudicator.ScenarioEmpty | src/canon52_minimal.py:229-239 | the default request goes FAST but only to EVID_ALLOW, with no world effect |
| Adjudicator.ScenarioWorldAllow | src/canon52_minimal.py:234-276 | commit_unique = 1 with the defaults gives WORLD_ALLOW, ΔΩ = 1 and a flow receipt |
| Requests.PyInt | src/canon52_minimal.py:264-269 | `int(...)` keeps integers and raises on null, lists and dicts |
| Requests.PyIntDecimal | src/canon52_minimal.py:264-269 | `int(...)` of a decimal string is the number it spells |
| Requests.TruthyMeaning | src/canon52_minimal.py:203-252 | null is falsy; a bool or int is falsy exactly when `int()` reads 0; a string, list or dict exactly when empty; a float literal exactly when it spells zero |
| Requests.FloatZeroLiterals | src/canon52_minimal.py:203-252 | `0.0`, `-0.0` and `0e7` are falsy |
| Requests.FloatNonZeroLiterals | src/canon52_minimal.py:203-252 | `0.5`, `1e-3` and `NaN` are truthy |
| Requests.RequestOfReads | src/canon52_minimal.py:201-269 | a default-false flag is set exactly when its key is present with a truthy value, `valid_id`, `proof_present` and `world_allow` exactly when absent or truthy; the three numbers are `int()` of their entries or defaults; the request exists exactly when all three conversions succeed, and otherwise fails with the conversion error |
| Requests.RequestOfChiHarm | src/canon52_minimal.py:203-206 | `{"chi_harm": true}` reads as the default request with `chi_harm` set |
| Requests.RequestOfTruthyInt | src/canon52_minimal.py:210-221 | a flag is read by truthiness: `{"pending": 1}` is pending |
| Requests.RequestOfBadInt | src/canon52_minimal.py:264 | a null or non-numeric `i_flow` makes `adjudicate` raise |
| Requests.RequestOfEmpty | src/canon52_minimal.py:223-269 | the empty request reads as all defaults |
| JsonEquality.LookupLast | src/canon52_minimal.py:373 | looking a key up in an object finds its last occurrence, as a dict does |
| JsonEquality.JsonEqReflexive | src/canon52_minimal.py:373 | every JSON value compares equal to itself |
| JsonEquality.JsonEqSymmetric | src/canon52_minimal.py:373 | the comparison is symmetric |
| JsonEquality.JsonEqScalars | src/canon52_minimal.py:373 | a string equals only the same string; `True == 1` and `False == 0`, but `True != 2`, `None != False` and `"1" != 1` |
| JsonEquality.JsonEqMemberOrder | src/canon52_minimal.py:373 | two dicts whose member lists hold the same members in any order (keys distinct, as in a dict) compare equal |
| JsonEquality.LookupPresent | src/canon52_minimal.py:373 | a key of a dict names its last member, whose value a lookup finds |
| Tallies.FailedIds | src/canon52_minimal.py:376-380 | no more ids fail than there are vectors |
| Tallies.FailedIdsEmpty | src/canon52_minimal.py:376-384 | nothing fails exactly when every vector passes |
| Tallies.FailedIdsHas | src/canon52_minimal.py:376-378 | every failing vector's id is reported |
| Tallies.FailedIdsOnly | src/canon52_minimal.py:376-378 | only failing vectors' ids are reported |
| Tallies.FirstErrorIff | src/canon52_minimal.py:365-369 | the run stops exactly when some vector raises, and it stops with the first such error |
| Tallies.FirstErrorPrefix | src/canon52_minimal.py:365-369 | an error in the first n vectors is the run's error |
| Tallies.TallyStep | src/canon52_minimal.py:376-380 | one more passing or failing vector extends the failure list by nothing or by its id |
| Tallies.TallyError | src/canon52_minimal.py:369 | a raising vector after error-free ones ends the run with its error |
| Replay.DecisionJson | src/canon52_minimal.py:308-320 | the decision dict holds all eleven compared keys |
| Replay.MismatchesOf | src/canon52_minimal.py:371-374 | there are at most as many mismatches as keys |
| Replay.Mismatches | src/canon52_minimal.py:371-374 | the loop over the keys collects exactly the mismatches, in key order |
| Replay.MismatchesOfIff | src/canon52_minimal.py:371-376 | no mismatch exactly when every key's values compare equal; every mismatch names a key, the expected value and the differing actual value |
| Replay.AdjudPassesIff | src/canon52_minimal.py:367-380 | a vector raises exactly when its request cannot be read; it passes exactly when all eleven fields compare equal |
| Replay.AdjudPassesOnOwnOutput | src/canon52_minimal.py:367-380 | a vector whose expected record is the adjudicator's own output passes |
| Replay.CheckAdjudVector | src/canon52_minimal.py:366-380 | checking one vector gives its outcome |
| Replay.AdjudOutcomeAt | src/canon52_minimal.py:365-380 | the outcome list holds one outcome per vector, in order: its `i`-th entry is the outcome of the `i`-th vector |
| Replay.RunAdjudTests | src/canon52_minimal.py:361-384 | the run ends with the first vector's error if any vector raises; otherwise OK and FAIL count the passing and failing vectors and the failures are listed in order |
| Replay.CanonHashVector | src/canon52_minimal.py:337-343 | a `hash` vector passes exactly when hashing succeeds and `expected_hash` is the digest, as a string |
| Replay.CanonErrorVector | src/canon52_minimal.py:339-351 | an `error` vector passes exactly when its `expected_error` is falsy (missing, `""`, null, …) or is the string of the raised message (`EXPECTED_ERROR_BUT_GOT_HASH` when a hash came out) |
| Replay.CanonOtherVector | src/canon52_minimal.py:339-354 | a vector expecting neither `hash` nor `error` always fails |
| Replay.CanonErrorVectorWithoutCode | src/canon52_minimal.py:339-351 | an `error` vector whose `expected_error` is falsy passes even when a hash comes out |
| Replay.CanonErrorCodeNotString | src/canon52_minimal.py:344-351 | an `error` vector whose `expected_error` is truthy but not a string never matches a message, so it fails |
| Replay.RaisedIn | src/canon52_minimal.py:337-343 | the `try` block raises nothing exactly when a digest was produced, `expected` is the string `hash` and `expected_hash` is the digest string; a canonicalisation error is raised as is |
| Replay.CanonPasses | src/canon52_minimal.py:337-354 | only a vector expecting `hash` or `error` can pass |
| Replay.CanonVerdictAt | src/canon52_minimal.py:332-354 | the verdict list holds one verdict per vector, in order: its `i`-th entry is the pass or fail of the `i`-th vector |
| Replay.RunCanonSelfTest | src/canon52_minimal.py:329-358 | OK and FAIL count the passing and failing vectors, the failures are listed in order, and no vector stops the run |

## Left out

- NFC, `json.loads` and SHA-256 are parameters. The laws assumed of NFC and `json.loads` are
  stated above; a digest is compared only by equality.
- Where a float literal sits before a syntax error, `json.loads` raises `FLOAT_FORBIDDEN` from
  `parse_float` as soon as it scans the float. The model leaves that ordering to the `parse`
  parameter. `NaN` and `Infinity` parse as floats and are refused by the canonicaliser.
- Python strings may hold lone surrogates, but Dafny characters are Unicode scalar values. Text
  holding a lone surrogate is outside the model.
- Floats are kept as their literal text, and `JsonEquality.JsonEq` compares two floats by
  literal. Python compares by value, so `1.0 == 1` and `1.0 == 1.00` are true there. In the
  model a float equals only the same literal. Floats take part only in the truthiness of
  request flags, where a literal is falsy when every digit of its mantissa is 0.
- Requests.Truthy: judges a float literal by its digits, not by the double Python rounds it
  to. A literal that underflows to 0.0 (`1e-400`) is falsy in Python but truthy in the model.
- Requests.PyInt: reads an integer, a boolean, or a string of an optional sign and ASCII digits.
  Python's `int()` also accepts surrounding whitespace, digit underscores and non-ASCII Unicode
  decimal digits (Arabic-Indic or fullwidth digits, say), and truncates floats; the model fails
  on those inputs instead. Every failure carries the one message `INT_CONVERSION`, where Python
  raises a `TypeError` (for `None`, a list or a dict) or a `ValueError` with its own text.
- The decode error of `json.loads` carries a message with a position. The model lets the
  `parse` parameter choose that text, and an `error` vector's `expected_error` is compared with
  whatever it chose.
- `NON_STRING_KEY`, `UNSUPPORTED_JSON_TYPE` and `BAD_ROUTE` cannot happen here. The JSON
  datatype has only string keys and JSON types, and `Route` has only the three routes.
- The `sort_keys=True` of the final `json.dumps` is not modelled as a separate sort. It acts on
  values that are already canonical, whose keys are already sorted.
- A test vector is a typed record rather than a dict, so vectors missing `id`, `kind`, `raw`,
  `expected` or `req` (a `KeyError` that aborts the run in the source) are outside the model. A
  missing `expected_hash` is modelled; it fails with the message `'expected_hash'`. A canon
  vector's `expected`, `expected_hash` and `expected_error` are JSON values of any type, as in
  the pack. Its `id`, `kind` and `raw` are strings, and an adjudication vector's `req` and
  `expected` are dicts; other types there (a `TypeError` or `AttributeError` in the source) are
  outside the model.
- Replay.HashText: writes a non-string `expected_hash` in the `HASH_MISMATCH` message as its
  compact JSON text, where Python writes its `str()`. The message decides no verdict: it is
  raised only for vectors that expect `hash`, and those fail on any exception.
- CanonHash.ParseLaws: assumes that every float-free value with distinct keys reads back. Python
  has limits the model does not have: `json.loads` and the recursive `canonicalize_json_obj`
  raise `RecursionError` on nesting deeper than the interpreter's recursion limit, and since
  Python 3.11 `json.loads` raises `ValueError` on an integer literal of more than 4300 digits.
  Such documents are canonicalised in the model where the source raises (an `error` vector
  would see that exception).
- Sorting.SortBy: is not stated to be stable, as `sorted` is. No result depends on the order of
  ties: two float-free elements that tie under `elem_key` are equal (`ElemLeAntisymmetric`),
  and the keys of an object are distinct.
- Reading the vector packs from disk, the command line, `print`, `SystemExit`, the spec-anchor
  hashes (`print_anchors`, `canonical_pack_hash`) and `dump_packs` are I/O and are not modelled.
  The runners return their tally and failed ids instead of printing them and exiting with
  status 1.
- An unknown `kind` raises `BAD_KIND`, as in the code; that message is what a vector's
  `expected_error` is compared with.
- Adjudicator.WorldEffectEquation: the source comment says "ΔΩ != 0 iff FAST ∧ CommitUnique ∧
  I_FLOW=0 ∧ WORLD_ALLOW". The code only makes that an equivalence when `delta_omega_req != 0`:
  a request with `delta_omega_req = 0` meets the condition and still has ΔΩ = 0. The lemma
  states the exact version.
