/** The vector-replay runners: the per-vector verdicts and the pass/fail tallies of both suites. */
module Replay {
  import opened Results
  import opened JsonValues
  import opened Adjudicator
  import opened Requests
  import opened JsonEquality
  import opened Tallies
  import CanonHash

  /** The ids of a pack's vectors, one per vector, in order. */
  function Ids<V>(vs: seq<V>, id: V -> string): (ids: seq<string>)
    ensures |ids| == |vs| && forall i :: 0 <= i < |vs| ==> ids[i] == id(vs[i])
  {
    seq(|vs|, i requires 0 <= i < |vs| => id(vs[i]))
  }

  // ------------------------------------------------------------ adjudication vectors

  /** The eleven fields `run_adjud_tests` compares, in its order. */
  const OutKeys := ["Route", "d_t", "AttackHard", "AttackSoft", "I_FLOW", "CommitUnique", "DeltaOmega",
                    "OutAllowed", "disable_planes", "SupportOK", "SupportPack"]

  function Strings(xs: seq<string>): (r: Json)
    ensures r.JArray? && |r.elems| == |xs|
  {
    JArray(seq(|xs|, i requires 0 <= i < |xs| => JString(xs[i])))
  }

  /** The SupportPack as the dict `adjudicate` builds. */
  function SupportPackJson(p: SupportPack): Json {
    JObject([
      ("d_t", JString(JustificationName(p.dT))),
      ("Receipt_t", JString(p.receipt)),
      ("GateVector_t", JObject([("I_FLOW", JInt(p.iFlow)), ("I_CORE_HEX", JInt(0))])),
      ("HookVector_t", JObject([("Pre-Action", JBool(true)), ("Pre-Commit", JBool(true))])),
      ("WritebackVector_t", JObject([("tombstone_redacted", JBool(p.tombstoneRedacted)), ("ChainCont", JInt(1))])),
      ("ReasonCode_t", Strings(p.reasonCodes)),
      ("Anchor_t", JString(p.anchor))])
  }

  /** A list of strings holds no float and no object. */
  lemma StringsPlain(xs: seq<string>)
    ensures FloatFree(Strings(xs)) && UniqueKeys(Strings(xs))
  {
    var r := Strings(xs);
    forall i | 0 <= i < |r.elems| ensures FloatFree(r.elems[i]) && UniqueKeys(r.elems[i]) {
      assert r.elems[i] == JString(xs[i]);
    }
  }

  /** The SupportPack is a dict of seven distinct keys, and neither it nor anything in it is a
      float, so it can be compared and canonicalised like any vector value. */
  lemma SupportPackJsonShape(p: SupportPack)
    ensures SupportPackJson(p).JObject? && |SupportPackJson(p).members| == 7
    ensures UniqueKeys(SupportPackJson(p)) && FloatFree(SupportPackJson(p))
  {
    var ms := SupportPackJson(p).members;
    KeysDistinct7(ms);
    forall i | 0 <= i < 7 ensures FloatFree(ms[i].1) && UniqueKeys(ms[i].1) {
      MemberPlain(p, i);
    }
  }

  lemma MemberPlain(p: SupportPack, i: int)
    requires 0 <= i < 7
    ensures FloatFree(SupportPackJson(p).members[i].1) && UniqueKeys(SupportPackJson(p).members[i].1)
  {
    var v := SupportPackJson(p).members[i].1;
    if i == 5 {
      StringsPlain(p.reasonCodes);
    } else if i == 2 || i == 3 || i == 4 {
      assert |v.members| == 2 && v.members[0].0 != v.members[1].0;
    }
  }

  lemma KeysDistinct7(ms: seq<(string, Json)>)
    requires |ms| == 7
    requires ms[0].0 == "d_t" && ms[1].0 == "Receipt_t" && ms[2].0 == "GateVector_t" && ms[3].0 == "HookVector_t"
    requires ms[4].0 == "WritebackVector_t" && ms[5].0 == "ReasonCode_t" && ms[6].0 == "Anchor_t"
    ensures forall i, k :: 0 <= i < k < |ms| ==> ms[i].0 != ms[k].0
  {
  }

  /** The decision as the dict `adjudicate` returns. */
  function DecisionJson(d: Decision): (out: map<string, Json>)
    ensures forall k :: k in OutKeys ==> k in out
  {
    map[
      "Route" := JString(RouteName(d.route)),
      "d_t" := JString(JustificationName(d.dT)),
      "AttackHard" := JInt(d.attackHard),
      "AttackSoft" := JInt(d.attackSoft),
      "I_FLOW" := JInt(d.iFlow),
      "CommitUnique" := JInt(d.commitUnique),
      "DeltaOmega" := JInt(d.deltaOmega),
      "OutAllowed" := Strings(d.outAllowed),
      "disable_planes" := Strings(d.disablePlanes),
      "SupportOK" := JBool(d.supportOk),
      "SupportPack" := SupportPackJson(d.supportPack)]
  }

  /** `d.get(k)`: None (JSON null) when the key is missing. */
  function GetOr(d: map<string, Json>, k: string): Json {
    if k in d then d[k] else JNull
  }

  /** The mismatch list for the first keys: (key, expected, got) for each key whose values
      differ, in key order. */
  function MismatchesOf(keys: seq<string>, out: map<string, Json>, exp: map<string, Json>): (m: seq<(string, Json, Json)>)
    ensures |m| <= |keys|
  {
    if keys == [] then []
    else
      var k := keys[|keys| - 1];
      MismatchesOf(keys[..|keys| - 1], out, exp) +
        (if JsonEq(GetOr(out, k), GetOr(exp, k)) then [] else [(k, GetOr(exp, k), GetOr(out, k))])
  }

  /** The loop of `run_adjud_tests` that collects the mismatching fields of one vector. */
  method Mismatches(out: map<string, Json>, exp: map<string, Json>) returns (mismatch: seq<(string, Json, Json)>)
    ensures mismatch == MismatchesOf(OutKeys, out, exp)
  {
    mismatch := [];
    for i := 0 to |OutKeys|
      invariant mismatch == MismatchesOf(OutKeys[..i], out, exp)
    {
      var k := OutKeys[i];
      assert OutKeys[..i + 1][..i] == OutKeys[..i];
      if !JsonEq(GetOr(out, k), GetOr(exp, k)) {
        mismatch := mismatch + [(k, GetOr(exp, k), GetOr(out, k))];
      }
    }
    assert OutKeys[..|OutKeys|] == OutKeys;
  }

  /** The mismatch list is empty exactly when every listed field compares equal, and each
      entry names a listed field whose values differ, with those values. */
  lemma {:induction false} MismatchesOfIff(keys: seq<string>, out: map<string, Json>, exp: map<string, Json>)
    ensures MismatchesOf(keys, out, exp) == [] <==>
      forall i :: 0 <= i < |keys| ==> JsonEq(GetOr(out, keys[i]), GetOr(exp, keys[i]))
    ensures forall t :: t in MismatchesOf(keys, out, exp) ==>
      t.0 in keys && t.1 == GetOr(exp, t.0) && t.2 == GetOr(out, t.0) && !JsonEq(t.2, t.1)
    decreases |keys|
  {
    if keys != [] {
      var init := keys[..|keys| - 1];
      var k := keys[|keys| - 1];
      var rest := if JsonEq(GetOr(out, k), GetOr(exp, k)) then [] else [(k, GetOr(exp, k), GetOr(out, k))];
      MismatchesOfIff(init, out, exp);
      assert MismatchesOf(keys, out, exp) == MismatchesOf(init, out, exp) + rest;
      assert keys == init + [k];
      if MismatchesOf(keys, out, exp) == [] {
        forall i | 0 <= i < |keys| ensures JsonEq(GetOr(out, keys[i]), GetOr(exp, keys[i])) {
          if i < |init| {
            assert init[i] == keys[i];
          }
        }
      } else if rest == [] {
        var i :| 0 <= i < |init| && !JsonEq(GetOr(out, init[i]), GetOr(exp, init[i]));
        assert init[i] == keys[i];
      }
      forall t | t in MismatchesOf(keys, out, exp)
        ensures t.0 in keys && t.1 == GetOr(exp, t.0) && t.2 == GetOr(out, t.0) && !JsonEq(t.2, t.1)
      {
        if t in MismatchesOf(init, out, exp) {
          assert t.0 in init;
        }
      }
    }
  }

  datatype AdjudVector = AdjudVector(id: string, req: map<string, Json>, expected: map<string, Json>)

  /** One adjudication vector: Ok(true) when it passes, Ok(false) when a field differs, and the
      exception `adjudicate` raised otherwise (which ends the whole run). */
  function AdjudPasses(v: AdjudVector): Result<bool> {
    match RequestOf(v.req)
    case Err(e) => Err(e)
    case Ok(r) =>
      match Adjudicate(r)
      case Err(e) => Err(e)
      case Ok(d) => Ok(MismatchesOf(OutKeys, DecisionJson(d), v.expected) == [])
  }

  /** A vector passes exactly when its request can be read and all eleven fields compare equal. */
  lemma AdjudPassesIff(v: AdjudVector)
    ensures AdjudPasses(v).Ok? <==> RequestOf(v.req).Ok?
    ensures AdjudPasses(v) == Ok(true) <==>
      RequestOf(v.req).Ok? &&
      var out := DecisionJson(Adjudicate(RequestOf(v.req).value).value);
      forall i :: 0 <= i < |OutKeys| ==> JsonEq(GetOr(out, OutKeys[i]), GetOr(v.expected, OutKeys[i]))
  {
    if RequestOf(v.req).Ok? {
      AdjudicateTotal(RequestOf(v.req).value);
      var out := DecisionJson(Adjudicate(RequestOf(v.req).value).value);
      MismatchesOfIff(OutKeys, out, v.expected);
    }
  }

  /** A vector whose expected record is exactly the adjudicator's own output passes. */
  lemma AdjudPassesOnOwnOutput(v: AdjudVector)
    requires RequestOf(v.req).Ok?
    requires v.expected == DecisionJson(Adjudicate(RequestOf(v.req).value).value)
    ensures AdjudPasses(v) == Ok(true)
  {
    AdjudicateTotal(RequestOf(v.req).value);
    forall i | 0 <= i < |OutKeys| ensures JsonEq(GetOr(v.expected, OutKeys[i]), GetOr(v.expected, OutKeys[i])) {
      JsonEqReflexive(GetOr(v.expected, OutKeys[i]));
    }
    AdjudPassesIff(v);
  }

  // ------------------------------------------------------------ running the adjudication vectors

  /** The body of the loop of `run_adjud_tests` for one vector: read the request, adjudicate,
      compare the fields. */
  method CheckAdjudVector(v: AdjudVector) returns (r: Result<bool>)
    ensures r == AdjudPasses(v)
  {
    var req := RequestOf(v.req);
    if req.Err? {
      return Err(req.msg);
    }
    var out := Adjudicate(req.value);
    if out.Err? {
      return Err(out.msg);
    }
    var mismatch := Mismatches(DecisionJson(out.value), v.expected);
    r := Ok(mismatch == []);
  }

  function AdjudOutcomes(vs: seq<AdjudVector>): (rs: seq<Result<bool>>)
    ensures |rs| == |vs|
  {
    if vs == [] then [] else [AdjudPasses(vs[0])] + AdjudOutcomes(vs[1..])
  }

  /** Entry `i` of the list belongs to vector `i`. */
  lemma {:induction false} AdjudOutcomeAt(vs: seq<AdjudVector>, i: nat)
    requires i < |vs|
    ensures AdjudOutcomes(vs)[i] == AdjudPasses(vs[i])
    decreases i
  {
    if i > 0 {
      AdjudOutcomeAt(vs[1..], i - 1);
    }
  }

  /** The loop body for the `i`-th vector, stated on the outcome sequence. */
  method CheckAdjudAt(vs: seq<AdjudVector>, i: nat) returns (r: Result<bool>)
    requires i < |vs|
    ensures r == AdjudOutcomes(vs)[i]
  {
    r := CheckAdjudVector(vs[i]);
    AdjudOutcomeAt(vs, i);
  }

  function AdjudId(v: AdjudVector): string {
    v.id
  }

  /** `run_adjud_tests`: an exception from a vector ends the run with that exception; otherwise
      every vector is counted OK or FAIL, and a FAIL records its id. */
  method RunAdjudTests(vs: seq<AdjudVector>) returns (r: Result<Tally>)
    ensures FirstError(AdjudOutcomes(vs)).Some? ==> r == Err(FirstError(AdjudOutcomes(vs)).value)
    ensures FirstError(AdjudOutcomes(vs)).None? ==>
      var f := FailedIds(Ids(vs, AdjudId), Verdicts(AdjudOutcomes(vs)));
      r == Ok(Tally(|vs| - |f|, |f|, f))
  {
    ghost var outs := AdjudOutcomes(vs);
    ghost var ids := Ids(vs, AdjudId);
    var ok, fail := 0, 0;
    var failed: seq<string> := [];
    for i := 0 to |vs|
      invariant FirstError(outs[..i]) == None
      invariant failed == FailedIds(ids[..i], Verdicts(outs)[..i])
      invariant fail == |failed| && ok + fail == i
    {
      var v := vs[i];
      var passed := CheckAdjudAt(vs, i);
      if passed.Err? {
        TallyError(outs, i);
        return Err(passed.msg);
      }
      TallyStep(outs, ids, i);
      if passed.value {
        ok := ok + 1;
      } else {
        fail := fail + 1;
        failed := failed + [v.id];
      }
    }
    TallyEnd(outs, ids);
    r := Ok(Tally(ok, fail, failed));
  }

  // ------------------------------------------------------------ canonicalisation vectors

  const ExpectedErrorButGotHash := "EXPECTED_ERROR_BUT_GOT_HASH"
  /** What `str()` gives for the KeyError of a missing `expected_hash`. */
  const MissingExpectedHash := "'expected_hash'"

  /** A canonicalisation vector. `expected`, `expected_hash` and `expected_error` hold whatever
      JSON value the pack gives them; a missing `expected_hash` or `expected_error` is None. */
  datatype CanonVector = CanonVector(
    id: string, kind: string, raw: string, expected: Json,
    expectedHash: Option<Json>, expectedError: Option<Json>)

  /** `v.get("expected_error", "")`. */
  function ErrorCode(v: CanonVector): Json {
    if v.expectedError.Some? then v.expectedError.value else JString("")
  }

  /** The expected hash as the mismatch message writes it: a string as itself; for any other
      value the compact JSON text stands in for Python's `str()`. */
  function HashText(h: Json): string {
    if h.JString? then h.s else Serialize(h)
  }

  /** The message of the exception the `try` block ends with, if any: the canonicaliser's
      error, the assertion on `expected`, the missing `expected_hash`, or the hash mismatch.
      Only a string equal to the digest matches it, as Python's `!=` between a str and any
      other JSON value says. */
  function RaisedIn(v: CanonVector, outcome: Result<string>): (r: Option<string>)
    ensures r.None? <==>
      outcome.Ok? && v.expected == JString("hash") && v.expectedHash == Some(JString(outcome.value))
    ensures outcome.Err? ==> r == Some(outcome.msg)
  {
    if outcome.Err? then Some(outcome.msg)
    else if v.expected != JString("hash") then Some(ExpectedErrorButGotHash)
    else if v.expectedHash.None? then Some(MissingExpectedHash)
    else if v.expectedHash.value != JString(outcome.value) then
      Some("HASH_MISMATCH expected=" + HashText(v.expectedHash.value) + " got=" + outcome.value)
    else None
  }

  /** The verdict of `run_canon_selftest` for one vector, given the outcome of `sha256_canon`:
      an exception passes a vector expecting "error" when its `expected_error` is falsy or
      equals the message. */
  function CanonPasses(v: CanonVector, outcome: Result<string>): (p: bool)
    ensures p ==> v.expected == JString("hash") || v.expected == JString("error")
  {
    match RaisedIn(v, outcome)
    case None => true
    case Some(m) => v.expected == JString("error") && (!Truthy(ErrorCode(v)) || ErrorCode(v) == JString(m))
  }

  /** A vector expecting a hash passes exactly when a digest is produced and equals it. */
  lemma CanonHashVector(v: CanonVector, outcome: Result<string>)
    requires v.expected == JString("hash")
    ensures CanonPasses(v, outcome) <==> outcome.Ok? && v.expectedHash == Some(JString(outcome.value))
  {
  }

  /** A vector expecting an error passes exactly when its code is falsy or equals the message
      raised, which is EXPECTED_ERROR_BUT_GOT_HASH when a digest was produced. */
  lemma CanonErrorVector(v: CanonVector, outcome: Result<string>)
    requires v.expected == JString("error")
    ensures CanonPasses(v, outcome) <==>
      !Truthy(ErrorCode(v)) ||
      ErrorCode(v) == JString(if outcome.Err? then outcome.msg else ExpectedErrorButGotHash)
  {
  }

  /** Any other `expected` always fails. */
  lemma CanonOtherVector(v: CanonVector, outcome: Result<string>)
    requires v.expected != JString("hash") && v.expected != JString("error")
    ensures !CanonPasses(v, outcome)
  {
  }

  /** The quirk: a vector expecting an error whose code is missing, "", null or otherwise falsy
      passes even when a digest is produced. */
  lemma CanonErrorVectorWithoutCode(v: CanonVector, digest: string)
    requires v.expected == JString("error") && !Truthy(ErrorCode(v))
    ensures CanonPasses(v, Ok(digest))
  {
  }

  /** A truthy code that is not a string never equals a message, so the vector fails. */
  lemma CanonErrorCodeNotString(v: CanonVector, outcome: Result<string>)
    requires v.expected == JString("error") && Truthy(ErrorCode(v)) && !ErrorCode(v).JString?
    ensures !CanonPasses(v, outcome)
  {
  }

  function CanonOutcome(v: CanonVector, nfc: string -> string, parse: string -> Result<Json>,
                        digest: string -> string): Result<string> {
    CanonHash.Sha256Canon(v.kind, v.raw, nfc, parse, digest)
  }

  function CanonVerdicts(vs: seq<CanonVector>, nfc: string -> string, parse: string -> Result<Json>,
                         digest: string -> string): (ps: seq<bool>)
    ensures |ps| == |vs|
  {
    if vs == [] then []
    else [CanonPasses(vs[0], CanonOutcome(vs[0], nfc, parse, digest))] + CanonVerdicts(vs[1..], nfc, parse, digest)
  }

  /** Entry `i` of the list belongs to vector `i`. */
  lemma {:induction false} CanonVerdictAt(vs: seq<CanonVector>, nfc: string -> string,
                                          parse: string -> Result<Json>, digest: string -> string, i: nat)
    requires i < |vs|
    ensures CanonVerdicts(vs, nfc, parse, digest)[i] == CanonPasses(vs[i], CanonOutcome(vs[i], nfc, parse, digest))
    decreases i
  {
    if i > 0 {
      CanonVerdictAt(vs[1..], nfc, parse, digest, i - 1);
    }
  }

  function CanonId(v: CanonVector): string {
    v.id
  }

  /** The body of the loop of `run_canon_selftest` for one vector: hash it and judge the outcome. */
  method CheckCanonVector(v: CanonVector, nfc: string -> string, parse: string -> Result<Json>,
                          digest: string -> string) returns (pass: bool)
    ensures pass == CanonPasses(v, CanonOutcome(v, nfc, parse, digest))
  {
    var got := CanonHash.Sha256Canon(v.kind, v.raw, nfc, parse, digest);
    pass := CanonPasses(v, got);
  }

  /** The loop body for the `i`-th vector, stated on the verdict sequence. */
  method CheckCanonAt(vs: seq<CanonVector>, i: nat, nfc: string -> string, parse: string -> Result<Json>,
                      digest: string -> string) returns (pass: bool)
    requires i < |vs|
    ensures pass == CanonVerdicts(vs, nfc, parse, digest)[i]
  {
    pass := CheckCanonVector(vs[i], nfc, parse, digest);
    CanonVerdictAt(vs, nfc, parse, digest, i);
  }

  /** `run_canon_selftest`: every exception is caught, so every vector is counted OK or FAIL,
      and a FAIL records its id. */
  method RunCanonSelfTest(vs: seq<CanonVector>, nfc: string -> string, parse: string -> Result<Json>,
                          digest: string -> string) returns (t: Tally)
    ensures var f := FailedIds(Ids(vs, CanonId), CanonVerdicts(vs, nfc, parse, digest));
      t == Tally(|vs| - |f|, |f|, f)
  {
    ghost var ids := Ids(vs, CanonId);
    ghost var verdicts := CanonVerdicts(vs, nfc, parse, digest);
    var ok, fail := 0, 0;
    var failed: seq<string> := [];
    for i := 0 to |vs|
      invariant failed == FailedIds(ids[..i], verdicts[..i])
      invariant fail == |failed| && ok + fail == i
    {
      var v := vs[i];
      assert ids[..i + 1][..i] == ids[..i] && verdicts[..i + 1][..i] == verdicts[..i];
      var pass := CheckCanonAt(vs, i, nfc, parse, digest);
      if pass {
        ok := ok + 1;
      } else {
        fail := fail + 1;
        failed := failed + [v.id];
      }
    }
    assert ids[..|vs|] == ids && verdicts[..|vs|] == verdicts;
    t := Tally(ok, fail, failed);
  }
}
