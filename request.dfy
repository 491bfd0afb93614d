/** Reading an adjudication request from its JSON mapping: Python truthiness for the flags and
    `int()` for the three numbers. */
module Requests {
  import opened Results
  import opened JsonValues
  import opened Adjudicator

  /** Python truthiness of a JSON value. A float literal is false when every digit of its
      mantissa is 0 (`NaN` and `Infinity` have none and are true). */
  predicate Truthy(j: Json) {
    match j
    case JNull => false
    case JBool(b) => b
    case JInt(n) => n != 0
    case JFloat(lit) => !FloatLiteralIsZero(lit)
    case JString(s) => s != []
    case JArray(xs) => xs != []
    case JObject(ms) => ms != []
  }

  /** A float literal denotes zero when its mantissa (the part before any exponent) has a
      digit and all its digits are 0. */
  predicate FloatLiteralIsZero(lit: string) {
    MantissaZero(lit, false)
  }

  /** Scans the mantissa; `seen` records whether a digit has been met so far. */
  predicate MantissaZero(lit: string, seen: bool) {
    if lit == [] || lit[0] == 'e' || lit[0] == 'E' then seen
    else if IsDigit(lit[0]) then lit[0] == '0' && MantissaZero(lit[1..], true)
    else MantissaZero(lit[1..], seen)
  }

  /** `req.get(key, default)`. */
  function Get(req: map<string, Json>, key: string, default: Json): Json {
    if key in req then req[key] else default
  }

  /** `req.get(key, default)` read for its truthiness. */
  predicate Flag(req: map<string, Json>, key: string, default: bool) {
    Truthy(Get(req, key, JBool(default)))
  }

  const IntConversionError := "INT_CONVERSION"

  /** A string of ASCII digits with an optional sign, read as `int()` reads it. */
  function ParseIntText(s: string): Option<int> {
    if s != [] && (s[0] == '-' || s[0] == '+') then
      var d := s[1..];
      if d != [] && forall i :: 0 <= i < |d| ==> IsDigit(d[i]) then
        Some(if s[0] == '-' then -DecimalValue(d) else DecimalValue(d))
      else None
    else if s != [] && forall i :: 0 <= i < |s| ==> IsDigit(s[i]) then Some(DecimalValue(s))
    else None
  }

  /** `int(v)` for a JSON value: booleans are 0 or 1, integers themselves, decimal strings
      their value; anything else raises, and the replay stops. */
  function PyInt(j: Json): (r: Result<int>)
    ensures j.JInt? ==> r == Ok(j.i)
    ensures j.JNull? || j.JArray? || j.JObject? ==> r.Err?
  {
    match j
    case JBool(b) => Ok(if b then 1 else 0)
    case JInt(n) => Ok(n)
    case JString(s) =>
      (match ParseIntText(s)
       case Some(n) => Ok(n)
       case None => Err(IntConversionError))
    case _ => Err(IntConversionError)
  }

  /** The request `adjudicate` sees in a JSON mapping: each flag is the truthiness of its entry
      (or of its default), and `i_flow`, `commit_unique` and `delta_omega_req` are converted in
      that order; the first conversion that fails is the error. */
  function RequestOf(req: map<string, Json>): Result<Request> {
    match PyInt(Get(req, "i_flow", JInt(0)))
    case Err(e) => Err(e)
    case Ok(iFlow) =>
      match PyInt(Get(req, "commit_unique", JInt(0)))
      case Err(e) => Err(e)
      case Ok(commitUnique) =>
        match PyInt(Get(req, "delta_omega_req", JInt(1)))
        case Err(e) => Err(e)
        case Ok(deltaOmegaReq) =>
          Ok(Request(
            Flag(req, "chi_touch", false), Flag(req, "chi_harm", false), Flag(req, "unsupervised_write", false),
            Flag(req, "fake_proof_seal", false), Flag(req, "novel_attack_flag", false), Flag(req, "bypass_flag", false),
            Flag(req, "chi_infect", false), Flag(req, "chi_spread", false), Flag(req, "chi_poison", false),
            Flag(req, "uncertainty_flag", false), Flag(req, "pending", false), Flag(req, "valid_id", true),
            Flag(req, "proof_present", true), Flag(req, "world_allow", true), Flag(req, "policy_allow", false),
            Flag(req, "ref", false), Flag(req, "rollback", false),
            iFlow, commitUnique, deltaOmegaReq))
  }

  /** Truthiness by kind: null is false, a boolean or an integer is false exactly when `int()`
      reads it as 0, a string or container exactly when it is empty, a float literal exactly
      when it spells zero. */
  lemma TruthyMeaning(j: Json)
    ensures j.JNull? ==> !Truthy(j)
    ensures j.JBool? || j.JInt? ==> (Truthy(j) <==> PyInt(j) != Ok(0))
    ensures j.JString? ==> (Truthy(j) <==> |j.s| > 0)
    ensures j.JArray? ==> (Truthy(j) <==> |j.elems| > 0)
    ensures j.JObject? ==> (Truthy(j) <==> |j.members| > 0)
    ensures j.JFloat? ==> (Truthy(j) <==> !FloatLiteralIsZero(j.literal))
  {
  }

  /** Zero literals are falsy whatever their sign, fraction or exponent. */
  lemma FloatZeroLiterals()
    ensures !Truthy(JFloat("0.0")) && !Truthy(JFloat("-0.0")) && !Truthy(JFloat("0e7"))
  {
    assert "0.0"[1..] == ".0" && ".0"[1..] == "0" && "0"[1..] == [];
    assert "-0.0"[1..] == "0.0";
    assert "0e7"[1..] == "e7";
  }

  /** A literal with a non-zero digit in its mantissa, or with no digit at all, is truthy. */
  lemma FloatNonZeroLiterals()
    ensures Truthy(JFloat("0.5")) && Truthy(JFloat("1e-3")) && Truthy(JFloat("NaN"))
  {
    assert "0.5"[1..] == ".5" && ".5"[1..] == "5";
    assert "1e-3"[0] == '1';
    assert "NaN"[1..] == "aN" && "aN"[1..] == "N" && "N"[1..] == [];
  }

  /** A flag read with a default: the truthiness of the entry when the key is present. */
  lemma FlagRead(req: map<string, Json>, key: string, default: bool)
    ensures Flag(req, key, default) <==> (if key in req then Truthy(req[key]) else default)
  {
  }

  /** How `adjudicate` reads a mapping: each flag is true exactly when its key is present and
      its value truthy (or, for `valid_id`, `proof_present` and `world_allow`, when the key is
      absent), the three numbers are `int()` of their entries or defaults, and the request
      exists exactly when all three conversions succeed. */
  lemma RequestOfReads(req: map<string, Json>)
    ensures RequestOf(req).Ok? <==>
      PyInt(Get(req, "i_flow", JInt(0))).Ok? && PyInt(Get(req, "commit_unique", JInt(0))).Ok? &&
      PyInt(Get(req, "delta_omega_req", JInt(1))).Ok?
    ensures RequestOf(req).Err? ==> RequestOf(req).msg == IntConversionError
    ensures RequestOf(req).Ok? ==> RequestReads(req, RequestOf(req).value)
  {
    if RequestOf(req).Ok? {
      var keys := ["chi_touch", "chi_harm", "unsupervised_write", "fake_proof_seal", "novel_attack_flag",
                   "bypass_flag", "chi_infect", "chi_spread", "chi_poison", "uncertainty_flag", "pending",
                   "policy_allow", "ref", "rollback"];
      forall k | k in keys ensures Flag(req, k, false) <==> k in req && Truthy(req[k]) {
        FlagRead(req, k, false);
      }
      forall k | k in ["valid_id", "proof_present", "world_allow"]
        ensures Flag(req, k, true) <==> k !in req || Truthy(req[k])
      {
        FlagRead(req, k, true);
      }
    }
  }

  /** The fields of `r` as `adjudicate` reads them from `req`. */
  predicate RequestReads(req: map<string, Json>, r: Request) {
    (r.chiTouch <==> "chi_touch" in req && Truthy(req["chi_touch"])) &&
    (r.chiHarm <==> "chi_harm" in req && Truthy(req["chi_harm"])) &&
    (r.unsupervisedWrite <==> "unsupervised_write" in req && Truthy(req["unsupervised_write"])) &&
    (r.fakeProofSeal <==> "fake_proof_seal" in req && Truthy(req["fake_proof_seal"])) &&
    (r.novelAttackFlag <==> "novel_attack_flag" in req && Truthy(req["novel_attack_flag"])) &&
    (r.bypassFlag <==> "bypass_flag" in req && Truthy(req["bypass_flag"])) &&
    (r.chiInfect <==> "chi_infect" in req && Truthy(req["chi_infect"])) &&
    (r.chiSpread <==> "chi_spread" in req && Truthy(req["chi_spread"])) &&
    (r.chiPoison <==> "chi_poison" in req && Truthy(req["chi_poison"])) &&
    (r.uncertaintyFlag <==> "uncertainty_flag" in req && Truthy(req["uncertainty_flag"])) &&
    (r.pending <==> "pending" in req && Truthy(req["pending"])) &&
    (r.validId <==> "valid_id" !in req || Truthy(req["valid_id"])) &&
    (r.proofPresent <==> "proof_present" !in req || Truthy(req["proof_present"])) &&
    (r.worldAllow <==> "world_allow" !in req || Truthy(req["world_allow"])) &&
    (r.policyAllow <==> "policy_allow" in req && Truthy(req["policy_allow"])) &&
    (r.ref <==> "ref" in req && Truthy(req["ref"])) &&
    (r.rollback <==> "rollback" in req && Truthy(req["rollback"])) &&
    Ok(r.iFlow) == PyInt(Get(req, "i_flow", JInt(0))) &&
    Ok(r.commitUnique) == PyInt(Get(req, "commit_unique", JInt(0))) &&
    Ok(r.deltaOmegaReq) == PyInt(Get(req, "delta_omega_req", JInt(1)))
  }

  /** `{"chi_harm": true}` is the default request with `chi_harm` set. */
  lemma RequestOfChiHarm()
    ensures RequestOf(map["chi_harm" := JBool(true)]) == Ok(RequestDefaults.(chiHarm := true))
  {
    var req := map["chi_harm" := JBool(true)];
    assert req.Keys == {"chi_harm"};
    assert Get(req, "i_flow", JInt(0)) == JInt(0);
    assert Get(req, "commit_unique", JInt(0)) == JInt(0);
    assert Get(req, "delta_omega_req", JInt(1)) == JInt(1);
  }

  /** Truthiness, not the boolean type, decides a flag: `{"pending": 1}` is pending. */
  lemma RequestOfTruthyInt()
    ensures RequestOf(map["pending" := JInt(1)]) == Ok(RequestDefaults.(pending := true))
  {
    var req := map["pending" := JInt(1)];
    assert req.Keys == {"pending"};
    assert Get(req, "i_flow", JInt(0)) == JInt(0);
    assert Get(req, "commit_unique", JInt(0)) == JInt(0);
    assert Get(req, "delta_omega_req", JInt(1)) == JInt(1);
  }

  /** A non-numeric `i_flow` makes `adjudicate` raise. */
  lemma RequestOfBadInt()
    ensures RequestOf(map["i_flow" := JNull]).Err?
    ensures RequestOf(map["i_flow" := JString("x")]).Err?
  {
  }

  /** The empty mapping is the request of all defaults. */
  lemma RequestOfEmpty()
    ensures RequestOf(map[]) == Ok(RequestDefaults)
  {
  }

  /** A decimal string is read as the number it spells. */
  lemma PyIntDecimal(n: int)
    ensures PyInt(JString(IntToDecimal(n))) == Ok(n)
  {
    if n < 0 {
      var d := NatToDecimal(-n);
      assert ("-" + d)[1..] == d;
      DecimalRoundTrip(-n);
    } else {
      DecimalRoundTrip(n);
    }
  }
}
