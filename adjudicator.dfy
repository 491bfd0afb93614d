/** The minimal adjudicator: attack classification, route selection, justification binding and
    the decision record with its SupportPack. */
module Adjudicator {
  import opened Results

  /** An adjudication request as a closed record. `RequestDefaults` gives the value of every
      field the caller leaves out. */
  datatype Request = Request(
    chiTouch: bool, chiHarm: bool, unsupervisedWrite: bool, fakeProofSeal: bool,
    novelAttackFlag: bool, bypassFlag: bool, chiInfect: bool, chiSpread: bool, chiPoison: bool,
    uncertaintyFlag: bool, pending: bool, validId: bool, proofPresent: bool,
    worldAllow: bool, policyAllow: bool, ref: bool, rollback: bool,
    iFlow: int, commitUnique: int, deltaOmegaReq: int)

  /** Every flag false and every number 0, except `valid_id`, `proof_present` and
      `world_allow` (true) and `delta_omega_req` (1). */
  const RequestDefaults := Request(
    false, false, false, false,
    false, false, false, false, false,
    false, false, true, true,
    true, false, false, false,
    0, 0, 1)

  datatype Route = Fast | Safe | Blackhole

  datatype Justification =
    WorldAllow | PolicyAllow | EvidAllow | Pending | Ref | Rollback | Deny | Quarantine

  function RouteName(r: Route): string {
    match r
    case Fast => "FAST"
    case Safe => "SAFE"
    case Blackhole => "BLACKHOLE"
  }

  function JustificationName(d: Justification): string {
    match d
    case WorldAllow => "WORLD_ALLOW"
    case PolicyAllow => "POLICY_ALLOW"
    case EvidAllow => "EVID_ALLOW"
    case Pending => "PENDING"
    case Ref => "REF"
    case Rollback => "ROLLBACK"
    case Deny => "DENY"
    case Quarantine => "QUARANTINE"
  }

  /** The structured justification attached to a decision. The fields the source fills with
      constants (`I_CORE_HEX` 0, both hooks true, `ChainCont` 1) are written out by `Replay`. */
  datatype SupportPack = SupportPack(
    dT: Justification, receipt: string, iFlow: int, tombstoneRedacted: bool,
    reasonCodes: seq<string>, anchor: string)

  datatype Decision = Decision(
    route: Route, dT: Justification, attackHard: int, attackSoft: int, iFlow: int,
    commitUnique: int, deltaOmega: int, outAllowed: seq<string>, disablePlanes: seq<string>,
    supportOk: bool, supportPack: SupportPack)

  const BypassDetected := "BYPASS_DETECTED: Missing ReasonCode for non-WORLD_ALLOW"

  const FastOutputs := ["WORLDWRITE", "PUBLISH", "TX", "BRIDGE", "TOOL"]
  const SafeOutputs := ["Explain", "EvidencePlan", "SimPlan", "REF", "UNCERT"]
  const BlackholeOutputs := ["REF"]
  const GuardedPlanes := ["CLAIM", "PUBLISH", "TX", "BRIDGE", "TOOL", "WORLDWRITE", "PROP", "RENDER", "INTERACT"]

  // ------------------------------------------------------------ the decision table

  /** `classify_attack`: (AttackHard, AttackSoft), each 0 or 1. A hard attack is touching,
      harming, an unsupervised write or a faked proof seal; a soft one is any of the seven
      softer signals, `pending` among them. */
  function ClassifyAttack(req: Request): (r: (int, int))
    ensures r.0 in {0, 1} && r.1 in {0, 1}
    ensures r.0 == 1 <==> req.chiTouch || req.chiHarm || req.unsupervisedWrite || req.fakeProofSeal
    ensures r.1 == 1 <==>
      req.novelAttackFlag || req.bypassFlag || req.chiInfect || req.chiSpread || req.chiPoison ||
      req.uncertaintyFlag || req.pending
  {
    var hard := req.chiTouch || req.chiHarm || req.unsupervisedWrite || req.fakeProofSeal;
    var soft := req.novelAttackFlag || req.bypassFlag || req.chiInfect || req.chiSpread ||
      req.chiPoison || req.uncertaintyFlag || req.pending;
    (if hard then 1 else 0, if soft then 1 else 0)
  }

  /** `decide_route`: the first matching rule wins. A hard attack alone leads to BLACKHOLE;
      FAST needs every check passed; everything in between is SAFE. */
  function DecideRoute(req: Request, attackHard: int, attackSoft: int): (r: Route)
    ensures r == Blackhole <==> attackHard != 0
    ensures r == Fast <==>
      attackHard == 0 && attackSoft == 0 && !req.uncertaintyFlag && !req.pending &&
      req.validId && req.proofPresent
  {
    if attackHard != 0 then Blackhole
    else if req.uncertaintyFlag then Safe
    else if req.pending then Safe
    else if !req.validId then Safe
    else if !req.proofPresent then Safe
    else if attackSoft != 0 then Safe
    else Fast
  }

  /** `bind_support_branch`: the justification for the chosen route, each route trying its
      justifications in a fixed order. */
  function BindSupportBranch(route: Route, req: Request, attackHard: int, iFlow: int, commitUniqueFinal: int): (d: Justification)
    ensures route == Fast ==>
      var world := req.worldAllow && commitUniqueFinal == 1 && iFlow == 0;
      && (d == WorldAllow <==> world)
      && (d == PolicyAllow <==> !world && req.policyAllow)
      && (d == EvidAllow <==> !world && !req.policyAllow)
    ensures route == Safe ==>
      && (d == Pending <==> req.pending)
      && (d == Ref <==> !req.pending && req.ref)
      && (d == Rollback <==> !req.pending && !req.ref && req.rollback)
      && (d == Deny <==> !req.pending && !req.ref && !req.rollback)
    ensures route == Blackhole ==>
      && (d == Quarantine <==> attackHard != 0)
      && (d == Rollback <==> attackHard == 0 && req.rollback)
      && (d == Deny <==> attackHard == 0 && !req.rollback)
  {
    match route
    case Fast =>
      if req.worldAllow && commitUniqueFinal == 1 && iFlow == 0 then WorldAllow
      else if req.policyAllow then PolicyAllow
      else EvidAllow
    case Safe =>
      if req.pending then Pending
      else if req.ref then Ref
      else if req.rollback then Rollback
      else Deny
    case Blackhole =>
      if attackHard != 0 then Quarantine
      else if req.rollback then Rollback
      else Deny
  }

  /** `adjudicate`: the decision record, or the BYPASS_DETECTED failure when a non-WORLD_ALLOW
      justification would carry no reason code. */
  function Adjudicate(req: Request): (r: Result<Decision>)
    ensures r.Ok? ==> r.value.supportPack.dT == r.value.dT && r.value.supportPack.iFlow == r.value.iFlow
  {
    var (hard, soft) := ClassifyAttack(req);
    var route := DecideRoute(req, hard, soft);
    var iFlow := req.iFlow;
    var commitUniqueFinal := if route == Fast then req.commitUnique else 0;
    var dT := BindSupportBranch(route, req, hard, iFlow, commitUniqueFinal);
    var deltaOmega :=
      if route == Fast && commitUniqueFinal == 1 && iFlow == 0 && dT == WorldAllow then req.deltaOmegaReq else 0;
    var outAllowed := match route case Fast => FastOutputs case Safe => SafeOutputs case Blackhole => BlackholeOutputs;
    var disablePlanes := if route == Fast then [] else GuardedPlanes;
    var reasons := if dT == WorldAllow then [] else ["REASON_" + JustificationName(dT)];
    var receipt :=
      if dT == WorldAllow then "ReceiptCard^FLOW"
      else if route == Blackhole then "DenyPacket" else "ReceiptCard^FAIL";
    var pack := SupportPack(dT, receipt, iFlow, deltaOmega == 0, reasons, "ANCHOR_" + RouteName(route));
    if dT != WorldAllow && reasons == [] then Err(BypassDetected)
    else Ok(Decision(route, dT, hard, soft, iFlow, commitUniqueFinal, deltaOmega,
                     outAllowed, disablePlanes, true, pack))
  }

  // ------------------------------------------------------------ properties

  /** Every request is decided: the BYPASS_DETECTED failure never happens. */
  lemma AdjudicateTotal(req: Request)
    ensures Adjudicate(req).Ok?
    ensures Adjudicate(req).value.supportOk
  {
  }

  /** The fields of the decision record that follow from the request directly: the two attack
      bits as `classify_attack` sets them, I_FLOW (in the record and in the SupportPack) as
      `i_flow`, CommitUnique as `commit_unique` on FAST and 0 elsewhere, the allowed outputs
      and disabled planes of the route, and SupportOK. */
  lemma DecisionFields(req: Request)
    ensures var d := Adjudicate(req).value;
      var hard := req.chiTouch || req.chiHarm || req.unsupervisedWrite || req.fakeProofSeal;
      var soft := req.novelAttackFlag || req.bypassFlag || req.chiInfect || req.chiSpread ||
        req.chiPoison || req.uncertaintyFlag || req.pending;
      && d.attackHard == (if hard then 1 else 0)
      && d.attackSoft == (if soft then 1 else 0)
      && d.iFlow == req.iFlow && d.supportPack.iFlow == req.iFlow
      && d.commitUnique == (if d.route == Fast then req.commitUnique else 0)
      && d.outAllowed == (match d.route case Fast => FastOutputs case Safe => SafeOutputs case Blackhole => BlackholeOutputs)
      && d.disablePlanes == (if d.route == Fast then [] else GuardedPlanes)
      && d.supportOk
  {
  }

  /** The world-effect equation: ΔΩ is the requested magnitude when the route is FAST, the
      finalised commit-uniqueness is 1, I_FLOW is 0 and d_t is WORLD_ALLOW, and 0 otherwise;
      so ΔΩ is non-zero exactly then, provided the requested magnitude is not 0. In terms of
      the request, the condition holds exactly when no attack flag is set, `valid_id`,
      `proof_present` and `world_allow` hold, `commit_unique` is 1 and `i_flow` is 0. */
  lemma WorldEffectEquation(req: Request)
    ensures var d := Adjudicate(req).value;
      var cond := d.route == Fast && d.commitUnique == 1 && d.iFlow == 0 && d.dT == WorldAllow;
      && d.deltaOmega == (if cond then req.deltaOmegaReq else 0)
      && (req.deltaOmegaReq != 0 ==> (d.deltaOmega != 0 <==> cond))
      && (cond <==>
            ClassifyAttack(req) == (0, 0) && req.validId && req.proofPresent &&
            req.worldAllow && req.commitUnique == 1 && req.iFlow == 0)
  {
  }

  /** No silent denial: the reason-code list is empty exactly for WORLD_ALLOW, and otherwise
      it is the one reason named after d_t. */
  lemma NoSilentDenial(req: Request)
    ensures var d := Adjudicate(req).value;
      && (d.supportPack.reasonCodes == [] <==> d.dT == WorldAllow)
      && (d.dT != WorldAllow ==> d.supportPack.reasonCodes == ["REASON_" + JustificationName(d.dT)])
  {
  }

  /** Route precedence: a hard attack forces BLACKHOLE and QUARANTINE, BLACKHOLE happens only
      then, and FAST happens exactly when neither attack bit is set and the identity and proof
      are present. */
  lemma RoutePrecedence(req: Request)
    ensures var d := Adjudicate(req).value;
      && (d.attackHard == 1 ==> d.route == Blackhole && d.dT == Quarantine)
      && (d.route == Blackhole <==> d.attackHard == 1)
      && (d.route == Fast <==> d.attackHard == 0 && d.attackSoft == 0 && req.validId && req.proofPresent)
  {
  }

  /** The route determines the set d_t is drawn from, the commit-uniqueness is 0 off FAST,
      and the ROLLBACK and DENY branches under BLACKHOLE are never taken. */
  lemma JustificationByRoute(req: Request)
    ensures var d := Adjudicate(req).value;
      && (d.route == Fast ==> d.dT in {WorldAllow, PolicyAllow, EvidAllow})
      && (d.route == Safe ==> d.dT in {Pending, Ref, Rollback, Deny})
      && (d.route == Blackhole ==> d.dT == Quarantine)
      && (d.route != Fast ==> d.commitUnique == 0)
  {
  }

  /** The route in terms of the request's own flags: BLACKHOLE exactly on one of the four hard
      flags; FAST exactly when none of the eleven attack flags is set and the id and proof are
      valid. */
  lemma RouteByFlags(req: Request)
    ensures var d := Adjudicate(req).value;
      && (d.route == Blackhole <==> req.chiTouch || req.chiHarm || req.unsupervisedWrite || req.fakeProofSeal)
      && (d.route == Fast <==>
            !req.chiTouch && !req.chiHarm && !req.unsupervisedWrite && !req.fakeProofSeal &&
            !req.novelAttackFlag && !req.bypassFlag && !req.chiInfect && !req.chiSpread &&
            !req.chiPoison && !req.uncertaintyFlag && !req.pending && req.validId && req.proofPresent)
  {
  }

  /** The order in which each route picks its justification, in terms of the request: on FAST
      the world write wins over the policy, which wins over the evidence; on SAFE pending wins
      over REF, which wins over rollback, which wins over a plain denial. */
  lemma JustificationPrecedence(req: Request)
    ensures var d := Adjudicate(req).value;
      var world := req.worldAllow && req.commitUnique == 1 && req.iFlow == 0;
      && (d.route == Fast ==>
            && (d.dT == WorldAllow <==> world)
            && (d.dT == PolicyAllow <==> !world && req.policyAllow)
            && (d.dT == EvidAllow <==> !world && !req.policyAllow))
      && (d.route == Safe ==>
            && (d.dT == Pending <==> req.pending)
            && (d.dT == Ref <==> !req.pending && req.ref)
            && (d.dT == Rollback <==> !req.pending && !req.ref && req.rollback)
            && (d.dT == Deny <==> !req.pending && !req.ref && !req.rollback))
  {
  }

  /** The SupportPack agrees with the decision: the redaction flag is ΔΩ = 0, the receipt is
      the success receipt exactly for WORLD_ALLOW and otherwise the deny packet on BLACKHOLE
      and the failure receipt elsewhere, and off FAST no world write, publication or
      transaction is allowed and all three planes are disabled. */
  lemma SupportPackConsistent(req: Request)
    ensures var d := Adjudicate(req).value;
      && d.supportPack.tombstoneRedacted == (d.deltaOmega == 0)
      && (d.supportPack.receipt == "ReceiptCard^FLOW" <==> d.dT == WorldAllow)
      && (d.dT != WorldAllow ==>
            d.supportPack.receipt == (if d.route == Blackhole then "DenyPacket" else "ReceiptCard^FAIL"))
      && d.supportPack.anchor == "ANCHOR_" + RouteName(d.route)
      && (d.route != Fast ==>
            (forall p :: p in ["WORLDWRITE", "TX", "PUBLISH"] ==> p !in d.outAllowed && p in d.disablePlanes))
      && (d.route == Fast ==> d.disablePlanes == [])
  {
  }

  // ------------------------------------------------------------ scenarios

  /** `{"chi_harm": true}`: BLACKHOLE, QUARANTINE, no world effect, only REF allowed. */
  lemma ScenarioChiHarm()
    ensures var d := Adjudicate(RequestDefaults.(chiHarm := true)).value;
      d.route == Blackhole && d.dT == Quarantine && d.deltaOmega == 0 && d.outAllowed == ["REF"] &&
      d.supportPack.receipt == "DenyPacket"
  {
  }

  /** `{"pending": true}`: SAFE, PENDING, no world effect. */
  lemma ScenarioPending()
    ensures var d := Adjudicate(RequestDefaults.(pending := true)).value;
      d.route == Safe && d.dT == Pending && d.deltaOmega == 0 && d.supportPack.reasonCodes == ["REASON_PENDING"]
  {
    assert "REASON_" + "PENDING" == "REASON_PENDING";
  }

  /** `{}`: FAST, but commit-uniqueness defaults to 0, so EVID_ALLOW and no world effect. */
  lemma ScenarioEmpty()
    ensures var d := Adjudicate(RequestDefaults).value;
      d.route == Fast && d.dT == EvidAllow && d.deltaOmega == 0 && d.supportPack.tombstoneRedacted
  {
  }

  /** `{"commit_unique": 1, "i_flow": 0, "world_allow": true}`: FAST, WORLD_ALLOW, ΔΩ = 1. */
  lemma ScenarioWorldAllow()
    ensures var d := Adjudicate(RequestDefaults.(commitUnique := 1, iFlow := 0, worldAllow := true)).value;
      d.route == Fast && d.dT == WorldAllow && d.deltaOmega == 1 && d.supportPack.reasonCodes == [] &&
      d.supportPack.receipt == "ReceiptCard^FLOW"
  {
  }
}
