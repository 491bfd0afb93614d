/** The bookkeeping of a replay run: the ids of the failing vectors and the first exception. */
module Tallies {
  import opened Results

  datatype Tally = Tally(ok: nat, fail: nat, failedIds: seq<string>)

  /** The ids whose verdict is false, in order. */
  function FailedIds(ids: seq<string>, pass: seq<bool>): (f: seq<string>)
    requires |ids| == |pass|
    ensures |f| <= |ids|
  {
    if ids == [] then []
    else FailedIds(ids[..|ids| - 1], pass[..|pass| - 1]) + if pass[|pass| - 1] then [] else [ids[|ids| - 1]]
  }

  /** The list of failures is empty exactly when every verdict is true. */
  lemma {:induction false} FailedIdsEmpty(ids: seq<string>, pass: seq<bool>)
    requires |ids| == |pass|
    ensures FailedIds(ids, pass) == [] <==> forall i :: 0 <= i < |pass| ==> pass[i]
    decreases |ids|
  {
    if ids != [] {
      var n := |ids| - 1;
      var idsInit, passInit := ids[..n], pass[..n];
      FailedIdsEmpty(idsInit, passInit);
      assert FailedIds(ids, pass) == FailedIds(idsInit, passInit) + if pass[n] then [] else [ids[n]];
      assert forall i :: 0 <= i < n ==> passInit[i] == pass[i];
    }
  }

  /** The id of every false verdict is in the list of failures. */
  lemma {:induction false} FailedIdsHas(ids: seq<string>, pass: seq<bool>, i: int)
    requires |ids| == |pass| && 0 <= i < |pass| && !pass[i]
    ensures ids[i] in FailedIds(ids, pass)
    decreases |ids|
  {
    var n := |ids| - 1;
    var idsInit, passInit := ids[..n], pass[..n];
    assert FailedIds(ids, pass) == FailedIds(idsInit, passInit) + if pass[n] then [] else [ids[n]];
    if i < n {
      assert passInit[i] == pass[i] && idsInit[i] == ids[i];
      FailedIdsHas(idsInit, passInit, i);
    }
  }

  /** Every id in the list of failures is that of a false verdict. */
  lemma {:induction false} FailedIdsOnly(ids: seq<string>, pass: seq<bool>, x: string)
    requires |ids| == |pass| && x in FailedIds(ids, pass)
    ensures exists i :: 0 <= i < |pass| && !pass[i] && ids[i] == x
    decreases |ids|
  {
    var n := |ids| - 1;
    var idsInit, passInit := ids[..n], pass[..n];
    assert FailedIds(ids, pass) == FailedIds(idsInit, passInit) + if pass[n] then [] else [ids[n]];
    if x in FailedIds(idsInit, passInit) {
      FailedIdsOnly(idsInit, passInit, x);
      var i :| 0 <= i < n && !passInit[i] && idsInit[i] == x;
      assert passInit[i] == pass[i] && idsInit[i] == ids[i];
    } else {
      assert !pass[n] && ids[n] == x;
    }
  }

  /** The message of the first failed outcome, if any. */
  function FirstError(rs: seq<Result<bool>>): Option<string> {
    if rs == [] then None
    else
      match FirstError(rs[..|rs| - 1])
      case Some(m) => Some(m)
      case None => if rs[|rs| - 1].Err? then Some(rs[|rs| - 1].msg) else None
  }

  /** There is no first error exactly when every outcome succeeded; otherwise it is the
      message of an outcome all of whose predecessors succeeded. */
  lemma {:induction false} FirstErrorIff(rs: seq<Result<bool>>)
    ensures FirstError(rs).None? <==> forall i :: 0 <= i < |rs| ==> rs[i].Ok?
    ensures FirstError(rs).Some? ==>
      exists i :: 0 <= i < |rs| && rs[i] == Err(FirstError(rs).value) && forall p :: 0 <= p < i ==> rs[p].Ok?
    decreases |rs|
  {
    if rs != [] {
      var n := |rs| - 1;
      var init := rs[..n];
      FirstErrorIff(init);
      assert forall i :: 0 <= i < n ==> init[i] == rs[i];
      if FirstError(init).Some? {
        var i :| 0 <= i < n && init[i] == Err(FirstError(init).value) && forall p :: 0 <= p < i ==> init[p].Ok?;
        assert rs[i] == Err(FirstError(rs).value);
      } else if rs[n].Err? {
        assert rs[n] == Err(FirstError(rs).value);
      }
    }
  }

  /** Once a prefix of the outcomes has an error, the whole sequence has the same first error. */
  lemma {:induction false} FirstErrorPrefix(rs: seq<Result<bool>>, n: nat)
    requires n <= |rs| && FirstError(rs[..n]).Some?
    ensures FirstError(rs) == FirstError(rs[..n])
    decreases |rs| - n
  {
    if n < |rs| {
      assert rs[..n + 1][..n] == rs[..n];
      FirstErrorPrefix(rs, n + 1);
    } else {
      assert rs[..n] == rs;
    }
  }

  function Verdicts(rs: seq<Result<bool>>): (v: seq<bool>)
    ensures |v| == |rs| && forall i :: 0 <= i < |rs| ==> v[i] == (rs[i] == Ok(true))
  {
    seq(|rs|, i requires 0 <= i < |rs| => rs[i] == Ok(true))
  }

  /** One more outcome, which succeeded: still no error, and its id is added when it failed. */
  lemma TallyStep(outs: seq<Result<bool>>, ids: seq<string>, i: nat)
    requires |ids| == |outs| && i < |outs| && outs[i].Ok?
    requires FirstError(outs[..i]) == None
    ensures FirstError(outs[..i + 1]) == None
    ensures FailedIds(ids[..i + 1], Verdicts(outs)[..i + 1]) ==
      FailedIds(ids[..i], Verdicts(outs)[..i]) + if outs[i].value then [] else [ids[i]]
  {
    assert outs[..i + 1][..i] == outs[..i];
    assert ids[..i + 1][..i] == ids[..i] && Verdicts(outs)[..i + 1][..i] == Verdicts(outs)[..i];
  }

  /** One more outcome, which failed: it is the first error of the whole sequence. */
  lemma TallyError(outs: seq<Result<bool>>, i: nat)
    requires i < |outs| && outs[i].Err? && FirstError(outs[..i]) == None
    ensures FirstError(outs) == Some(outs[i].msg)
  {
    assert outs[..i + 1][..i] == outs[..i];
    FirstErrorPrefix(outs, i + 1);
  }

  /** All outcomes seen: the prefix is the whole sequence. */
  lemma TallyEnd(outs: seq<Result<bool>>, ids: seq<string>)
    requires |ids| == |outs|
    ensures FirstError(outs[..|outs|]) == FirstError(outs)
    ensures FailedIds(ids[..|ids|], Verdicts(outs)[..|outs|]) == FailedIds(ids, Verdicts(outs))
  {
    assert outs[..|outs|] == outs && ids[..|ids|] == ids && Verdicts(outs)[..|outs|] == Verdicts(outs);
  }
}
