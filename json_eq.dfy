/** Python's `==` on JSON values as `json.loads` returns them. */
module JsonEquality {
  import opened Results
  import opened JsonValues

  /** The value of the last member named `k`, as a dict built from the members keeps it. */
  function LookupOpt(ms: seq<(string, Json)>, k: string): Option<Json> {
    if ms == [] then None
    else if ms[|ms| - 1].0 == k then Some(ms[|ms| - 1].1)
    else LookupOpt(ms[..|ms| - 1], k)
  }

  function KeySet(ms: seq<(string, Json)>): set<string> {
    set i | 0 <= i < |ms| :: ms[i].0
  }

  /** Member `i` is the last one with its key. */
  predicate IsLast(ms: seq<(string, Json)>, i: int)
    requires 0 <= i < |ms|
  {
    forall p :: i < p < |ms| ==> ms[p].0 != ms[i].0
  }

  function NumValue(j: Json): int
    requires j.JBool? || j.JInt?
  {
    if j.JBool? then (if j.b then 1 else 0) else j.i
  }

  /** Python's `==` on JSON values: a bool equals the integer 0 or 1, lists compare element by
      element, dicts compare by key set and value per key, in any order. */
  predicate JsonEq(a: Json, b: Json)
    decreases a
  {
    match a
    case JNull => b.JNull?
    case JBool(_) => (b.JBool? || b.JInt?) && NumValue(a) == NumValue(b)
    case JInt(_) => (b.JBool? || b.JInt?) && NumValue(a) == NumValue(b)
    case JFloat(lit) => b == JFloat(lit)
    case JString(s) => b == JString(s)
    case JArray(xs) =>
      b.JArray? && |xs| == |b.elems| && forall i :: 0 <= i < |xs| ==> JsonEq(xs[i], b.elems[i])
    case JObject(ms) =>
      b.JObject? && KeySet(ms) == KeySet(b.members) &&
      forall i :: 0 <= i < |ms| && IsLast(ms, i) ==>
        LookupOpt(b.members, ms[i].0).Some? && JsonEq(ms[i].1, LookupOpt(b.members, ms[i].0).value)
  }

  lemma {:induction false} LookupLast(ms: seq<(string, Json)>, i: int)
    requires 0 <= i < |ms| && IsLast(ms, i)
    ensures LookupOpt(ms, ms[i].0) == Some(ms[i].1)
    decreases |ms|
  {
    if i < |ms| - 1 {
      var init := ms[..|ms| - 1];
      assert init[i] == ms[i];
      LookupLast(init, i);
    }
  }

  /** Every JSON value equals itself. */
  lemma {:induction false} JsonEqReflexive(a: Json)
    ensures JsonEq(a, a)
    decreases a
  {
    match a
    case JArray(xs) =>
      forall i | 0 <= i < |xs| ensures JsonEq(xs[i], xs[i]) {
        JsonEqReflexive(xs[i]);
      }
    case JObject(ms) =>
      forall i | 0 <= i < |ms| && IsLast(ms, i)
        ensures LookupOpt(ms, ms[i].0).Some? && JsonEq(ms[i].1, LookupOpt(ms, ms[i].0).value)
      {
        LookupLast(ms, i);
        JsonEqReflexive(ms[i].1);
      }
    case _ =>
  }

  /** A key of the members is the key of a last member, whose value the lookup finds. */
  lemma {:induction false} LookupPresent(ms: seq<(string, Json)>, k: string) returns (i: int)
    requires k in KeySet(ms)
    ensures 0 <= i < |ms| && IsLast(ms, i) && ms[i].0 == k
    ensures LookupOpt(ms, k) == Some(ms[i].1)
    decreases |ms|
  {
    var n := |ms| - 1;
    if ms[n].0 == k {
      i := n;
    } else {
      var init := ms[..n];
      var q :| 0 <= q < |ms| && ms[q].0 == k;
      assert init[q] == ms[q];
      i := LookupPresent(init, k);
      assert ms[i] == init[i];
    }
  }

  /** Python's `==` is symmetric on JSON values. */
  lemma {:induction false} JsonEqSymmetric(a: Json, b: Json)
    requires JsonEq(a, b)
    ensures JsonEq(b, a)
    decreases a
  {
    match a
    case JArray(xs) =>
      forall i | 0 <= i < |xs| ensures JsonEq(b.elems[i], xs[i]) {
        JsonEqSymmetric(xs[i], b.elems[i]);
      }
    case JObject(ms) =>
      var ns := b.members;
      forall p | 0 <= p < |ns| && IsLast(ns, p)
        ensures LookupOpt(ms, ns[p].0).Some? && JsonEq(ns[p].1, LookupOpt(ms, ns[p].0).value)
      {
        var k := ns[p].0;
        assert k in KeySet(ns);
        var i := LookupPresent(ms, k);
        LookupLast(ns, p);
        JsonEqSymmetric(ms[i].1, ns[p].1);
      }
    case _ =>
  }

  /** How Python compares scalars: a string equals only the same string, `True == 1` and
      `False == 0`, but a boolean is not null and a digit string is not a number. */
  lemma JsonEqScalars(s: string, b: Json)
    ensures JsonEq(JString(s), b) <==> b == JString(s)
    ensures JsonEq(JBool(true), JInt(1)) && JsonEq(JInt(0), JBool(false))
    ensures !JsonEq(JBool(true), JInt(2)) && !JsonEq(JNull, JBool(false)) && !JsonEq(JString("1"), JInt(1))
  {
  }

  /** A dict compares equal whatever order its members were written in: two member lists with
      distinct keys that hold the same members, counted with multiplicity, compare equal. */
  lemma JsonEqMemberOrder(ms: seq<(string, Json)>, ns: seq<(string, Json)>)
    requires forall i, k :: 0 <= i < k < |ms| ==> ms[i].0 != ms[k].0
    requires multiset(ms) == multiset(ns)
    ensures JsonEq(JObject(ms), JObject(ns))
  {
    forall k | k in KeySet(ms) ensures k in KeySet(ns) {
      var i :| 0 <= i < |ms| && ms[i].0 == k;
      assert ms[i] in multiset(ns);
      var p :| 0 <= p < |ns| && ns[p] == ms[i];
    }
    forall k | k in KeySet(ns) ensures k in KeySet(ms) {
      var p :| 0 <= p < |ns| && ns[p].0 == k;
      assert ns[p] in multiset(ms);
      var i :| 0 <= i < |ms| && ms[i] == ns[p];
    }
    forall i | 0 <= i < |ms| && IsLast(ms, i)
      ensures LookupOpt(ns, ms[i].0).Some? && JsonEq(ms[i].1, LookupOpt(ns, ms[i].0).value)
    {
      assert ms[i].0 in KeySet(ms);
      var p := LookupPresent(ns, ms[i].0);
      assert ns[p] in multiset(ms);
      var q :| 0 <= q < |ms| && ms[q] == ns[p];
      assert q == i;
      JsonEqReflexive(ms[i].1);
    }
  }
}
