/** CanonJSON: the canonical form of a parsed JSON value, its error cases and its properties. */
module JsonCanon {
  import opened Results
  import opened Sorting
  import opened JsonValues

  const FloatForbidden := "FLOAT_FORBIDDEN"

  // ------------------------------------------------------------ element order

  /** The sort key `elem_key` gives an array element: a rank (null 0, bool 1, int 2, str 3,
      anything else 4), then a number (the bool as 0/1, the int) and a text (the string, or the
      serialisation of an array or object). Fields a rank does not use are 0 and "". */
  datatype ElemKey = ElemKey(rank: int, num: int, text: string)

  function KeyOf(e: Json): (k: ElemKey)
    ensures 0 <= k.rank <= 4
    ensures k.rank == 0 <==> e.JNull?
    ensures k.rank == 1 <==> e.JBool?
    ensures k.rank == 2 <==> e.JInt?
    ensures k.rank == 3 <==> e.JString?
    ensures e.JBool? ==> (k.num == 1 <==> e.b) && (k.num == 0 <==> !e.b)
    ensures e.JInt? ==> k.num == e.i
    ensures e.JString? ==> k.text == e.s
    ensures k.rank == 4 ==> k.num == 0 && k.text == Serialize(e)
  {
    match e
    case JNull => ElemKey(0, 0, "")
    case JBool(b) => ElemKey(1, if b then 1 else 0, "")
    case JInt(n) => ElemKey(2, n, "")
    case JString(s) => ElemKey(3, 0, s)
    case _ => ElemKey(4, 0, Serialize(e))
  }

  /** Python's tuple comparison of two sort keys. */
  predicate KeyLe(a: ElemKey, b: ElemKey) {
    a.rank < b.rank || (a.rank == b.rank && (a.num < b.num || (a.num == b.num && StrLe(a.text, b.text))))
  }

  predicate ElemLe(a: Json, b: Json) {
    KeyLe(KeyOf(a), KeyOf(b))
  }

  /** Object members are sorted by key alone. */
  predicate MemberLe(a: (string, Json), b: (string, Json)) {
    StrLe(a.0, b.0)
  }

  lemma ElemLeTotalPreorder()
    ensures TotalPreorder(ElemLe)
  {
    forall a, b ensures ElemLe(a, b) || ElemLe(b, a) {
      StrLeTotal(KeyOf(a).text, KeyOf(b).text);
    }
    forall a, b, c | ElemLe(a, b) && ElemLe(b, c) ensures ElemLe(a, c) {
      var ka, kb, kc := KeyOf(a), KeyOf(b), KeyOf(c);
      if ka.rank == kb.rank == kc.rank && ka.num == kb.num == kc.num {
        StrLeTransitive(ka.text, kb.text, kc.text);
      }
    }
  }

  lemma MemberLeTotalPreorder()
    ensures TotalPreorder(MemberLe)
  {
    forall a, b ensures MemberLe(a, b) || MemberLe(b, a) {
      StrLeTotal(a.0, b.0);
    }
    forall a, b, c | MemberLe(a, b) && MemberLe(b, c) ensures MemberLe(a, c) {
      StrLeTransitive(a.0, b.0, c.0);
    }
  }

  /** Two float-free elements with equal sort keys are equal: the order on elements identifies
      nothing, because the serialisation of arrays and objects is injective. */
  lemma ElemLeAntisymmetric(a: Json, b: Json)
    requires FloatFree(a) && FloatFree(b)
    requires ElemLe(a, b) && ElemLe(b, a)
    ensures a == b
  {
    StrLeAntisymmetric(KeyOf(a).text, KeyOf(b).text);
    if KeyOf(a).rank == 4 {
      SerializeInjective(a, b);
    }
  }

  // ------------------------------------------------------------ canonical form

  /** The canonical form of a float-free value: elements of every array sorted stably by
      `elem_key`, members of every object sorted by key. */
  function Normalize(j: Json): Json
    decreases j, 1
  {
    match j
    case JArray(xs) => JArray(SortBy(NormElems(xs), ElemLe))
    case JObject(ms) => JObject(SortBy(NormMembers(ms), MemberLe))
    case _ => j
  }

  function NormElems(xs: seq<Json>): (r: seq<Json>)
    ensures |r| == |xs| && forall i :: 0 <= i < |xs| ==> r[i] == Normalize(xs[i])
    decreases xs, 0
  {
    seq(|xs|, i requires 0 <= i < |xs| => Normalize(xs[i]))
  }

  function NormMembers(ms: seq<(string, Json)>): (r: seq<(string, Json)>)
    ensures |r| == |ms| && forall i :: 0 <= i < |ms| ==> r[i] == NormMember(ms[i])
    decreases ms, 1
  {
    seq(|ms|, i requires 0 <= i < |ms| => NormMember(ms[i]))
  }

  function NormMember(m: (string, Json)): (string, Json)
    decreases m, 0
  {
    (m.0, Normalize(m.1))
  }

  /** `canonicalize_json_obj`: a float anywhere in the value is an error, whatever else the
      value holds; otherwise the result is the canonical form. */
  function Canonicalize(j: Json): (r: Result<Json>)
    ensures r.Ok? <==> FloatFree(j)
    ensures r.Err? ==> r.msg == FloatForbidden
    ensures r.Ok? ==> FloatFree(r.value)
    ensures r.Ok? && UniqueKeys(j) ==> Canonical(r.value) && UniqueKeys(r.value)
  {
    if !FloatFree(j) then Err(FloatForbidden)
    else
      NormalizeFloatFree(j);
      if UniqueKeys(j) then
        NormalizeCanonical(j);
        NormalizeUniqueKeys(j);
        Ok(Normalize(j))
      else Ok(Normalize(j))
  }

  /** A value in canonical form: no float, every array sorted by `elem_key`, the keys of every
      object strictly ascending. */
  predicate Canonical(j: Json) {
    match j
    case JFloat(_) => false
    case JArray(xs) => SortedBy(xs, ElemLe) && forall i :: 0 <= i < |xs| ==> Canonical(xs[i])
    case JObject(ms) =>
      (forall i, k :: 0 <= i < k < |ms| ==> StrLt(ms[i].0, ms[k].0)) &&
      (forall i :: 0 <= i < |ms| ==> Canonical(ms[i].1))
    case _ => true
  }

  // ------------------------------------------------------------ properties

  /** The canonical form leaves a scalar alone, keeps the kind of a container, and holds the
      canonical forms of its elements or members, permuted into sorted order. */
  lemma NormalizeSorted(j: Json)
    ensures !j.JArray? && !j.JObject? ==> Normalize(j) == j
    ensures j.JArray? ==> Normalize(j).JArray? && SortedBy(Normalize(j).elems, ElemLe)
    ensures j.JArray? ==> multiset(Normalize(j).elems) == multiset(NormElems(j.elems))
    ensures j.JObject? ==> Normalize(j).JObject? && SortedBy(Normalize(j).members, MemberLe)
    ensures j.JObject? ==> multiset(Normalize(j).members) == multiset(NormMembers(j.members))
  {
    match j
    case JArray(xs) =>
      ElemLeTotalPreorder();
      SortBySorted(NormElems(xs), ElemLe);
    case JObject(ms) =>
      MemberLeTotalPreorder();
      SortBySorted(NormMembers(ms), MemberLe);
    case _ =>
  }

  lemma {:induction false} NormalizeFloatFree(j: Json)
    requires FloatFree(j)
    ensures FloatFree(Normalize(j))
    decreases j
  {
    match j
    case JArray(xs) =>
      var r := SortBy(NormElems(xs), ElemLe);
      forall i | 0 <= i < |r| ensures FloatFree(r[i]) {
        assert r[i] in multiset(NormElems(xs));
        var p :| 0 <= p < |xs| && NormElems(xs)[p] == r[i];
        NormalizeFloatFree(xs[p]);
      }
    case JObject(ms) =>
      var r := SortBy(NormMembers(ms), MemberLe);
      forall i | 0 <= i < |r| ensures FloatFree(r[i].1) {
        assert r[i] in multiset(NormMembers(ms));
        var p :| 0 <= p < |ms| && NormMembers(ms)[p] == r[i];
        NormalizeFloatFree(ms[p].1);
      }
    case _ =>
  }

  /** Where the keys of an object are distinct, a key names one member of its normalised list. */
  lemma NormMembersKeyed(ms: seq<(string, Json)>)
    requires forall i, k :: 0 <= i < k < |ms| ==> ms[i].0 != ms[k].0
    ensures Distinct(NormMembers(ms))
    ensures forall a, b :: a in NormMembers(ms) && b in NormMembers(ms) && a.0 == b.0 ==> a == b
  {
    var s := NormMembers(ms);
    NormMembersKeys(ms);
    forall a, b | a in s && b in s && a.0 == b.0 ensures a == b {
      var p :| 0 <= p < |s| && s[p] == a;
      var q :| 0 <= q < |s| && s[q] == b;
      assert s[p].0 == s[q].0;
    }
  }

  lemma NormMembersKeys(ms: seq<(string, Json)>)
    requires forall i, k :: 0 <= i < k < |ms| ==> ms[i].0 != ms[k].0
    ensures forall i, k :: 0 <= i < k < |ms| ==> NormMembers(ms)[i].0 != NormMembers(ms)[k].0
  {
    var s := NormMembers(ms);
    forall i, k | 0 <= i < k < |ms| ensures s[i].0 != s[k].0 {
      assert s[i].0 == ms[i].0 && s[k].0 == ms[k].0;
    }
  }

  /** The sorted member list keeps the keys distinct, so they come out strictly ascending. */
  lemma SortedMembersStrict(ms: seq<(string, Json)>, r: seq<(string, Json)>)
    requires forall i, k :: 0 <= i < k < |ms| ==> ms[i].0 != ms[k].0
    requires r == SortBy(NormMembers(ms), MemberLe)
    ensures forall i, k :: 0 <= i < k < |r| ==> StrLt(r[i].0, r[k].0)
  {
    MemberLeTotalPreorder();
    SortBySorted(NormMembers(ms), MemberLe);
    SortedMembersDistinctKeys(ms, r);
    SortedDistinctKeysStrict(r);
  }

  lemma SortedMembersDistinctKeys(ms: seq<(string, Json)>, r: seq<(string, Json)>)
    requires forall i, k :: 0 <= i < k < |ms| ==> ms[i].0 != ms[k].0
    requires r == SortBy(NormMembers(ms), MemberLe)
    ensures forall i, k :: 0 <= i < k < |r| ==> r[i].0 != r[k].0
  {
    var s := NormMembers(ms);
    NormMembersKeyed(ms);
    DistinctPermutation(s, r);
    assert multiset(r) == multiset(s);
    forall i, k | 0 <= i < k < |r| ensures r[i].0 != r[k].0 {
      assert r[i] in s by {
        assert r[i] in multiset(r);
      }
      assert r[k] in s by {
        assert r[k] in multiset(r);
      }
      assert r[i] != r[k];
    }
  }

  lemma SortedDistinctKeysStrict(r: seq<(string, Json)>)
    requires SortedBy(r, MemberLe)
    requires forall i, k :: 0 <= i < k < |r| ==> r[i].0 != r[k].0
    ensures forall i, k :: 0 <= i < k < |r| ==> StrLt(r[i].0, r[k].0)
  {
    forall i, k | 0 <= i < k < |r| ensures StrLt(r[i].0, r[k].0) {
      assert MemberLe(r[i], r[k]);
    }
  }

  /** A property of the canonical forms of all elements holds of every element of the sorted list. */
  lemma SortedElemsHave(xs: seq<Json>, r: seq<Json>, P: Json -> bool)
    requires forall p :: 0 <= p < |xs| ==> P(Normalize(xs[p]))
    requires r == SortBy(NormElems(xs), ElemLe)
    ensures forall i :: 0 <= i < |r| ==> P(r[i])
  {
    forall i | 0 <= i < |r| ensures P(r[i]) {
      assert r[i] in multiset(NormElems(xs));
      var p :| 0 <= p < |xs| && NormElems(xs)[p] == r[i];
    }
  }

  lemma SortedMembersHave(ms: seq<(string, Json)>, r: seq<(string, Json)>, P: Json -> bool)
    requires forall p :: 0 <= p < |ms| ==> P(Normalize(ms[p].1))
    requires r == SortBy(NormMembers(ms), MemberLe)
    ensures forall i :: 0 <= i < |r| ==> P(r[i].1)
  {
    forall i | 0 <= i < |r| ensures P(r[i].1) {
      assert r[i] in multiset(NormMembers(ms));
      var p :| 0 <= p < |ms| && NormMembers(ms)[p] == r[i];
    }
  }

  lemma {:induction false} NormalizeUniqueKeys(j: Json)
    requires UniqueKeys(j)
    ensures UniqueKeys(Normalize(j))
    decreases j
  {
    match j
    case JArray(xs) =>
      forall p | 0 <= p < |xs| ensures UniqueKeys(Normalize(xs[p])) {
        NormalizeUniqueKeys(xs[p]);
      }
      ArrayHas(xs, UniqueKeys);
    case JObject(ms) =>
      forall p | 0 <= p < |ms| ensures UniqueKeys(Normalize(ms[p].1)) {
        NormalizeUniqueKeys(ms[p].1);
      }
      ObjectUniqueKeys(ms);
    case _ =>
  }

  lemma ArrayHas(xs: seq<Json>, P: Json -> bool)
    requires forall p :: 0 <= p < |xs| ==> P(Normalize(xs[p]))
    ensures Normalize(JArray(xs)).JArray?
    ensures forall i :: 0 <= i < |Normalize(JArray(xs)).elems| ==> P(Normalize(JArray(xs)).elems[i])
  {
    var r := SortBy(NormElems(xs), ElemLe);
    assert Normalize(JArray(xs)) == JArray(r);
    SortedElemsHave(xs, r, P);
  }

  lemma ObjectUniqueKeys(ms: seq<(string, Json)>)
    requires forall i, k :: 0 <= i < k < |ms| ==> ms[i].0 != ms[k].0
    requires forall p :: 0 <= p < |ms| ==> UniqueKeys(Normalize(ms[p].1))
    ensures UniqueKeys(Normalize(JObject(ms)))
  {
    var r := SortBy(NormMembers(ms), MemberLe);
    assert Normalize(JObject(ms)) == JObject(r);
    SortedMembersHave(ms, r, UniqueKeys);
    SortedMembersStrict(ms, r);
  }

  /** The canonical form is canonical: sorted arrays and strictly ascending keys at every depth. */
  lemma {:induction false} NormalizeCanonical(j: Json)
    requires FloatFree(j) && UniqueKeys(j)
    ensures Canonical(Normalize(j))
    decreases j
  {
    match j
    case JArray(xs) =>
      forall p | 0 <= p < |xs| ensures Canonical(Normalize(xs[p])) {
        NormalizeCanonical(xs[p]);
      }
      ArrayCanonical(xs);
    case JObject(ms) =>
      forall p | 0 <= p < |ms| ensures Canonical(Normalize(ms[p].1)) {
        NormalizeCanonical(ms[p].1);
      }
      ObjectCanonical(ms);
    case _ =>
  }

  lemma ArrayCanonical(xs: seq<Json>)
    requires forall p :: 0 <= p < |xs| ==> Canonical(Normalize(xs[p]))
    ensures Canonical(Normalize(JArray(xs)))
  {
    ArrayHas(xs, Canonical);
    ElemLeTotalPreorder();
    SortBySorted(NormElems(xs), ElemLe);
  }

  lemma ObjectCanonical(ms: seq<(string, Json)>)
    requires forall i, k :: 0 <= i < k < |ms| ==> ms[i].0 != ms[k].0
    requires forall p :: 0 <= p < |ms| ==> Canonical(Normalize(ms[p].1))
    ensures Canonical(Normalize(JObject(ms)))
  {
    var r := SortBy(NormMembers(ms), MemberLe);
    assert Normalize(JObject(ms)) == JObject(r);
    SortedMembersHave(ms, r, Canonical);
    SortedMembersStrict(ms, r);
  }

  lemma {:induction false} CanonicalFloatFree(j: Json)
    requires Canonical(j)
    ensures FloatFree(j)
    decreases j
  {
    match j
    case JArray(xs) =>
      forall i | 0 <= i < |xs| ensures FloatFree(xs[i]) {
        CanonicalFloatFree(xs[i]);
      }
    case JObject(ms) =>
      forall i | 0 <= i < |ms| ensures FloatFree(ms[i].1) {
        CanonicalFloatFree(ms[i].1);
      }
    case _ =>
  }

  /** A canonical value is its own canonical form. */
  lemma {:induction false} CanonicalFixed(j: Json)
    requires Canonical(j)
    ensures Normalize(j) == j
    decreases j
  {
    match j
    case JArray(xs) =>
      forall i | 0 <= i < |xs| ensures Normalize(xs[i]) == xs[i] {
        CanonicalFixed(xs[i]);
      }
      assert NormElems(xs) == xs;
      SortByIdentity(xs, ElemLe);
    case JObject(ms) =>
      forall i | 0 <= i < |ms| ensures NormMember(ms[i]) == ms[i] {
        CanonicalFixed(ms[i].1);
      }
      assert NormMembers(ms) == ms;
      SortByIdentity(ms, MemberLe);
    case _ =>
  }

  /** Canonicalising a canonical result changes nothing. */
  lemma CanonicalizeIdempotent(j: Json)
    requires UniqueKeys(j)
    ensures Canonicalize(j).Ok? ==> Canonicalize(Canonicalize(j).value) == Canonicalize(j)
  {
    if FloatFree(j) {
      NormalizeCanonical(j);
      CanonicalFloatFree(Normalize(j));
      CanonicalFixed(Normalize(j));
    }
  }

  lemma ElemsFloatFreePermutation(xs: seq<Json>, ys: seq<Json>)
    requires multiset(xs) == multiset(ys)
    ensures FloatFree(JArray(xs)) <==> FloatFree(JArray(ys))
  {
    if FloatFree(JArray(xs)) {
      forall i | 0 <= i < |ys| ensures FloatFree(ys[i]) {
        assert ys[i] in multiset(xs);
      }
    }
    if FloatFree(JArray(ys)) {
      forall i | 0 <= i < |xs| ensures FloatFree(xs[i]) {
        assert xs[i] in multiset(ys);
      }
    }
  }

  lemma MembersFloatFreePermutation(ms: seq<(string, Json)>, ns: seq<(string, Json)>)
    requires multiset(ms) == multiset(ns)
    ensures FloatFree(JObject(ms)) <==> FloatFree(JObject(ns))
  {
    if FloatFree(JObject(ms)) {
      forall i | 0 <= i < |ns| ensures FloatFree(ns[i].1) {
        assert ns[i] in multiset(ms);
      }
    }
    if FloatFree(JObject(ns)) {
      forall i | 0 <= i < |ms| ensures FloatFree(ms[i].1) {
        assert ms[i] in multiset(ns);
      }
    }
  }

  /** The order of the elements of an array does not matter: two arrays holding the same
      elements, counted with multiplicity, canonicalise alike (to the same error or value). */
  lemma ArrayOrderIrrelevant(xs: seq<Json>, ys: seq<Json>)
    requires multiset(xs) == multiset(ys)
    ensures Canonicalize(JArray(xs)) == Canonicalize(JArray(ys))
  {
    ElemsFloatFreePermutation(xs, ys);
    if FloatFree(JArray(xs)) {
      ArrayNormalizePermutation(xs, ys);
    }
  }

  lemma ArrayNormalizePermutation(xs: seq<Json>, ys: seq<Json>)
    requires multiset(xs) == multiset(ys) && FloatFree(JArray(xs))
    ensures Normalize(JArray(xs)) == Normalize(JArray(ys))
  {
    var s, t := NormElems(xs), NormElems(ys);
    assert s == MapSeq(Normalize, xs) && t == MapSeq(Normalize, ys);
    MapSeqPermutation(Normalize, xs, ys);
    forall a, b | a in s && b in s && ElemLe(a, b) && ElemLe(b, a) ensures a == b {
      var p :| 0 <= p < |s| && s[p] == a;
      var q :| 0 <= q < |s| && s[q] == b;
      NormalizeFloatFree(xs[p]);
      NormalizeFloatFree(xs[q]);
      ElemLeAntisymmetric(a, b);
    }
    ElemLeTotalPreorder();
    SortByPermutationInvariant(s, t, ElemLe);
  }

  /** The order of the members of an object does not matter either. */
  lemma ObjectOrderIrrelevant(ms: seq<(string, Json)>, ns: seq<(string, Json)>)
    requires forall i, k :: 0 <= i < k < |ms| ==> ms[i].0 != ms[k].0
    requires multiset(ms) == multiset(ns)
    ensures Canonicalize(JObject(ms)) == Canonicalize(JObject(ns))
  {
    MembersFloatFreePermutation(ms, ns);
    if FloatFree(JObject(ms)) {
      ObjectNormalizePermutation(ms, ns);
    }
  }

  lemma ObjectNormalizePermutation(ms: seq<(string, Json)>, ns: seq<(string, Json)>)
    requires forall i, k :: 0 <= i < k < |ms| ==> ms[i].0 != ms[k].0
    requires multiset(ms) == multiset(ns)
    ensures Normalize(JObject(ms)) == Normalize(JObject(ns))
  {
    var s, t := NormMembers(ms), NormMembers(ns);
    assert s == MapSeq(NormMember, ms) && t == MapSeq(NormMember, ns);
    MapSeqPermutation(NormMember, ms, ns);
    NormMembersKeyed(ms);
    forall a, b | a in s && b in s && MemberLe(a, b) && MemberLe(b, a) ensures a == b {
      StrLeAntisymmetric(a.0, b.0);
    }
    MemberLeTotalPreorder();
    SortByPermutationInvariant(s, t, MemberLe);
  }

  /** The position of the first member named `key`, or `|ms|` when there is none. */
  function KeyIndex(ms: seq<(string, Json)>, key: string): (k: nat)
    ensures k <= |ms|
    ensures k < |ms| ==> ms[k].0 == key
    ensures k == |ms| ==> forall p :: 0 <= p < |ms| ==> ms[p].0 != key
  {
    if ms == [] then 0
    else if ms[0].0 == key then 0
    else
      var k := 1 + KeyIndex(ms[1..], key);
      assert forall p :: 1 <= p < |ms| ==> ms[p] == ms[1..][p - 1];
      k
  }

  /** `b` is `a` with the members of its objects, at any depth, written in another order: the
      same scalars, arrays whose elements correspond in order, and objects with the same keys
      whose members correspond by key. */
  predicate MembersReordered(a: Json, b: Json)
    decreases a
  {
    match a
    case JArray(xs) =>
      b.JArray? && |xs| == |b.elems| &&
      forall i :: 0 <= i < |xs| ==> MembersReordered(xs[i], b.elems[i])
    case JObject(ms) =>
      b.JObject? &&
      var ns := b.members;
      (forall i :: 0 <= i < |ms| ==>
        KeyIndex(ns, ms[i].0) < |ns| && MembersReordered(ms[i].1, ns[KeyIndex(ns, ms[i].0)].1)) &&
      (forall k :: 0 <= k < |ns| ==> KeyIndex(ms, ns[k].0) < |ms|)
    case _ => b == a
  }

  /** Every value is a reordering of itself. */
  lemma {:induction false} MembersReorderedReflexive(a: Json)
    requires UniqueKeys(a)
    ensures MembersReordered(a, a)
    decreases a
  {
    match a
    case JArray(xs) =>
      forall i | 0 <= i < |xs| ensures MembersReordered(xs[i], xs[i]) {
        MembersReorderedReflexive(xs[i]);
      }
    case JObject(ms) =>
      forall i | 0 <= i < |ms| ensures KeyIndex(ms, ms[i].0) == i && MembersReordered(ms[i].1, ms[i].1) {
        MembersReorderedReflexive(ms[i].1);
      }
    case _ =>
  }

  /** Reordering the members of objects at any depth changes neither the canonical form nor
      whether a float is present, provided the keys of every object are distinct. */
  lemma {:induction false} NormalizeMembersReordered(a: Json, b: Json)
    requires UniqueKeys(a) && UniqueKeys(b) && MembersReordered(a, b)
    ensures Normalize(a) == Normalize(b)
    ensures FloatFree(a) <==> FloatFree(b)
    decreases a, 3
  {
    match a
    case JArray(xs) =>
      ArrayReordered(xs, b.elems);
    case JObject(ms) =>
      ObjectReordered(ms, b.members);
    case _ =>
  }

  lemma {:induction false} ArrayReordered(xs: seq<Json>, ys: seq<Json>)
    requires |xs| == |ys|
    requires forall i :: 0 <= i < |xs| ==> UniqueKeys(xs[i]) && UniqueKeys(ys[i]) && MembersReordered(xs[i], ys[i])
    ensures NormElems(xs) == NormElems(ys)
    ensures (forall i :: 0 <= i < |xs| ==> FloatFree(xs[i])) <==> (forall i :: 0 <= i < |ys| ==> FloatFree(ys[i]))
    decreases JArray(xs), 1
  {
    forall i | 0 <= i < |xs| ensures Normalize(xs[i]) == Normalize(ys[i]) && (FloatFree(xs[i]) <==> FloatFree(ys[i])) {
      NormalizeMembersReordered(xs[i], ys[i]);
    }
  }

  lemma {:induction false} ObjectReordered(ms: seq<(string, Json)>, ns: seq<(string, Json)>)
    requires UniqueKeys(JObject(ms)) && UniqueKeys(JObject(ns)) && MembersReordered(JObject(ms), JObject(ns))
    ensures SortBy(NormMembers(ms), MemberLe) == SortBy(NormMembers(ns), MemberLe)
    ensures (forall i :: 0 <= i < |ms| ==> FloatFree(ms[i].1)) <==> (forall k :: 0 <= k < |ns| ==> FloatFree(ns[k].1))
    decreases JObject(ms), 2
  {
    var s, t := NormMembers(ms), NormMembers(ns);
    ReorderedPartners(ms, ns);
    NormMembersKeyed(ms);
    NormMembersKeyed(ns);
    DistinctSameElements(s, t);
    forall p, q | p in s && q in s && MemberLe(p, q) && MemberLe(q, p) ensures p == q {
      StrLeAntisymmetric(p.0, q.0);
    }
    MemberLeTotalPreorder();
    SortByPermutationInvariant(s, t, MemberLe);
  }

  /** Each member of either object has a partner in the other with the same canonical member
      and the same float-freeness. */
  lemma {:induction false} ReorderedPartners(ms: seq<(string, Json)>, ns: seq<(string, Json)>)
    requires UniqueKeys(JObject(ms)) && UniqueKeys(JObject(ns)) && MembersReordered(JObject(ms), JObject(ns))
    ensures forall x :: x in NormMembers(ms) <==> x in NormMembers(ns)
    ensures (forall i :: 0 <= i < |ms| ==> FloatFree(ms[i].1)) <==> (forall k :: 0 <= k < |ns| ==> FloatFree(ns[k].1))
    decreases JObject(ms), 1
  {
    var s, t := NormMembers(ms), NormMembers(ns);
    forall x | x in s ensures x in t {
      var i :| 0 <= i < |ms| && s[i] == x;
      ReorderedMember(ms, ns, i);
    }
    forall x | x in t ensures x in s {
      var k :| 0 <= k < |ns| && t[k] == x;
      var i := KeyIndex(ms, ns[k].0);
      ReorderedMember(ms, ns, i);
    }
    if forall i :: 0 <= i < |ms| ==> FloatFree(ms[i].1) {
      forall k | 0 <= k < |ns| ensures FloatFree(ns[k].1) {
        ReorderedMember(ms, ns, KeyIndex(ms, ns[k].0));
      }
    }
    if forall k :: 0 <= k < |ns| ==> FloatFree(ns[k].1) {
      forall i | 0 <= i < |ms| ensures FloatFree(ms[i].1) {
        ReorderedMember(ms, ns, i);
      }
    }
  }

  /** Member `i` of the first object and the member of the second with its key, which is the
      only one, have the same canonical member and the same float-freeness. */
  lemma {:induction false} ReorderedMember(ms: seq<(string, Json)>, ns: seq<(string, Json)>, i: int)
    requires UniqueKeys(JObject(ms)) && UniqueKeys(JObject(ns)) && MembersReordered(JObject(ms), JObject(ns))
    requires 0 <= i < |ms|
    ensures var k := KeyIndex(ns, ms[i].0);
      && k < |ns|
      && (forall p :: 0 <= p < |ns| && ns[p].0 == ms[i].0 ==> p == k)
      && NormMembers(ms)[i] == NormMembers(ns)[k]
      && (FloatFree(ms[i].1) <==> FloatFree(ns[k].1))
    decreases JObject(ms), 0
  {
    var k := KeyIndex(ns, ms[i].0);
    NormalizeMembersReordered(ms[i].1, ns[k].1);
  }

  // ------------------------------------------------------------ the recursive procedure

  lemma NormMembersSnoc(ms: seq<(string, Json)>, i: int)
    requires 0 <= i < |ms|
    ensures NormMembers(ms[..i + 1]) == NormMembers(ms[..i]) + [(ms[i].0, Normalize(ms[i].1))]
  {
    assert ms[..i + 1][..i] == ms[..i];
  }

  lemma NormElemsSnoc(xs: seq<Json>, i: int)
    requires 0 <= i < |xs|
    ensures NormElems(xs[..i + 1]) == NormElems(xs[..i]) + [Normalize(xs[i])]
  {
    assert xs[..i + 1][..i] == xs[..i];
  }

  /** The source's recursive procedure: members and elements are canonicalised one at a time,
      in order, the first error is passed up, and the collected list is sorted. */
  method CanonicalizeJsonObj(j: Json) returns (r: Result<Json>)
    ensures FloatFree(j) ==> r == Ok(Normalize(j))
    ensures !FloatFree(j) ==> r == Err(FloatForbidden)
    decreases j, 1
  {
    match j {
      case JObject(ms) =>
        var items := CanonicalizeMembers(ms);
        if items.Err? {
          return Err(items.msg);
        }
        r := Ok(JObject(SortBy(items.value, MemberLe)));
      case JArray(xs) =>
        var elems := CanonicalizeElems(xs);
        if elems.Err? {
          return Err(elems.msg);
        }
        r := Ok(JArray(SortBy(elems.value, ElemLe)));
      case JFloat(_) =>
        r := Err(FloatForbidden);
      case _ =>
        r := Ok(j);
    }
  }

  /** The loop over the items of a dict: each value canonicalised in turn, the first float
      ending it. */
  method CanonicalizeMembers(ms: seq<(string, Json)>) returns (r: Result<seq<(string, Json)>>)
    ensures FloatFree(JObject(ms)) ==> r == Ok(NormMembers(ms))
    ensures !FloatFree(JObject(ms)) ==> r == Err(FloatForbidden)
    decreases JObject(ms), 0
  {
    var items: seq<(string, Json)> := [];
    var i := 0;
    while i < |ms|
      invariant 0 <= i <= |ms|
      invariant forall p :: 0 <= p < i ==> FloatFree(ms[p].1)
      invariant items == NormMembers(ms[..i])
    {
      var v := CanonicalizeJsonObj(ms[i].1);
      if v.Err? {
        return Err(v.msg);
      }
      NormMembersSnoc(ms, i);
      items := items + [(ms[i].0, v.value)];
      i := i + 1;
    }
    assert ms[..i] == ms;
    r := Ok(items);
  }

  /** The loop over the elements of a list. */
  method CanonicalizeElems(xs: seq<Json>) returns (r: Result<seq<Json>>)
    ensures FloatFree(JArray(xs)) ==> r == Ok(NormElems(xs))
    ensures !FloatFree(JArray(xs)) ==> r == Err(FloatForbidden)
    decreases JArray(xs), 0
  {
    var elems: seq<Json> := [];
    var i := 0;
    while i < |xs|
      invariant 0 <= i <= |xs|
      invariant forall p :: 0 <= p < i ==> FloatFree(xs[p])
      invariant elems == NormElems(xs[..i])
    {
      var v := CanonicalizeJsonObj(xs[i]);
      if v.Err? {
        return Err(v.msg);
      }
      NormElemsSnoc(xs, i);
      elems := elems + [v.value];
      i := i + 1;
    }
    assert xs[..i] == xs;
    r := Ok(elems);
  }
}
