/** `canon_json` and `sha256_canon`: the canonical text of a JSON document, and the digest of the
    canonical form of either kind of input. JSON parsing, NFC and SHA-256 are parameters. */
module CanonHash {
  import opened Results
  import opened JsonValues
  import opened JsonCanon
  import CanonText

  const BadKind := "BAD_KIND"

  /** What is assumed of `json.loads` (with floats refused), which the model takes as a
      parameter: it reads back what the serialiser writes for a float-free value whose objects
      have distinct keys, and every object it returns has distinct keys (it is a dict). */
  ghost predicate ParseLaws(parse: string -> Result<Json>) {
    (forall j :: FloatFree(j) && UniqueKeys(j) ==> parse(Serialize(j)) == Ok(j)) &&
    (forall s :: parse(s).Ok? ==> UniqueKeys(parse(s).value))
  }

  /** `canon_json`: parse, canonicalise, serialise compactly. A parse error (a float literal
      included) and FLOAT_FORBIDDEN from the canonicaliser are passed on. */
  function CanonJsonText(raw: string, parse: string -> Result<Json>): (r: Result<string>)
    ensures r.Ok? ==> parse(raw).Ok? && FloatFree(parse(raw).value)
    ensures parse(raw).Err? ==> r == Err(parse(raw).msg)
    ensures parse(raw).Ok? && FloatFree(parse(raw).value) ==> r == Ok(Serialize(Normalize(parse(raw).value)))
    ensures parse(raw).Ok? && !FloatFree(parse(raw).value) ==> r == Err(FloatForbidden)
  {
    match parse(raw)
    case Err(e) => Err(e)
    case Ok(j) =>
      match Canonicalize(j)
      case Err(e) => Err(e)
      case Ok(c) => Ok(Serialize(c))
  }

  /** The canonical text is its own canonical text. */
  lemma CanonJsonTextIdempotent(raw: string, parse: string -> Result<Json>)
    requires ParseLaws(parse)
    ensures CanonJsonText(raw, parse).Ok? ==>
      CanonJsonText(CanonJsonText(raw, parse).value, parse) == CanonJsonText(raw, parse)
  {
    if CanonJsonText(raw, parse).Ok? {
      var j := parse(raw).value;
      var c := Normalize(j);
      NormalizeCanonical(j);
      NormalizeUniqueKeys(j);
      CanonicalFloatFree(c);
      CanonicalFixed(c);
      assert parse(Serialize(c)) == Ok(c);
    }
  }

  /** The canonical text does not depend on the order in which the members of any object, at
      any depth, were written: two documents that read as reorderings of each other have the
      same canonical text, or fail alike. */
  lemma CanonJsonTextMemberOrder(raw1: string, raw2: string, parse: string -> Result<Json>)
    requires ParseLaws(parse)
    requires parse(raw1).Ok? && parse(raw2).Ok?
    requires MembersReordered(parse(raw1).value, parse(raw2).value)
    ensures CanonJsonText(raw1, parse) == CanonJsonText(raw2, parse)
  {
    assert UniqueKeys(parse(raw1).value) && UniqueKeys(parse(raw2).value);
    NormalizeMembersReordered(parse(raw1).value, parse(raw2).value);
  }

  /** `sha256_canon`: the digest of the canonical text of kind "text" or "json"; any other
      kind is BAD_KIND, and a canonicalisation error is passed on. */
  function Sha256Canon(kind: string, raw: string, nfc: string -> string,
                       parse: string -> Result<Json>, digest: string -> string): (r: Result<string>)
    ensures kind != "text" && kind != "json" ==> r == Err(BadKind)
    ensures kind == "text" ==> (r.Ok? <==> CanonText.CanonText(raw, nfc).Ok?)
    ensures kind == "json" ==> (r.Ok? <==> CanonJsonText(raw, parse).Ok?)
    ensures kind == "text" ==>
      var t := CanonText.Prepare(raw, nfc);
      && (CanonText.AllCanonChars(t) ==> r == Ok(digest(t)))
      && (!CanonText.AllCanonChars(t) ==> r == Err(CanonText.FirstViolation(t).value))
    ensures kind == "json" && parse(raw).Ok? && FloatFree(parse(raw).value) ==>
      r == Ok(digest(Serialize(Normalize(parse(raw).value))))
    ensures kind == "json" && parse(raw).Ok? && !FloatFree(parse(raw).value) ==> r == Err(FloatForbidden)
    ensures kind == "json" && parse(raw).Err? ==> r == Err(parse(raw).msg)
  {
    if kind == "text" then
      match CanonText.CanonText(raw, nfc)
      case Err(e) => Err(e)
      case Ok(t) => Ok(digest(t))
    else if kind == "json" then
      match CanonJsonText(raw, parse)
      case Err(e) => Err(e)
      case Ok(t) => Ok(digest(t))
    else Err(BadKind)
  }

  /** Hashing the canonical text gives the same digest as hashing the input it came from. */
  lemma Sha256CanonStable(kind: string, raw: string, nfc: string -> string,
                          parse: string -> Result<Json>, digest: string -> string)
    requires CanonText.NfcLaws(nfc) && ParseLaws(parse)
    ensures kind == "text" && CanonText.CanonText(raw, nfc).Ok? ==>
      Sha256Canon(kind, CanonText.CanonText(raw, nfc).value, nfc, parse, digest) == Sha256Canon(kind, raw, nfc, parse, digest)
    ensures kind == "json" && CanonJsonText(raw, parse).Ok? ==>
      Sha256Canon(kind, CanonJsonText(raw, parse).value, nfc, parse, digest) == Sha256Canon(kind, raw, nfc, parse, digest)
  {
    CanonText.CanonTextIdempotent(raw, nfc);
    CanonJsonTextIdempotent(raw, parse);
  }

  /** CRLF, lone CR and LF line ends hash alike. */
  lemma Sha256CanonNewlines(raw: string, nfc: string -> string,
                            parse: string -> Result<Json>, digest: string -> string)
    ensures Sha256Canon("text", CanonText.NormalizeNewlines(raw), nfc, parse, digest) ==
            Sha256Canon("text", raw, nfc, parse, digest)
  {
    var n := CanonText.NormalizeNewlines(raw);
    assert CanonText.NormalizeNewlines(n) == n;
  }

  /** With a collision-free digest, equal `json` hashes mean equal canonical values: the hash
      tells canonical documents apart. */
  lemma Sha256CanonJsonSeparates(raw1: string, raw2: string, nfc: string -> string,
                                 parse: string -> Result<Json>, digest: string -> string)
    requires forall a, b :: digest(a) == digest(b) ==> a == b
    requires Sha256Canon("json", raw1, nfc, parse, digest).Ok?
    requires Sha256Canon("json", raw1, nfc, parse, digest) == Sha256Canon("json", raw2, nfc, parse, digest)
    ensures parse(raw1).Ok? && parse(raw2).Ok?
    ensures Canonicalize(parse(raw1).value) == Canonicalize(parse(raw2).value)
  {
    var j1, j2 := parse(raw1).value, parse(raw2).value;
    NormalizeFloatFree(j1);
    NormalizeFloatFree(j2);
    SerializeInjective(Normalize(j1), Normalize(j2));
  }

  /** With a collision-free digest, equal `text` hashes mean equal canonical texts; in
      particular the texts differ only in what the pipeline removes. */
  lemma Sha256CanonTextSeparates(raw1: string, raw2: string, nfc: string -> string,
                                 parse: string -> Result<Json>, digest: string -> string)
    requires forall a, b :: digest(a) == digest(b) ==> a == b
    requires Sha256Canon("text", raw1, nfc, parse, digest).Ok?
    requires Sha256Canon("text", raw1, nfc, parse, digest) == Sha256Canon("text", raw2, nfc, parse, digest)
    ensures CanonText.CanonText(raw1, nfc) == CanonText.CanonText(raw2, nfc)
    ensures CanonText.Prepare(raw1, nfc) == CanonText.Prepare(raw2, nfc)
  {
    var t1, t2 := CanonText.CanonText(raw1, nfc).value, CanonText.CanonText(raw2, nfc).value;
    assert digest(t1) == digest(t2);
  }
}
