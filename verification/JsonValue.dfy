// The executor's comparison of payloads (internal/executor/jsonvalue.go), and its agreement with the
// canonical form the digest is made of.
module JsonValue {
  import opened Text
  import opened Json
  import opened JsonTheorems

  datatype Side = Observed | Desired

  datatype Comparison =
    | Equal
    | Mismatch
    | Invalid(side: Side, kind: FailureKind)

  // Both sides must be exactly one value; the observed side is judged first.
  function EqualJson(observed: string, desired: string): Comparison {
    match ParseSingle(observed)
    case Err(kind) => Invalid(Observed, kind)
    case Ok(a) =>
      match ParseSingle(desired)
      case Err(kind) => Invalid(Desired, kind)
      case Ok(b) => if a == b then Equal else Mismatch
  }

  // Two payloads compare equal exactly when both decode and their canonical texts are the same.
  lemma EqualExactlyWhenCanonicalTextsAre(a: string, b: string)
    ensures EqualJson(a, b) == Equal <==> Canonical(a).Some? && Canonical(a) == Canonical(b)
    ensures EqualJson(a, b) == Mismatch <==> Canonical(a).Some? && Canonical(b).Some? && Canonical(a) != Canonical(b)
  {
    if ParseSingle(a).Ok? && ParseSingle(b).Ok? {
      SingleIsGood(a);
      SingleIsGood(b);
      if Canonical(a) == Canonical(b) {
        PrintIsInjective(ParseSingle(a).value, ParseSingle(b).value, MAX_NESTING);
      }
    }
  }
}
