/**
 The two checksum gates. Both compare a release asset's `digest` with the
 SHA-256 of the downloaded bytes, given here as its lower-case hex string, and
 both accept an artifact without verification when the digest is absent or
 empty. They differ in how a present digest is compared.
 */
module Checksum {
  import opened Wrappers
  import opened Text

  const Sha256Tag := "sha256:"

  datatype Verdict =
    | Verified    // digest present and matching
    | Unverified  // no digest: a warning, the artifact is accepted
    | Mismatch    // digest present and different: the artifact is refused
  {
    predicate Accepts() {
      !Mismatch?
    }
  }

  /** The installer's rule: every `sha256:` is deleted from the digest, the rest must equal the hex. */
  function StrippedDigestGate(digest: Option<string>, actual: string): (v: Verdict)
    ensures v == Unverified <==> !Present(digest)
    ensures v.Accepts() <==> !Present(digest) || RemoveAll(digest.value, Sha256Tag) == actual
  {
    if !Present(digest) then Unverified
    else if RemoveAll(digest.value, Sha256Tag) == actual then Verified
    else Mismatch
  }

  /** The manager's rule: `"sha256:" + hex` must equal the digest exactly. */
  function TaggedDigestGate(digest: Option<string>, actual: string): (v: Verdict)
    ensures v == Unverified <==> !Present(digest)
    ensures v.Accepts() <==> !Present(digest) || digest.value == Sha256Tag + actual
  {
    if !Present(digest) then Unverified
    else if Sha256Tag + actual == digest.value then Verified
    else Mismatch
  }

  /** A hex string contains no `sha256:`, so stripping leaves it alone. */
  lemma HexIsNotStripped(hex: string)
    requires IsLowerHex(hex)
    ensures RemoveAll(hex, Sha256Tag) == hex
  {
    assert 's' !in "0123456789abcdef";
    forall k | 0 <= k < |hex|
      ensures !OccursAt(hex, Sha256Tag, k)
    {
      assert hex[k] != Sha256Tag[0];
      if k + |Sha256Tag| <= |hex| {
        assert hex[k..k + |Sha256Tag|][0] == hex[k];
      }
    }
  }

  /** On digests in the tagged form `sha256:<hex>` the two gates agree, and both compare the hex exactly. */
  lemma GatesAgreeOnTaggedForm(hex: string, actual: string)
    requires IsLowerHex(hex)
    ensures StrippedDigestGate(Some(Sha256Tag + hex), actual).Accepts() <==> hex == actual
    ensures TaggedDigestGate(Some(Sha256Tag + hex), actual).Accepts() <==> hex == actual
  {
    RemoveAllLeading(Sha256Tag, hex);
    HexIsNotStripped(hex);
  }

  /** Whatever the manager accepts, the installer accepts too. */
  lemma TaggedGateIsStricter(digest: Option<string>, actual: string)
    requires IsLowerHex(actual)
    ensures TaggedDigestGate(digest, actual).Accepts() ==> StrippedDigestGate(digest, actual).Accepts()
  {
    if Present(digest) && digest.value == Sha256Tag + actual {
      GatesAgreeOnTaggedForm(actual, actual);
    }
  }

  /** The converse fails: a bare hex digest passes the installer and fails the manager. */
  lemma BareHexDivides(actual: string)
    requires IsLowerHex(actual) && actual != ""
    ensures StrippedDigestGate(Some(actual), actual) == Verified
    ensures TaggedDigestGate(Some(actual), actual) == Mismatch
  {
    HexIsNotStripped(actual);
    assert |Sha256Tag + actual| != |actual|;
  }

  /** The installer deletes every occurrence: a doubled tag still verifies. */
  lemma StrippedGateDropsEveryTag(actual: string)
    requires IsLowerHex(actual)
    ensures StrippedDigestGate(Some(Sha256Tag + Sha256Tag + actual), actual) == Verified
    ensures TaggedDigestGate(Some(Sha256Tag + Sha256Tag + actual), actual) == Mismatch
  {
    RemoveAllLeading(Sha256Tag, Sha256Tag + actual);
    GatesAgreeOnTaggedForm(actual, actual);
    assert Sha256Tag + Sha256Tag + actual == Sha256Tag + (Sha256Tag + actual);
    assert |Sha256Tag + Sha256Tag + actual| != |Sha256Tag + actual|;
  }
}
