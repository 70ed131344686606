/**
  What a handover proof commits to. Transfer events and proof bindings are hashed over
  domain-separated, length-prefixed encodings; equal roots mean equal facts.
 */
module HandoverProof {
  import opened Prelude
  import opened Encoding
  import opened Responsibility
  import Audit

  const TRANSFER_DOMAIN := "cargoos:responsibility-transfer:v1"

  const PROOF_DOMAIN := "cargoos:handover-proof-binding:v1"

  /** Strings as Go holds them: UTF-8, shorter than 2^64 bytes. */
  predicate Holdable(s: string)
  {
    |Utf8(s)| < U64_LIMIT
  }

  function Field(s: string): Bytes
    requires Holdable(s)
  {
    Framed(Utf8(s))
  }

  lemma FieldIsPrefixFree(a: string, x: Bytes, b: string, y: Bytes)
    requires Holdable(a) && Holdable(b) && Field(a) + x == Field(b) + y
    ensures a == b && x == y
  {
    hide Utf8, Framed;
    FramedIsPrefixFree(Utf8(a), x, Utf8(b), y);
    Utf8IsInjective(a, b);
  }

  // Transfer events -------------------------------------------------------------------------------

  predicate HoldableEvent(e: Transferred)
  {
    Holdable(e.objectID) && Holdable(e.from) && Holdable(e.to) && Representable(e.at)
  }

  function TransferPreimage(e: Transferred): Bytes
    requires HoldableEvent(e)
  {
    Utf8(TRANSFER_DOMAIN) + Field(e.objectID) + Field(e.from) + Field(e.to) + Scalar(e.version) + Scalar(Micros(e.at))
  }

  function TransferRoot(H: Bytes -> Root, e: Transferred): Option<Root>
    requires HoldableEvent(e)
  {
    if ValidEvent(e) then Some(H(TransferPreimage(e))) else None
  }

  /** The two events agree to the microsecond. */
  predicate SameTransfer(a: Transferred, b: Transferred)
  {
    a.(at := Truncated(a.at)) == b.(at := Truncated(b.at))
  }

  lemma TransferPreimageIsInjective(a: Transferred, b: Transferred)
    requires HoldableEvent(a) && HoldableEvent(b) && TransferPreimage(a) == TransferPreimage(b)
    ensures SameTransfer(a, b)
  {
    hide Utf8, Field, Micros, Truncated, Holdable, Representable, Scalar;
    var d := Utf8(TRANSFER_DOMAIN);
    var a5, b5 := Scalar(Micros(a.at)), Scalar(Micros(b.at));
    var a4, b4 := Scalar(a.version) + a5, Scalar(b.version) + b5;
    var a3, b3 := Field(a.to) + a4, Field(b.to) + b4;
    var a2, b2 := Field(a.from) + a3, Field(b.from) + b3;
    var a1, b1 := Field(a.objectID) + a2, Field(b.objectID) + b2;
    assert TransferPreimage(a) == d + a1 && TransferPreimage(b) == d + b1;
    SplitAt(d, a1, d, b1);
    FieldIsPrefixFree(a.objectID, a2, b.objectID, b2);
    FieldIsPrefixFree(a.from, a3, b.from, b3);
    FieldIsPrefixFree(a.to, a4, b.to, b4);
    ScalarIsPrefixFree(a.version, a5, b.version, b5);
    ScalarIsInjective(Micros(a.at), Micros(b.at));
    MicrosTellInstants(a.at, b.at);
  }

  /** With no collision between them, equal roots are roots of the same handover. */
  lemma EqualTransferRoots(H: Bytes -> Root, a: Transferred, b: Transferred)
    requires HoldableEvent(a) && HoldableEvent(b) && CollisionFreeOn(H, {TransferPreimage(a), TransferPreimage(b)})
    requires TransferRoot(H, a).Some? && TransferRoot(H, a) == TransferRoot(H, b)
    ensures SameTransfer(a, b)
  {
    hide TransferPreimage, HoldableEvent, ValidEvent, SameTransfer;
    TransferPreimageIsInjective(a, b);
  }

  /** The head root of a ledger fixes every handover recorded in it: ledgers with one head that name a transfer
      root at the same place name the same handover there. */
  lemma HeadFixesHandovers(H: Bytes -> Root, a: seq<Audit.Entry>, b: seq<Audit.Entry>, i: nat, x: Transferred, y: Transferred)
    requires Audit.Chained(H, a) && Audit.Chained(H, b) && Audit.AllRepresentable(a) && Audit.AllRepresentable(b)
    requires HoldableEvent(x) && HoldableEvent(y) && ValidEvent(x) && ValidEvent(y)
    requires CollisionFreeOn(H, Audit.Preimages(a) + Audit.Preimages(b)) && CollisionFreeOn(H, {TransferPreimage(x), TransferPreimage(y)})
    requires a != [] && b != [] && a[|a| - 1].root == b[|b| - 1].root && i < |a| && i < |b|
    requires TransferRoot(H, x) == Some(a[i].record) && TransferRoot(H, y) == Some(b[i].record)
    ensures |a| == |b| && SameTransfer(x, y)
  {
    hide Audit.Chained, Audit.Preimages, Audit.AllRepresentable, TransferPreimage, HoldableEvent, ValidEvent, SameTransfer;
    Audit.EqualHeadsEqualLedgers(H, a, b);
    EqualTransferRoots(H, x, y);
  }

  // Proof bindings --------------------------------------------------------------------------------

  /** UUIDs are written as their sixteen bytes. */
  const UUID_LIMIT: nat := 0x1_0000_0000_0000_0000_0000_0000_0000_0000

  type Uuid = n: nat | n < UUID_LIMIT

  function UuidBytes(id: Uuid): (r: Bytes)
    ensures |r| == 16
  {
    BigEndian(id, 16)
  }

  lemma UuidIsPrefixFree(a: Uuid, x: Bytes, b: Uuid, y: Bytes)
    requires UuidBytes(a) + x == UuidBytes(b) + y
    ensures a == b && x == y
  {
    SplitAt(UuidBytes(a), x, UuidBytes(b), y);
    assert Pow256(16) == UUID_LIMIT by {
      assert Pow256(2) == 65536 && Pow256(4) == 65536 * Pow256(2) && Pow256(6) == 65536 * Pow256(4) && Pow256(8) == 65536 * Pow256(6);
      assert Pow256(10) == 65536 * Pow256(8) && Pow256(12) == 65536 * Pow256(10) && Pow256(14) == 65536 * Pow256(12) && Pow256(16) == 65536 * Pow256(14);
    }
    BigEndianIsInjective(a, b, 16);
  }

  datatype Binding = Binding(
    proofID: Uuid, objectID: string, from: string, to: string, version: U64, transferredAt: Time, transferRoot: Root,
    sequence: U64, previousRoot: Root, auditRoot: Root, bundleID: Uuid, evaluationID: Uuid, sessionID: Uuid,
    bundleRoot: Root, policyHash: string, certificateID: Uuid, certificateRoot: Root, issuedAt: Time, root: Root)

  predicate HoldableBinding(b: Binding)
  {
    && Holdable(b.objectID) && Holdable(b.from) && Holdable(b.to) && Holdable(b.policyHash)
    && Representable(b.transferredAt) && Representable(b.issuedAt)
  }

  function Transferring(b: Binding): Bytes
    requires HoldableBinding(b)
  {
    UuidBytes(b.proofID) + Field(b.objectID) + Field(b.from) + Field(b.to) + Scalar(b.version) + Scalar(Micros(b.transferredAt))
    + b.transferRoot
  }

  function Auditing(b: Binding): Bytes
  {
    Scalar(b.sequence) + b.previousRoot + b.auditRoot
  }

  function Certifying(b: Binding): Bytes
    requires HoldableBinding(b)
  {
    UuidBytes(b.bundleID) + UuidBytes(b.evaluationID) + UuidBytes(b.sessionID) + b.bundleRoot + Field(b.policyHash)
    + UuidBytes(b.certificateID) + b.certificateRoot + Scalar(Micros(b.issuedAt))
  }

  function ProofPreimage(b: Binding): Bytes
    requires HoldableBinding(b)
  {
    Utf8(PROOF_DOMAIN) + Transferring(b) + Auditing(b) + Certifying(b)
  }

  predicate ValidBinding(H: Bytes -> Root, b: Binding)
    requires HoldableBinding(b)
  {
    && b.proofID != 0 && ValidName(b.objectID) && ValidName(b.from) && ValidName(b.to) && b.from != b.to && b.version >= 2
    && b.transferredAt != 0 && b.transferredAt == Truncated(b.transferredAt) && b.transferRoot != ZERO_ROOT
    && b.sequence != 0 && b.auditRoot != ZERO_ROOT && b.bundleID != 0 && b.evaluationID != 0 && b.sessionID != 0
    && b.bundleRoot != ZERO_ROOT && b.policyHash != "" && b.certificateID != 0 && b.certificateRoot != ZERO_ROOT
    && b.issuedAt != 0 && b.issuedAt == Truncated(b.issuedAt) && b.transferredAt <= b.issuedAt
    && b.root != ZERO_ROOT && b.root == H(ProofPreimage(b))
  }

  lemma TransferringIsPrefixFree(a: Binding, x: Bytes, b: Binding, y: Bytes)
    requires HoldableBinding(a) && HoldableBinding(b) && Transferring(a) + x == Transferring(b) + y
    ensures a.proofID == b.proofID && a.objectID == b.objectID && a.from == b.from && a.to == b.to && a.version == b.version
    ensures Micros(a.transferredAt) == Micros(b.transferredAt) && a.transferRoot == b.transferRoot && x == y
  {
    hide UuidBytes, Field, Micros, Holdable, Representable, Scalar;
    var a6, b6 := a.transferRoot + x, b.transferRoot + y;
    var a5, b5 := Scalar(Micros(a.transferredAt)) + a6, Scalar(Micros(b.transferredAt)) + b6;
    var a4, b4 := Scalar(a.version) + a5, Scalar(b.version) + b5;
    var a3, b3 := Field(a.to) + a4, Field(b.to) + b4;
    var a2, b2 := Field(a.from) + a3, Field(b.from) + b3;
    var a1, b1 := Field(a.objectID) + a2, Field(b.objectID) + b2;
    assert Transferring(a) + x == UuidBytes(a.proofID) + a1 && Transferring(b) + y == UuidBytes(b.proofID) + b1;
    UuidIsPrefixFree(a.proofID, a1, b.proofID, b1);
    FieldIsPrefixFree(a.objectID, a2, b.objectID, b2);
    FieldIsPrefixFree(a.from, a3, b.from, b3);
    FieldIsPrefixFree(a.to, a4, b.to, b4);
    ScalarIsPrefixFree(a.version, a5, b.version, b5);
    ScalarIsPrefixFree(Micros(a.transferredAt), a6, Micros(b.transferredAt), b6);
    SplitAt(a.transferRoot, x, b.transferRoot, y);
  }

  lemma AuditingIsPrefixFree(a: Binding, x: Bytes, b: Binding, y: Bytes)
    requires Auditing(a) + x == Auditing(b) + y
    ensures a.sequence == b.sequence && a.previousRoot == b.previousRoot && a.auditRoot == b.auditRoot && x == y
  {
    hide Scalar;
    var a2, b2 := a.auditRoot + x, b.auditRoot + y;
    var a1, b1 := a.previousRoot + a2, b.previousRoot + b2;
    assert Auditing(a) + x == Scalar(a.sequence) + a1 && Auditing(b) + y == Scalar(b.sequence) + b1;
    ScalarIsPrefixFree(a.sequence, a1, b.sequence, b1);
    SplitAt(a.previousRoot, a2, b.previousRoot, b2);
    SplitAt(a.auditRoot, x, b.auditRoot, y);
  }

  lemma CertifyingIsInjective(a: Binding, b: Binding)
    requires HoldableBinding(a) && HoldableBinding(b) && Certifying(a) == Certifying(b)
    ensures a.bundleID == b.bundleID && a.evaluationID == b.evaluationID && a.sessionID == b.sessionID && a.bundleRoot == b.bundleRoot
    ensures a.policyHash == b.policyHash && a.certificateID == b.certificateID && a.certificateRoot == b.certificateRoot
    ensures Micros(a.issuedAt) == Micros(b.issuedAt)
  {
    hide UuidBytes, Field, Micros, Holdable, Representable, Scalar;
    var a7, b7 := Scalar(Micros(a.issuedAt)), Scalar(Micros(b.issuedAt));
    var a6, b6 := a.certificateRoot + a7, b.certificateRoot + b7;
    var a5, b5 := UuidBytes(a.certificateID) + a6, UuidBytes(b.certificateID) + b6;
    var a4, b4 := Field(a.policyHash) + a5, Field(b.policyHash) + b5;
    var a3, b3 := a.bundleRoot + a4, b.bundleRoot + b4;
    var a2, b2 := UuidBytes(a.sessionID) + a3, UuidBytes(b.sessionID) + b3;
    var a1, b1 := UuidBytes(a.evaluationID) + a2, UuidBytes(b.evaluationID) + b2;
    assert Certifying(a) == UuidBytes(a.bundleID) + a1 && Certifying(b) == UuidBytes(b.bundleID) + b1;
    UuidIsPrefixFree(a.bundleID, a1, b.bundleID, b1);
    UuidIsPrefixFree(a.evaluationID, a2, b.evaluationID, b2);
    UuidIsPrefixFree(a.sessionID, a3, b.sessionID, b3);
    SplitAt(a.bundleRoot, a4, b.bundleRoot, b4);
    FieldIsPrefixFree(a.policyHash, a5, b.policyHash, b5);
    UuidIsPrefixFree(a.certificateID, a6, b.certificateID, b6);
    SplitAt(a.certificateRoot, a7, b.certificateRoot, b7);
    ScalarIsInjective(Micros(a.issuedAt), Micros(b.issuedAt));
  }

  /** Valid proofs with equal roots are one proof, field by field. */
  lemma EqualProofRoots(H: Bytes -> Root, a: Binding, b: Binding)
    requires HoldableBinding(a) && HoldableBinding(b) && CollisionFreeOn(H, {ProofPreimage(a), ProofPreimage(b)})
    requires ValidBinding(H, a) && ValidBinding(H, b) && a.root == b.root
    ensures a == b
  {
    hide Utf8, Transferring, Auditing, Certifying, Micros, Truncated, Holdable, Representable, ValidName;
    var d := Utf8(PROOF_DOMAIN);
    assert ProofPreimage(a) == ProofPreimage(b);
    var a2, b2 := Auditing(a) + Certifying(a), Auditing(b) + Certifying(b);
    assert ProofPreimage(a) == d + (Transferring(a) + a2) && ProofPreimage(b) == d + (Transferring(b) + b2);
    SplitAt(d, Transferring(a) + a2, d, Transferring(b) + b2);
    TransferringIsPrefixFree(a, a2, b, b2);
    AuditingIsPrefixFree(a, Certifying(a), b, Certifying(b));
    CertifyingIsInjective(a, b);
    MicrosTellInstants(a.transferredAt, b.transferredAt);
    MicrosTellInstants(a.issuedAt, b.issuedAt);
  }

  // Domains --------------------------------------------------------------------------------------

  /** A chain entry, a transfer and a proof are never hashed over the same bytes. */
  lemma DomainsAreSeparate(e: Audit.Entry, t: Transferred, b: Binding)
    requires HoldableEvent(t) && HoldableBinding(b)
    ensures Audit.Preimage(e) != TransferPreimage(t) && TransferPreimage(t) != ProofPreimage(b) && Audit.Preimage(e) != ProofPreimage(b)
  {
    hide Utf8, Field, Micros, Scalar, Transferring, Auditing, Certifying;
    Audit.AsciiBytes(Audit.CHAIN_DOMAIN, 8);
    Audit.AsciiBytes(TRANSFER_DOMAIN, 8);
    Audit.AsciiBytes(PROOF_DOMAIN, 8);
    assert Audit.Preimage(e)[8] == Utf8(Audit.CHAIN_DOMAIN)[8];
    assert TransferPreimage(t)[8] == Utf8(TRANSFER_DOMAIN)[8];
    assert ProofPreimage(b)[8] == Utf8(PROOF_DOMAIN)[8];
  }
}
