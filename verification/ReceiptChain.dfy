/**
 * Receipts, their hash chain and its verifier (packages/crypto/src/receipts.ts).
 * SHA-256 over canonical JSON and ed25519 are parameters; "no collision" is never assumed,
 * it appears as the alternative in the conclusions.
 */
module ReceiptChain {
  import opened Common

  datatype Citation = Citation(kind: string, ref: string, hash: Option<string>)

  datatype DecisionTrail = DecisionTrail(
    planSummary: string, reasonSummary: string, inputsUsed: seq<string>, citations: seq<Citation>)

  datatype ExecutionSummary = ExecutionSummary(
    status: string, exitCode: Option<int>, stdoutPreview: string, durationMs: int)

  /** The hashed fields of a receipt. */
  datatype Body = Body(
    toolCallId: string,
    agentPubkey: string,
    toolName: string,
    riskTier: string,
    policyDecision: string,
    policyRuleId: Option<string>,
    approvalDecision: Option<string>,
    approver: Option<string>,
    executionSummary: Option<ExecutionSummary>,
    decisionTrail: DecisionTrail,
    chainPrev: Option<string>,
    timestamp: string)

  datatype Receipt = Receipt(
    id: string,
    toolCallId: string,
    agentPubkey: string,
    toolName: string,
    riskTier: string,
    policyDecision: string,
    policyRuleId: Option<string>,
    approvalDecision: Option<string>,
    approver: Option<string>,
    executionSummary: Option<ExecutionSummary>,
    decisionTrail: DecisionTrail,
    chainPrev: Option<string>,
    timestamp: string,
    hash: string,
    signature: string,
    createdAt: int)

  datatype Crypto = Crypto(
    digest: Body -> string,
    sign: string -> string,
    verify: (string, string) -> bool)

  function ReceiptBody(r: Receipt): Body {
    Body(r.toolCallId, r.agentPubkey, r.toolName, r.riskTier, r.policyDecision, r.policyRuleId,
         r.approvalDecision, r.approver, r.executionSummary, r.decisionTrail, r.chainPrev, r.timestamp)
  }

  /** The hash covers every field of a receipt but its identifier, hash, signature and creation time. */
  lemma BodyCoversTheFields(a: Receipt, b: Receipt)
    ensures ReceiptBody(a) == ReceiptBody(b) <==>
              a.(id := b.id, hash := b.hash, signature := b.signature, createdAt := b.createdAt) == b
  {
  }

  predicate Collide(c: Crypto, a: Body, b: Body) {
    a != b && c.digest(a) == c.digest(b)
  }

  predicate VerifyReceipt(c: Crypto, r: Receipt) {
    c.digest(ReceiptBody(r)) == r.hash && c.verify(r.hash, r.signature)
  }

  ghost predicate ChainOk(c: Crypto, receipts: seq<Receipt>) {
    && (forall i :: 0 <= i < |receipts| ==> VerifyReceipt(c, receipts[i]))
    && (forall i :: 0 < i < |receipts| ==> receipts[i].chainPrev == Some(receipts[i - 1].hash))
  }

  /**
   * Accepts exactly when at every position the hash is the digest of the body, the signature
   * verifies for the hash, and the receipt links to the one before; otherwise `brokenAt` is the
   * first position where one of the three fails.
   */
  method VerifyChain(c: Crypto, receipts: seq<Receipt>) returns (valid: bool, brokenAt: Option<nat>)
    ensures valid <==> ChainOk(c, receipts)
    ensures valid <==> brokenAt == None
    ensures var end := if brokenAt.Some? then brokenAt.value else |receipts|;
            && end <= |receipts|
            && forall i :: 0 <= i < end ==>
                 && c.digest(ReceiptBody(receipts[i])) == receipts[i].hash
                 && c.verify(receipts[i].hash, receipts[i].signature)
                 && (i > 0 ==> receipts[i].chainPrev == Some(receipts[i - 1].hash))
    ensures brokenAt.Some? ==>
              && brokenAt.value < |receipts|
              && var r := receipts[brokenAt.value];
                 || c.digest(ReceiptBody(r)) != r.hash
                 || !c.verify(r.hash, r.signature)
                 || (brokenAt.value > 0 && r.chainPrev != Some(receipts[brokenAt.value - 1].hash))
  {
    var i := 0;
    while i < |receipts|
      invariant 0 <= i <= |receipts|
      invariant forall k :: 0 <= k < i ==> VerifyReceipt(c, receipts[k])
      invariant forall k :: 0 < k < i ==> receipts[k].chainPrev == Some(receipts[k - 1].hash)
    {
      var r := receipts[i];
      if !VerifyReceipt(c, r) {
        return false, Some(i);
      }
      if i != 0 {
        var prev := receipts[i - 1];
        if r.chainPrev != Some(prev.hash) {
          return false, Some(i);
        }
      }
      i := i + 1;
    }
    return true, None;
  }

  // ---- Tamper evidence ----

  /** The body `back` places before the last one. */
  function FromEnd(receipts: seq<Receipt>, back: nat): Body
    requires back < |receipts|
  {
    ReceiptBody(receipts[|receipts| - 1 - back])
  }

  /** The two bodies at this distance from the ends of the chains differ but have one digest. */
  predicate CollideAt(c: Crypto, a: seq<Receipt>, b: seq<Receipt>, back: nat) {
    back < |a| && back < |b| && Collide(c, FromEnd(a, back), FromEnd(b, back))
  }

  /**
   * Two chains that end in the same hash agree at every distance from the end, unless bodies of
   * theirs at that distance or nearer to the end collide.
   */
  lemma {:induction false} TailsAgree(c: Crypto, a: seq<Receipt>, b: seq<Receipt>, back: nat)
    requires ChainOk(c, a) && ChainOk(c, b)
    requires back < |a| && back < |b|
    requires a[|a| - 1].hash == b[|b| - 1].hash
    ensures (exists d: nat :: d <= back && CollideAt(c, a, b, d))
            || (a[|a| - 1 - back].hash == b[|b| - 1 - back].hash && FromEnd(a, back) == FromEnd(b, back))
  {
    var x, y := a[|a| - 1 - back], b[|b| - 1 - back];
    if back > 0 {
      TailsAgree(c, a, b, back - 1);
      var x', y' := a[|a| - back], b[|b| - back];
      assert FromEnd(a, back - 1) == FromEnd(b, back - 1) ==> x'.chainPrev == y'.chainPrev;
    }
    assert c.digest(ReceiptBody(x)) == x.hash && c.digest(ReceiptBody(y)) == y.hash;
    assert x.hash == y.hash && FromEnd(a, back) != FromEnd(b, back) ==> CollideAt(c, a, b, back);
  }

  /**
   * Tamper evidence: of two valid chains with the same last hash, the shorter one's bodies are
   * exactly the tail of the longer one's, or two bodies at one distance from the ends collide.
   */
  lemma TamperEvidence(c: Crypto, short: seq<Receipt>, long: seq<Receipt>)
    requires ChainOk(c, short) && ChainOk(c, long)
    requires 0 < |short| <= |long|
    requires short[|short| - 1].hash == long[|long| - 1].hash
    ensures (exists d: nat :: CollideAt(c, short, long, d))
            || forall i :: 0 <= i < |short| ==>
                 ReceiptBody(short[i]) == ReceiptBody(long[|long| - |short| + i])
    ensures (exists i :: 0 <= i < |short|
                         && ReceiptBody(short[i]) != ReceiptBody(long[|long| - |short| + i])
                         && c.digest(ReceiptBody(short[i])) == c.digest(ReceiptBody(long[|long| - |short| + i])))
            || forall i :: 0 <= i < |short| ==>
                 ReceiptBody(short[i]) == ReceiptBody(long[|long| - |short| + i])
  {
    if d: nat :| CollideAt(c, short, long, d) {
      var i := |short| - 1 - d;
      assert FromEnd(short, d) == ReceiptBody(short[i]);
      assert FromEnd(long, d) == ReceiptBody(long[|long| - |short| + i]);
    }
    if !exists d: nat :: CollideAt(c, short, long, d) {
      forall i | 0 <= i < |short|
        ensures ReceiptBody(short[i]) == ReceiptBody(long[|long| - |short| + i])
      {
        TailsAgree(c, short, long, |short| - 1 - i);
      }
    }
  }

  /** Complete chains, from the first receipt ever: nothing can be cut off the front either. */
  lemma CompleteHistoriesAgree(c: Crypto, a: seq<Receipt>, b: seq<Receipt>)
    requires ChainOk(c, a) && ChainOk(c, b)
    requires |a| > 0 && |b| > 0 && a[0].chainPrev == None && b[0].chainPrev == None
    requires a[|a| - 1].hash == b[|b| - 1].hash
    ensures (exists d: nat :: CollideAt(c, a, b, d))
            || (|a| == |b| && forall i :: 0 <= i < |a| ==> ReceiptBody(a[i]) == ReceiptBody(b[i]))
  {
    if |a| <= |b| {
      TailsAgree(c, a, b, |a| - 1);
      TamperEvidence(c, a, b);
      assert |a| < |b| ==> b[|b| - |a|].chainPrev == Some(b[|b| - |a| - 1].hash);
    } else {
      TailsAgree(c, a, b, |b| - 1);
      assert a[|a| - |b|].chainPrev == Some(a[|a| - |b| - 1].hash);
    }
  }
}
