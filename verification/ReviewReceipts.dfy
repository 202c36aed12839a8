/**
 * Whether an approval's row and the receipt of its decision agree, when reviews overlap
 * (routes/approvals.ts: the handlers read the status, write the row, then append the receipt).
 */
module ReviewReceipts {
  import opened Common
  import opened DeferredApproval

  /** The receipt of a decision, once filed, carries the verdict of the row. */
  predicate Agree(s: State, id: ApprovalId) {
    id in s.receipts ==> id in s.approvals && s.approvals[id] == s.receipts[id]
  }

  predicate IsVerdict(v: Verdict) {
    v == Approved || v == Denied
  }

  /** What every history keeps, whatever overlaps. */
  predicate Sound(s: State, id: ApprovalId) {
    && (forall r :: r in s.reviews ==> IsVerdict(s.reviews[r].verdict) && s.reviews[r].id in s.approvals)
    && (forall r :: r in s.reviews && s.reviews[r].Wrote? && s.reviews[r].id == id ==> s.approvals[id] != Pending)
    && (id in s.receipts ==> id in s.approvals && s.approvals[id] != Pending && IsVerdict(s.receipts[id]))
  }

  lemma StepKeepsSound(s: State, id: ApprovalId, step: Step)
    requires Enabled(s, step) && Sound(s, id)
    ensures Sound(Apply(s, step), id)
  {
  }

  lemma {:induction false} AlwaysSound(ss: seq<State>, id: ApprovalId, i: nat)
    requires History(ss) && i < |ss|
    ensures Sound(ss[i], id)
  {
    if i > 0 {
      AlwaysSound(ss, id, i - 1);
      var step := StepInto(ss, i);
      StepKeepsSound(ss[i - 1], id, step);
    }
  }

  // ---- When the row and the receipt agree for good ----

  predicate SameVerdicts(s: State, id: ApprovalId) {
    forall a, b :: a in s.reviews && b in s.reviews && s.reviews[a].id == id && s.reviews[b].id == id ==>
      s.reviews[a].verdict == s.reviews[b].verdict
  }

  /**
   * The row is decided. With a receipt filed, it agrees and every review still to write agrees
   * with it; without one, all reviews under way agree with each other, and those that have
   * written with the row.
   */
  predicate Settled(s: State, id: ApprovalId) {
    && id in s.approvals && s.approvals[id] != Pending
    && if id in s.receipts then
         && s.receipts[id] == s.approvals[id]
         && forall r :: r in s.reviews && s.reviews[r].Reading? && s.reviews[r].id == id ==>
              s.reviews[r].verdict == s.approvals[id]
       else
         && SameVerdicts(s, id)
         && forall r :: r in s.reviews && s.reviews[r].Wrote? && s.reviews[r].id == id ==>
              s.reviews[r].verdict == s.approvals[id]
  }

  lemma StepKeepsSettled(s: State, id: ApprovalId, step: Step)
    requires Enabled(s, step) && Sound(s, id) && Settled(s, id)
    ensures Settled(Apply(s, step), id)
  {
  }

  lemma {:induction false} StaysSettled(ss: seq<State>, id: ApprovalId, i: nat, j: nat)
    requires History(ss) && i <= j < |ss| && Settled(ss[i], id)
    ensures Settled(ss[j], id)
    decreases j
  {
    if i < j {
      StaysSettled(ss, id, i, j - 1);
      AlwaysSound(ss, id, j - 1);
      var step := StepInto(ss, j);
      StepKeepsSettled(ss[j - 1], id, step);
    }
  }

  function Latest(ss: seq<State>): State
    requires ss != []
  {
    ss[|ss| - 1]
  }

  /** In every continuation of the history the row and the receipt agree. */
  ghost predicate AgreeForGood(ss: seq<State>, id: ApprovalId)
    requires ss != []
  {
    forall more: seq<State> :: History(ss + more) ==> Agree(Latest(ss + more), id)
  }

  /** One more step of a history that can go wrong afterwards. */
  lemma GoesWrongLater(ss: seq<State>, id: ApprovalId, longer: seq<State>)
    requires ss != [] && ss < longer && !AgreeForGood(longer, id)
    ensures !AgreeForGood(ss, id)
  {
    var more: seq<State> :| History(longer + more) && !Agree(Latest(longer + more), id);
    var rest := longer[|ss|..] + more;
    assert longer + more == ss + rest;
    assert History(ss + rest) && !Agree(Latest(ss + rest), id);
  }

  lemma GoesWrongNow(ss: seq<State>, id: ApprovalId)
    requires History(ss) && !Agree(Latest(ss), id)
    ensures !AgreeForGood(ss, id)
  {
    assert ss + [] == ss;
  }

  /** A review still to write that differs from a filed receipt. */
  lemma LateWriteDisagrees(ss: seq<State>, id: ApprovalId, r: nat)
    requires History(ss) && r in Latest(ss).reviews && Latest(ss).reviews[r].Reading?
    requires Latest(ss).reviews[r].id == id && id in Latest(ss).receipts
    requires Latest(ss).receipts[id] != Latest(ss).reviews[r].verdict
    ensures !AgreeForGood(ss, id)
  {
    var longer := Proceed(ss, WriteReview(r));
    GoesWrongNow(longer, id);
    GoesWrongLater(ss, id, longer);
  }

  /** A review that has written something else than the row now holds, with no receipt filed. */
  lemma LateReceiptDisagrees(ss: seq<State>, id: ApprovalId, r: nat)
    requires History(ss) && r in Latest(ss).reviews && Latest(ss).reviews[r].Wrote?
    requires Latest(ss).reviews[r].id == id && id !in Latest(ss).receipts && id in Latest(ss).approvals
    requires Latest(ss).approvals[id] != Latest(ss).reviews[r].verdict
    ensures !AgreeForGood(ss, id)
  {
    var longer := Proceed(ss, FileReceipt(r));
    GoesWrongNow(longer, id);
    GoesWrongLater(ss, id, longer);
  }

  /** Two reviews with different verdicts: one files its receipt, and then the other one writes. */
  lemma DifferentVerdictsDisagree(ss: seq<State>, id: ApprovalId, a: nat, b: nat)
    requires History(ss) && a in Latest(ss).reviews && b in Latest(ss).reviews
    requires Latest(ss).reviews[a].id == id && Latest(ss).reviews[b].id == id
    requires Latest(ss).reviews[a].verdict != Latest(ss).reviews[b].verdict
    requires Latest(ss).reviews[b].Reading? && id !in Latest(ss).receipts
    ensures !AgreeForGood(ss, id)
  {
    if Latest(ss).reviews[a].Reading? {
      var longer := Proceed(ss, WriteReview(a));
      FileThenWrite(longer, id, a, b);
      GoesWrongLater(ss, id, longer);
    } else {
      FileThenWrite(ss, id, a, b);
    }
  }

  lemma FileThenWrite(ss: seq<State>, id: ApprovalId, a: nat, b: nat)
    requires History(ss) && a in Latest(ss).reviews && b in Latest(ss).reviews
    requires Latest(ss).reviews[a].id == id && Latest(ss).reviews[b].id == id
    requires Latest(ss).reviews[a].verdict != Latest(ss).reviews[b].verdict
    requires Latest(ss).reviews[a].Wrote? && Latest(ss).reviews[b].Reading? && id !in Latest(ss).receipts
    ensures !AgreeForGood(ss, id)
  {
    var longer := Proceed(ss, FileReceipt(a));
    LateWriteDisagrees(longer, id, b);
    GoesWrongLater(ss, id, longer);
  }

  lemma OverlapCanDisagree(ss: seq<State>, id: ApprovalId)
    requires History(ss) && id !in Latest(ss).receipts
    requires id in Latest(ss).approvals && Latest(ss).approvals[id] == Pending
    ensures !AgreeForGood(ss, id)
  {
    var a := FreshNumber(Latest(ss).reviews.Keys);
    var one := Proceed(ss, BeginReview(a, id, Approved));
    var two := Proceed(one, BeginReview(a + 1, id, Denied));
    DifferentVerdictsDisagree(two, id, a, a + 1);
    GoesWrongLater(one, id, two);
    GoesWrongLater(ss, id, one);
  }

  /** While an approval is pending, an approval and a denial can still overlap. */
  lemma PendingCanDisagree(ss: seq<State>, id: ApprovalId)
    requires History(ss) && id !in Latest(ss).receipts
    requires id in Latest(ss).approvals ==> Latest(ss).approvals[id] == Pending
    ensures !AgreeForGood(ss, id)
  {
    if id !in Latest(ss).approvals {
      var created := Proceed(ss, CreateApproval(id));
      OverlapCanDisagree(created, id);
      GoesWrongLater(ss, id, created);
    } else {
      OverlapCanDisagree(ss, id);
    }
  }

  /**
   * Row and receipt agree in every continuation exactly when the approval is settled. An approval
   * and a denial that overlap can leave the row DENIED and the only receipt APPROVED.
   */
  lemma AgreeForGoodIff(ss: seq<State>, id: ApprovalId)
    requires History(ss)
    ensures AgreeForGood(ss, id) <==> Settled(Latest(ss), id)
  {
    var s := Latest(ss);
    AlwaysSound(ss, id, |ss| - 1);
    if Settled(s, id) {
      forall more: seq<State> | History(ss + more) ensures Agree(Latest(ss + more), id) {
        StaysSettled(ss + more, id, |ss| - 1, |ss| + |more| - 1);
      }
    } else {
      UnsettledCanDisagree(ss, id);
    }
  }

  lemma UnsettledCanDisagree(ss: seq<State>, id: ApprovalId)
    requires History(ss) && Sound(Latest(ss), id) && !Settled(Latest(ss), id)
    ensures !AgreeForGood(ss, id)
  {
    var s := Latest(ss);
    if id !in s.approvals || s.approvals[id] == Pending {
      PendingCanDisagree(ss, id);
    } else if id in s.receipts {
      if s.receipts[id] != s.approvals[id] {
        GoesWrongNow(ss, id);
      } else {
        var r :| r in s.reviews && s.reviews[r].Reading? && s.reviews[r].id == id && s.reviews[r].verdict != s.approvals[id];
        LateWriteDisagrees(ss, id, r);
      }
    } else if r :| r in s.reviews && s.reviews[r].Wrote? && s.reviews[r].id == id
                   && s.reviews[r].verdict != s.approvals[id] {
      LateReceiptDisagrees(ss, id, r);
    } else {
      var a, b :| a in s.reviews && b in s.reviews && s.reviews[a].id == id && s.reviews[b].id == id
                  && s.reviews[a].verdict != s.reviews[b].verdict;
      if s.reviews[b].Reading? {
        DifferentVerdictsDisagree(ss, id, a, b);
      } else {
        DifferentVerdictsDisagree(ss, id, b, a);
      }
    }
  }

  /** An approval and a denial overlap: the row ends denied and its only receipt says approved. */
  lemma DeniedWithApprovedReceipt() returns (ss: seq<State>)
    ensures History(ss) && Latest(ss).reviews == map[]
    ensures Latest(ss).approvals == map["a" := Denied] && Latest(ss).receipts == map["a" := Approved]
  {
    ss := Proceed([EMPTY], CreateApproval("a"));
    ss := Proceed(ss, BeginReview(0, "a", Approved));
    ss := Proceed(ss, BeginReview(1, "a", Denied));
    ss := Proceed(ss, WriteReview(0));
    ss := Proceed(ss, FileReceipt(0));
    ss := Proceed(ss, WriteReview(1));
    ss := Proceed(ss, FileReceipt(1));
  }

  // ---- Reviews one after another ----

  /** Every review of an approval under way, before or after its write. */
  function UnderWay(s: State, id: ApprovalId): set<nat> {
    set r | r in s.reviews && s.reviews[r].id == id
  }

  /** With reviews one after another, a receipt leaves nothing to write, and a write matches the row. */
  predicate SerialAgree(s: State, id: ApprovalId) {
    && Agree(s, id)
    && (id in s.receipts ==> forall r :: r in UnderWay(s, id) ==> s.reviews[r].Wrote?)
    && forall r :: r in UnderWay(s, id) && s.reviews[r].Wrote? ==>
         id in s.approvals && s.approvals[id] == s.reviews[r].verdict
  }

  lemma StepKeepsSerialAgree(s: State, id: ApprovalId, step: Step)
    requires Enabled(s, step) && Sound(s, id)
    requires SerialAgree(s, id) && |UnderWay(s, id)| <= 1
    ensures SerialAgree(Apply(s, step), id)
  {
    if (step.WriteReview? || step.FileReceipt?) && s.reviews[step.r].id == id {
      assert step.r in UnderWay(s, id);
      forall r | r in UnderWay(Apply(s, step), id) ensures r == step.r {
        assert r in UnderWay(s, id);
        OnlyOne(UnderWay(s, id), r, step.r);
      }
    }
  }

  /** When reviews of an approval do not overlap, receipts included, its row and its receipt always agree. */
  lemma {:induction false} SerialReviewsAgree(ss: seq<State>, id: ApprovalId, i: nat)
    requires History(ss) && i < |ss|
    requires forall j :: 0 <= j < |ss| ==> |UnderWay(ss[j], id)| <= 1
    ensures SerialAgree(ss[i], id) && Agree(ss[i], id)
  {
    AlwaysSound(ss, id, i);
    if i > 0 {
      SerialReviewsAgree(ss, id, i - 1);
      AlwaysSound(ss, id, i - 1);
      var step := StepInto(ss, i);
      StepKeepsSerialAgree(ss[i - 1], id, step);
    }
  }
}
