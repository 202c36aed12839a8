/**
 * The append-only receipt ledger (engine/receipt.ts), reading it back (routes/receipts.ts),
 * and the three link checkers (routes/case-file.ts, routes/audit.ts, scripts/verify-case-file.ts).
 */
module Ledger {
  import opened Common
  import opened ReceiptChain

  datatype Row = Row(
    id: string,
    toolCallId: string,
    agentPubkey: string,
    toolName: string,
    riskTier: string,
    policyDecision: string,
    policyRuleId: Option<string>,
    approvalDecision: Option<string>,
    approver: Option<string>,
    executionSummary: Option<string>,
    decisionTrail: string,
    chainPrev: Option<string>,
    timestamp: string,
    hash: string,
    signature: string,
    createdAt: int)

  /** What the caller supplies for a new receipt. */
  datatype Input = Input(
    toolCallId: string,
    agentPubkey: string,
    toolName: string,
    riskTier: string,
    policyDecision: string,
    policyRuleId: Option<string>,
    approvalDecision: Option<string>,
    approver: Option<string>,
    executionSummary: Option<ExecutionSummary>,
    decisionTrail: DecisionTrail)

  /** JSON text of the two structured columns. */
  datatype Json = Json(
    printSummary: ExecutionSummary -> string,
    parseSummary: string -> ExecutionSummary,
    printTrail: DecisionTrail -> string,
    parseTrail: string -> DecisionTrail)

  ghost predicate JsonSound(json: Json) {
    && (forall e :: json.parseSummary(json.printSummary(e)) == e && json.printSummary(e) != "")
    && (forall t :: json.parseTrail(json.printTrail(t)) == t)
  }

  ghost predicate SignatureSound(c: Crypto) {
    forall h :: c.verify(h, c.sign(h))
  }

  datatype LedgerError = DuplicateToolCall | DuplicateHash | NotFound

  /** An empty column text reads as no summary. */
  function ToReceiptDomain(json: Json, row: Row): Receipt {
    Receipt(row.id, row.toolCallId, row.agentPubkey, row.toolName, row.riskTier, row.policyDecision,
            row.policyRuleId, row.approvalDecision, row.approver,
            if row.executionSummary.Some? && row.executionSummary.value != ""
            then Some(json.parseSummary(row.executionSummary.value)) else None,
            json.parseTrail(row.decisionTrail),
            row.chainPrev, row.timestamp, row.hash, row.signature, row.createdAt)
  }

  function ReadBack(json: Json, rows: seq<Row>): (receipts: seq<Receipt>)
    ensures |receipts| == |rows|
    ensures forall i :: 0 <= i < |rows| ==> receipts[i] == ToReceiptDomain(json, rows[i])
  {
    seq(|rows|, i requires 0 <= i < |rows| => ToReceiptDomain(json, rows[i]))
  }

  /** `findFirst ... orderBy createdAt desc`. */
  function Latest(rows: seq<Row>): Option<Row> {
    if rows == [] then None
    else
      var last, earlier := rows[|rows| - 1], Latest(rows[..|rows| - 1]);
      if earlier.Some? && earlier.value.createdAt > last.createdAt then earlier else Some(last)
  }

  /** It is a newest row of whatever ledger, whether or not the rows are in order. */
  lemma {:induction false} LatestIsNewest(rows: seq<Row>)
    ensures Latest(rows).None? <==> rows == []
    ensures Latest(rows).Some? ==>
              Latest(rows).value in rows && forall row :: row in rows ==> row.createdAt <= Latest(rows).value.createdAt
  {
    if rows != [] {
      var init, last := rows[..|rows| - 1], rows[|rows| - 1];
      LatestIsNewest(init);
      assert forall row :: row in rows <==> row in init || row == last;
    }
  }

  predicate InOrder(rows: seq<Row>) {
    forall i, j :: 0 <= i < j < |rows| ==> rows[i].createdAt < rows[j].createdAt
  }

  lemma {:induction false} LatestIsLast(rows: seq<Row>)
    requires InOrder(rows)
    ensures Latest(rows) == if rows == [] then None else Some(rows[|rows| - 1])
  {
    if rows != [] {
      LatestIsLast(rows[..|rows| - 1]);
    }
  }

  /** Unique columns. */
  predicate Unique(rows: seq<Row>) {
    forall i, j :: 0 <= i < j < |rows| ==> rows[i].hash != rows[j].hash && rows[i].toolCallId != rows[j].toolCallId
  }

  /** Each row points at the one before it, and is stored under its own hash. */
  predicate Chained(rows: seq<Row>) {
    forall i :: 0 <= i < |rows| ==> ChainedAt(rows, i)
  }

  predicate ChainedAt(rows: seq<Row>, i: nat)
    requires i < |rows|
  {
    && rows[i].id == rows[i].hash
    && rows[i].chainPrev == if i == 0 then None else Some(rows[i - 1].hash)
  }

  ghost predicate Verified(c: Crypto, json: Json, rows: seq<Row>) {
    forall row :: row in rows ==> VerifyReceipt(c, ToReceiptDomain(json, row))
  }

  /** What every ledger grown by `CreateReceipt` satisfies. */
  ghost predicate Honest(c: Crypto, json: Json, rows: seq<Row>) {
    InOrder(rows) && Unique(rows) && Chained(rows) && Verified(c, json, rows)
  }

  lemma AppendStaysHonest(c: Crypto, json: Json, rows: seq<Row>, row: Row)
    requires Honest(c, json, rows)
    requires forall other :: other in rows ==>
               other.createdAt < row.createdAt && other.hash != row.hash && other.toolCallId != row.toolCallId
    requires row.id == row.hash && row.chainPrev == if rows == [] then None else Some(rows[|rows| - 1].hash)
    requires VerifyReceipt(c, ToReceiptDomain(json, row))
    ensures Honest(c, json, rows + [row])
  {
    var rows' := rows + [row];
    forall i, j | 0 <= i < j < |rows'|
      ensures rows'[i].createdAt < rows'[j].createdAt
      ensures rows'[i].hash != rows'[j].hash && rows'[i].toolCallId != rows'[j].toolCallId
    {
      assert rows'[i] == rows[i] && rows[i] in rows;
    }
    forall i | 0 <= i < |rows'| ensures ChainedAt(rows', i) {
      assert i < |rows| ==> ChainedAt(rows, i) && rows'[i] == rows[i];
    }
    forall other | other in rows' ensures VerifyReceipt(c, ToReceiptDomain(json, other)) {
      assert other in rows || other == row;
    }
  }

  /** The row that is stored for a signed body; the identifier is the hash. */
  function RowOf(c: Crypto, json: Json, body: Body, createdAt: int): (row: Row)
    ensures row.id == row.hash == c.digest(body) && row.chainPrev == body.chainPrev
    ensures row.toolCallId == body.toolCallId && row.createdAt == createdAt
  {
    var hash := c.digest(body);
    Row(hash, body.toolCallId, body.agentPubkey, body.toolName, body.riskTier, body.policyDecision,
        body.policyRuleId, body.approvalDecision, body.approver,
        if body.executionSummary.Some? then Some(json.printSummary(body.executionSummary.value)) else None,
        json.printTrail(body.decisionTrail), body.chainPrev, body.timestamp, hash, c.sign(hash), createdAt)
  }

  /** Read back from its columns, the stored row is a verified receipt of the same body. */
  lemma RowReadsBack(c: Crypto, json: Json, body: Body, createdAt: int)
    requires JsonSound(json) && SignatureSound(c)
    ensures ReceiptBody(ToReceiptDomain(json, RowOf(c, json, body, createdAt))) == body
    ensures VerifyReceipt(c, ToReceiptDomain(json, RowOf(c, json, body, createdAt)))
  {
    var receipt := ToReceiptDomain(json, RowOf(c, json, body, createdAt));
    assert receipt.executionSummary == body.executionSummary && receipt.decisionTrail == body.decisionTrail;
  }

  /** With a row of that hash in the ledger, either the bodies are equal or they collide. */
  lemma EqualHashMeansCollision(c: Crypto, json: Json, rows: seq<Row>, body: Body, row: Row)
    requires Honest(c, json, rows) && row in rows
    requires row.toolCallId != body.toolCallId
    ensures row.hash == c.digest(body) <==> Collide(c, ReceiptBody(ToReceiptDomain(json, row)), body)
  {
    assert VerifyReceipt(c, ToReceiptDomain(json, row));
  }

  class Ledger {
    var rows: seq<Row>
    const crypto: Crypto
    const json: Json

    constructor (crypto: Crypto, json: Json)
      ensures Valid() && rows == [] && this.crypto == crypto && this.json == json
    {
      rows := [];
      this.crypto := crypto;
      this.json := json;
    }

    ghost predicate Valid()
      reads this
    {
      Honest(crypto, json, rows)
    }

    /** The row holds a different body with the same digest. */
    predicate CollidesWith(row: Row, body: Body) {
      Collide(crypto, ReceiptBody(ToReceiptDomain(json, row)), body)
    }

    /**
     * One serializable append. It fails exactly on a second receipt for a tool call, and on a
     * body whose digest is that of a different body already in the ledger.
     */
    method CreateReceipt(data: Input, timestamp: string, createdAt: int)
      returns (r: Result<string, LedgerError>)
      requires Valid() && JsonSound(json) && SignatureSound(crypto)
      requires forall row :: row in rows ==> row.createdAt < createdAt
      modifies this
      ensures Valid()
      ensures r.Err? ==> rows == old(rows)
      ensures r == Err(DuplicateToolCall) <==> exists row :: row in old(rows) && row.toolCallId == data.toolCallId
      ensures r == Err(DuplicateHash) <==>
                && (forall row :: row in old(rows) ==> row.toolCallId != data.toolCallId)
                && exists row :: row in old(rows) && CollidesWith(row, BodyOf(data, old(rows), timestamp))
      ensures r.Err? ==> r.error == DuplicateToolCall || r.error == DuplicateHash
      ensures r.Ok? ==>
                && |rows| == |old(rows)| + 1 && rows[..|old(rows)|] == old(rows)
                && rows[|old(rows)|].hash == r.value && rows[|old(rows)|].createdAt == createdAt
                && ReceiptBody(ToReceiptDomain(json, rows[|old(rows)|])) == BodyOf(data, old(rows), timestamp)
      ensures r.Ok? ==>
                var n, row := |old(rows)|, rows[|old(rows)|];
                var prev := if n == 0 then None else Some(old(rows)[n - 1].hash);
                && row.toolCallId == data.toolCallId && row.agentPubkey == data.agentPubkey
                && row.toolName == data.toolName && row.riskTier == data.riskTier
                && row.policyDecision == data.policyDecision && row.policyRuleId == data.policyRuleId
                && row.approvalDecision == data.approvalDecision && row.approver == data.approver
                && row.chainPrev == prev && row.timestamp == timestamp && row.createdAt == createdAt
                && row.id == row.hash && row.signature == crypto.sign(row.hash)
                && row.hash == crypto.digest(Body(
                     data.toolCallId, data.agentPubkey, data.toolName, data.riskTier, data.policyDecision,
                     data.policyRuleId, data.approvalDecision, data.approver, data.executionSummary, data.decisionTrail,
                     prev, timestamp))
    {
      LatestIsLast(rows);
      var last := Latest(rows);
      var chainPrev := if last.Some? then Some(last.value.hash) else None;
      var body := Body(data.toolCallId, data.agentPubkey, data.toolName, data.riskTier, data.policyDecision,
                       data.policyRuleId, data.approvalDecision, data.approver, data.executionSummary,
                       data.decisionTrail, chainPrev, timestamp);
      assert body == BodyOf(data, rows, timestamp);
      var row := RowOf(crypto, json, body, createdAt);
      if exists other :: other in rows && other.toolCallId == data.toolCallId {
        return Err(DuplicateToolCall);
      }
      forall other | other in rows ensures other.hash == row.hash <==> CollidesWith(other, body) {
        EqualHashMeansCollision(crypto, json, rows, body, other);
      }
      if exists other :: other in rows && other.hash == row.hash {
        return Err(DuplicateHash);
      }
      RowReadsBack(crypto, json, body, createdAt);
      AppendStaysHonest(crypto, json, rows, row);
      rows := rows + [row];
      return Ok(row.hash);
    }

    method FindByHash(hash: string) returns (r: Option<Row>)
      requires Valid()
      ensures r.None? <==> !HasHash(rows, hash)
      ensures forall i :: 0 <= i < |rows| && rows[i].hash == hash ==> r == Some(rows[i])
    {
      if exists row :: row in rows && row.hash == hash {
        var row :| row in rows && row.hash == hash;
        return Some(row);
      }
      return None;
    }

    /** The creation-time bounds a range request asks for. */
    method RangeBounds(from: Option<string>, to: Option<string>)
      returns (r: Result<(Option<int>, Option<int>), LedgerError>)
      requires Valid()
      ensures r.Err? <==> !((Given(from) ==> HasHash(rows, from.value)) && (Given(to) ==> HasHash(rows, to.value)))
      ensures r.Err? ==> r.error == NotFound
      ensures r.Ok? ==> BoundOf(rows, from, r.value.0) && BoundOf(rows, to, r.value.1)
    {
      var lo, hi: Option<int> := None, None;
      if Given(from) {
        var fromReceipt := FindByHash(from.value);
        if fromReceipt.None? {
          return Err(NotFound);
        }
        lo := Some(fromReceipt.value.createdAt);
      }
      if Given(to) {
        var toReceipt := FindByHash(to.value);
        if toReceipt.None? {
          return Err(NotFound);
        }
        hi := Some(toReceipt.value.createdAt);
      }
      return Ok((lo, hi));
    }

    /**
     * GET /api/receipts/chain/verify. On an honest ledger the answer is always "valid",
     * for the rows of the requested range.
     */
    method VerifySegment(from: Option<string>, to: Option<string>) returns (r: Result<(bool, nat), LedgerError>)
      requires Valid()
      ensures r.Err? <==> !((Given(from) ==> HasHash(rows, from.value)) && (Given(to) ==> HasHash(rows, to.value)))
      ensures r.Err? ==> r.error == NotFound
      ensures r.Ok? ==> r.value.0
      ensures r.Ok? ==> SegmentCount(rows, from, to, r.value.1)
    {
      var bounds := RangeBounds(from, to);
      if bounds.Err? {
        return Err(bounds.error);
      }
      var (lo, hi) := bounds.value;
      var selected := InRange(rows, lo, hi);
      ghost var a, b := RangeIsSegment(rows, lo, hi);
      assert |selected| == b - a;
      CountOfBounds(rows, from, to, lo, hi, b - a);
      SegmentVerifies(crypto, json, rows, a, b);
      if selected == [] {
        return Ok((true, 0));
      }
      var receipts := ReadBack(json, selected);
      var valid, brokenAt := VerifyChain(crypto, receipts);
      return Ok((valid, |receipts|));
    }
  }

  /** The query parameter is given and is this row's hash. */
  predicate Names(query: Option<string>, row: Row) {
    Given(query) && query.value == row.hash
  }

  /** The creation time that a query parameter stands for. */
  predicate BoundOf(rows: seq<Row>, query: Option<string>, bound: Option<int>) {
    && (Given(query) <==> bound != None)
    && forall i :: 0 <= i < |rows| && Names(query, rows[i]) ==> bound == Some(rows[i].createdAt)
  }

  /** How many rows lie between the named ends, inclusive; an end that is not given is open. */
  predicate SegmentCount(rows: seq<Row>, from: Option<string>, to: Option<string>, count: nat) {
    && (!Given(from) && !Given(to) ==> count == |rows|)
    && (forall i :: 0 <= i < |rows| && Names(from, rows[i]) && !Given(to) ==> count == |rows| - i)
    && (forall j :: 0 <= j < |rows| && !Given(from) && Names(to, rows[j]) ==> count == j + 1)
    && (forall i, j :: 0 <= i < |rows| && 0 <= j < |rows| && Names(from, rows[i]) && Names(to, rows[j]) ==>
          count == Max(0, j - i + 1))
  }

  lemma CountOfBounds(rows: seq<Row>, from: Option<string>, to: Option<string>,
                      lo: Option<int>, hi: Option<int>, count: nat)
    requires BoundOf(rows, from, lo) && BoundOf(rows, to, hi) && RangeCount(rows, lo, hi, count)
    ensures SegmentCount(rows, from, to, count)
  {
  }

  predicate HasHash(rows: seq<Row>, hash: string) {
    exists row :: row in rows && row.hash == hash
  }

  /** The body a new receipt commits to: the caller's data, linked to the last row. */
  function BodyOf(data: Input, rows: seq<Row>, timestamp: string): Body {
    Body(data.toolCallId, data.agentPubkey, data.toolName, data.riskTier, data.policyDecision,
         data.policyRuleId, data.approvalDecision, data.approver, data.executionSummary, data.decisionTrail,
         if rows == [] then None else Some(rows[|rows| - 1].hash), timestamp)
  }

  /** Every contiguous segment of an honest ledger, read back, is a chain. */
  lemma SegmentVerifies(c: Crypto, json: Json, rows: seq<Row>, a: nat, b: nat)
    requires Honest(c, json, rows) && a <= b <= |rows|
    ensures ChainOk(c, ReadBack(json, rows[a..b]))
  {
    var receipts := ReadBack(json, rows[a..b]);
    forall i | 0 <= i < |receipts|
      ensures VerifyReceipt(c, receipts[i])
      ensures i > 0 ==> receipts[i].chainPrev == Some(receipts[i - 1].hash)
    {
      assert receipts[i] == ToReceiptDomain(json, rows[a + i]) && rows[a + i] in rows;
      assert ChainedAt(rows, a + i);
    }
  }

  predicate InBounds(row: Row, lo: Option<int>, hi: Option<int>) {
    (lo.Some? ==> lo.value <= row.createdAt) && (hi.Some? ==> row.createdAt <= hi.value)
  }

  /** `where createdAt >= lo and <= hi`, in creation order. */
  function InRange(rows: seq<Row>, lo: Option<int>, hi: Option<int>): seq<Row> {
    if rows == [] then []
    else
      var earlier := InRange(rows[..|rows| - 1], lo, hi);
      if InBounds(rows[|rows| - 1], lo, hi) then earlier + [rows[|rows| - 1]] else earlier
  }

  lemma BetweenInBounds(rows: seq<Row>, lo: Option<int>, hi: Option<int>)
    requires InOrder(rows)
    ensures forall i, j, k :: 0 <= i < j < k < |rows| && InBounds(rows[i], lo, hi) && InBounds(rows[k], lo, hi) ==>
              InBounds(rows[j], lo, hi)
  {
    forall i, j, k | 0 <= i < j < k < |rows| && InBounds(rows[i], lo, hi) && InBounds(rows[k], lo, hi)
      ensures InBounds(rows[j], lo, hi)
    {
      assert rows[i].createdAt < rows[j].createdAt < rows[k].createdAt;
    }
  }

  /** The rows within bounds form one block of positions. */
  lemma {:induction false} BoundsCutABlock(rows: seq<Row>, lo: Option<int>, hi: Option<int>)
    returns (a: nat, b: nat)
    requires InOrder(rows)
    ensures a <= b <= |rows|
    ensures forall i :: 0 <= i < |rows| ==> (a <= i < b <==> InBounds(rows[i], lo, hi))
  {
    if rows == [] {
      return 0, 0;
    }
    var n := |rows| - 1;
    var init := rows[..n];
    a, b := BoundsCutABlock(init, lo, hi);
    assert forall i :: 0 <= i < n ==> init[i] == rows[i];
    if InBounds(rows[n], lo, hi) {
      if a == b {
        a, b := n, n + 1;
      } else {
        assert InBounds(rows[b - 1], lo, hi);
        assert b < n ==> !InBounds(rows[b], lo, hi);
        BetweenInBounds(rows, lo, hi);
        b := n + 1;
      }
    }
  }

  lemma SliceOfPrefix(rows: seq<Row>, a: nat, b: nat)
    requires a <= b <= |rows| && rows != []
    ensures var n := |rows| - 1;
            rows[a..b] == if a <= n < b then rows[..n][Min(a, n)..Min(b, n)] + [rows[n]]
                          else rows[..n][Min(a, n)..Min(b, n)]
  {
  }

  lemma {:induction false} InRangeIsBlock(rows: seq<Row>, lo: Option<int>, hi: Option<int>, a: nat, b: nat)
    requires a <= b <= |rows|
    requires forall i :: 0 <= i < |rows| ==> (a <= i < b <==> InBounds(rows[i], lo, hi))
    ensures InRange(rows, lo, hi) == rows[a..b]
  {
    if rows != [] {
      var n := |rows| - 1;
      var a', b' := Min(a, n), Min(b, n);
      InRangeIsBlock(rows[..n], lo, hi, a', b');
      assert InBounds(rows[n], lo, hi) <==> a <= n < b;
      SliceOfPrefix(rows, a, b);
    }
  }

  /** The number of rows a range selects, from the positions of the rows that name its ends. */
  predicate RangeCount(rows: seq<Row>, lo: Option<int>, hi: Option<int>, count: nat) {
    && (lo == None && hi == None ==> count == |rows|)
    && (forall i :: 0 <= i < |rows| && lo == Some(rows[i].createdAt) && hi == None ==> count == |rows| - i)
    && (forall j :: 0 <= j < |rows| && lo == None && hi == Some(rows[j].createdAt) ==> count == j + 1)
    && (forall i, j :: 0 <= i < |rows| && 0 <= j < |rows|
                       && lo == Some(rows[i].createdAt) && hi == Some(rows[j].createdAt) ==>
          count == Max(0, j - i + 1))
  }

  /** A range of creation times selects one contiguous block. */
  lemma RangeIsSegment(rows: seq<Row>, lo: Option<int>, hi: Option<int>)
    returns (a: nat, b: nat)
    requires InOrder(rows)
    ensures a <= b <= |rows| && InRange(rows, lo, hi) == rows[a..b]
    ensures forall i :: 0 <= i < |rows| ==> (a <= i < b <==> InBounds(rows[i], lo, hi))
    ensures forall i, j :: 0 <= i <= j < |rows| && lo == Some(rows[i].createdAt) && hi == Some(rows[j].createdAt) ==>
              a == i && b == j + 1
    ensures RangeCount(rows, lo, hi, b - a)
  {
    a, b := BoundsCutABlock(rows, lo, hi);
    InRangeIsBlock(rows, lo, hi, a, b);
    BlockCount(rows, lo, hi, a, b);
  }

  lemma BlockCount(rows: seq<Row>, lo: Option<int>, hi: Option<int>, a: nat, b: nat)
    requires InOrder(rows) && a <= b <= |rows|
    requires forall i :: 0 <= i < |rows| ==> (a <= i < b <==> InBounds(rows[i], lo, hi))
    ensures forall i, j :: 0 <= i <= j < |rows| && lo == Some(rows[i].createdAt) && hi == Some(rows[j].createdAt) ==>
              a == i && b == j + 1
    ensures RangeCount(rows, lo, hi, b - a)
  {
    assert a < b ==> InBounds(rows[a], lo, hi);
    if rows != [] && lo == None && hi == None {
      assert InBounds(rows[0], lo, hi) && InBounds(rows[|rows| - 1], lo, hi);
    }
    forall i | 0 <= i < |rows| && lo == Some(rows[i].createdAt) && hi == None ensures a == i && b == |rows| {
      assert InBounds(rows[i], lo, hi) && InBounds(rows[|rows| - 1], lo, hi) && InBounds(rows[a], lo, hi);
    }
    forall j | 0 <= j < |rows| && lo == None && hi == Some(rows[j].createdAt) ensures a == 0 && b == j + 1 {
      assert InBounds(rows[0], lo, hi) && InBounds(rows[j], lo, hi) && InBounds(rows[b - 1], lo, hi);
    }
    forall i, j | 0 <= i < |rows| && 0 <= j < |rows| && lo == Some(rows[i].createdAt) && hi == Some(rows[j].createdAt)
      ensures (i <= j ==> a == i && b == j + 1) && (i > j ==> a == b)
    {
      if i <= j {
        assert InBounds(rows[i], lo, hi) && InBounds(rows[j], lo, hi);
        assert InBounds(rows[a], lo, hi) && InBounds(rows[b - 1], lo, hi);
      } else {
        assert rows[j].createdAt < rows[i].createdAt;
      }
    }
  }

  // ---- The link checkers ----

  /** The columns the link checkers look at. */
  datatype Link = Link(id: string, hash: string, chainPrev: Option<string>)

  function LinkOf(row: Row): Link {
    Link(row.id, row.hash, row.chainPrev)
  }

  predicate Broken(links: seq<Link>, i: int)
    requires 0 < i < |links|
  {
    links[i].chainPrev != Some(links[i - 1].hash)
  }

  predicate Linked(links: seq<Link>) {
    forall i :: 0 < i < |links| ==> !Broken(links, i)
  }

  /** `verifyReceiptChain` of the case-file export. */
  method VerifyReceiptChain(links: seq<Link>) returns (ok: bool)
    ensures ok <==> Linked(links)
  {
    var i := 1;
    while i < |links|
      invariant 1 <= i
      invariant forall k :: 0 < k < i && k < |links| ==> !Broken(links, k)
    {
      if links[i].chainPrev != Some(links[i - 1].hash) {
        assert Broken(links, i);
        return false;
      }
      i := i + 1;
    }
    return true;
  }

  /** The receipt check of the stand-alone verifier also reports the first broken index. */
  method VerifyCaseFileChain(links: seq<Link>) returns (chainValid: bool, brokenAt: int)
    ensures chainValid <==> Linked(links)
    ensures chainValid ==> brokenAt == -1
    ensures !chainValid ==> 0 < brokenAt < |links| && Broken(links, brokenAt)
                            && forall k :: 0 < k < brokenAt ==> !Broken(links, k)
  {
    chainValid, brokenAt := true, -1;
    var i := 1;
    while i < |links|
      invariant 1 <= i
      invariant forall k :: 0 < k < i && k < |links| ==> !Broken(links, k)
      invariant chainValid && brokenAt == -1
    {
      if links[i].chainPrev != Some(links[i - 1].hash) {
        assert Broken(links, i);
        return false, i;
      }
      i := i + 1;
    }
  }

  datatype Gap = Gap(index: nat, receiptId: string, expected: string, actual: Option<string>)

  function GapAt(links: seq<Link>, i: nat): Gap
    requires 0 < i < |links|
  {
    Gap(i, links[i].id, links[i - 1].hash, links[i].chainPrev)
  }

  /** The gaps among the first `n` links. */
  function GapsUpTo(links: seq<Link>, n: nat): seq<Gap>
    requires n <= |links|
  {
    if n <= 1 then []
    else GapsUpTo(links, n - 1) + if Broken(links, n - 1) then [GapAt(links, n - 1)] else []
  }

  /** The chain-integrity loop of the audit routes. */
  method FindGaps(links: seq<Link>) returns (valid: bool, gaps: seq<Gap>)
    ensures gaps == GapsUpTo(links, |links|)
    ensures valid <==> gaps == []
  {
    valid, gaps := true, [];
    var i := 1;
    while i < |links|
      invariant 1 <= i
      invariant |links| > 0 ==> i <= |links|
      invariant gaps == GapsUpTo(links, Min(i, |links|))
      invariant valid <==> gaps == []
    {
      var current, previous := links[i], links[i - 1];
      if current.chainPrev != Some(previous.hash) {
        valid := false;
        gaps := gaps + [Gap(i, current.id, previous.hash, current.chainPrev)];
      }
      i := i + 1;
    }
  }

  lemma {:induction false} GapsAreBrokenAndOrdered(links: seq<Link>, n: nat)
    requires n <= |links|
    ensures forall g :: g in GapsUpTo(links, n) ==>
              0 < g.index < n && g == GapAt(links, g.index) && Broken(links, g.index)
    ensures forall a, b :: 0 <= a < b < |GapsUpTo(links, n)| ==>
              GapsUpTo(links, n)[a].index < GapsUpTo(links, n)[b].index
  {
    if n > 1 {
      GapsAreBrokenAndOrdered(links, n - 1);
      var gaps0 := GapsUpTo(links, n - 1);
      assert forall a :: 0 <= a < |gaps0| ==> gaps0[a] in gaps0;
    }
  }

  lemma {:induction false} BrokenLinkIsListed(links: seq<Link>, n: nat, i: nat)
    requires 0 < i < n <= |links| && Broken(links, i)
    ensures GapAt(links, i) in GapsUpTo(links, n)
  {
    if i < n - 1 {
      BrokenLinkIsListed(links, n - 1, i);
    }
  }

  /**
   * The report lists every broken link exactly once, in order, and lists none exactly when
   * the two other checkers answer "intact".
   */
  lemma GapsAreTheBrokenLinks(links: seq<Link>)
    ensures var gaps := GapsUpTo(links, |links|);
            && (forall i :: 0 < i < |links| ==> (Broken(links, i) <==> GapAt(links, i) in gaps))
            && (forall a, b :: 0 <= a < b < |gaps| ==> gaps[a].index < gaps[b].index)
            && (forall g :: g in gaps ==> 0 < g.index < |links| && g == GapAt(links, g.index))
            && (gaps == [] <==> Linked(links))
  {
    GapsAreBrokenAndOrdered(links, |links|);
    var gaps := GapsUpTo(links, |links|);
    forall i | 0 < i < |links| && Broken(links, i)
      ensures GapAt(links, i) in gaps
    {
      BrokenLinkIsListed(links, |links|, i);
    }
    if gaps != [] {
      assert gaps[0] in gaps;
    }
  }

  /** Positions of a time-ordered selection from the ledger. */
  predicate Selection(rows: seq<Row>, picks: seq<nat>) {
    && (forall i :: 0 <= i < |picks| ==> picks[i] < |rows|)
    && (forall i, j :: 0 <= i < j < |picks| ==> picks[i] < picks[j])
  }

  predicate OneBlock(picks: seq<nat>) {
    forall i :: 0 < i < |picks| ==> picks[i] == picks[i - 1] + 1
  }

  function LinksAt(rows: seq<Row>, picks: seq<nat>): (links: seq<Link>)
    requires Selection(rows, picks)
    ensures |links| == |picks|
    ensures forall i :: 0 <= i < |picks| ==> links[i] == LinkOf(rows[picks[i]])
  {
    seq(|picks|, i requires 0 <= i < |picks| => LinkOf(rows[picks[i]]))
  }

  /**
   * On an honest ledger a link check of a selection (the receipts of one run, say) succeeds
   * exactly when the selection is one contiguous block.
   */
  lemma LinkedIffOneBlock(rows: seq<Row>, picks: seq<nat>)
    requires Unique(rows) && Chained(rows) && Selection(rows, picks)
    ensures Linked(LinksAt(rows, picks)) <==> OneBlock(picks)
  {
    var links := LinksAt(rows, picks);
    forall i | 0 < i < |picks|
      ensures Broken(links, i) <==> picks[i] != picks[i - 1] + 1
    {
      var here, before := picks[i], picks[i - 1];
      assert before < here;
      assert ChainedAt(rows, here) && rows[here].chainPrev == Some(rows[here - 1].hash);
      if before < here - 1 {
        assert rows[before].hash != rows[here - 1].hash;
      }
    }
  }
}
