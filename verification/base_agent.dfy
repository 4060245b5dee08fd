/** `BaseAgent` (agents/base_agent.py): the receipt list every alert agent
    keeps, and the lookups and counts over it. An agent is the value of its
    `delivery_receipts` list; the clock reading is a parameter (`nowIso` for
    ISO stamps, `stamp` for the `%Y%m%d%H%M%S` stamp of receipt ids). The
    pharmacy and drug-report dictionaries the agents read are maps from
    field name to string, so a missing key raises KeyError exactly where the
    source indexes with `d[key]`. */
module BaseAgent {
  import opened Wrappers
  import opened Seqs
  import opened Text
  import opened PyValues
  import Helpers

  /** A pharmacy or drug-report dictionary as the agents receive it. */
  type Fields = map<string, string>

  /** `d[key]`. */
  function Lookup(d: Fields, key: string): (r: Result<string, PyError>)
    ensures key in d <==> r.Success?
    ensures key in d ==> r.value == d[key]
    ensures key !in d ==> r == Failure(KeyError(key))
  {
    if key in d then Success(d[key]) else Failure(KeyError(key))
  }

  /** `d.get(key, '')`. */
  function GetOrEmpty(d: Fields, key: string): string
  {
    if key in d then d[key] else ""
  }

  /** A value of a targeting criteria dictionary: a string, a list of strings
      or None. */
  datatype Criterion = CStr(s: string) | CList(items: seq<string>) | CNull

  /** The criteria argument of the targeted agent: None or a dictionary. */
  type Criteria = Option<map<string, Criterion>>

  /** One entry of `delivery_receipts`, as the agents build it. Broadcast
      receipts have no `target_criteria` key (None here); targeted ones
      carry the criteria they were sent under. */
  datatype AgentReceipt = AgentReceipt(
    id: string,
    pharmacyId: string,
    pharmacyName: string,
    drugName: string,
    sentAt: string,
    status: string,
    acknowledgedAt: Option<string>,
    agentType: string,
    targetCriteria: Option<Criteria>)

  datatype Agent = Agent(receipts: seq<AgentReceipt>)

  /** The receipt `next(...)` returns: the first one whose id is `rid`. */
  function FindById(rs: seq<AgentReceipt>, rid: string): (r: Option<nat>)
    ensures r.Some? ==> r.value < |rs| && rs[r.value].id == rid
    ensures r.Some? ==> forall k :: 0 <= k < r.value ==> rs[k].id != rid
    ensures r.None? <==> forall k :: 0 <= k < |rs| ==> rs[k].id != rid
  {
    if rs == [] then None
    else if rs[0].id == rid then Some(0)
    else match FindById(rs[1..], rid)
      case None =>
        assert forall k :: 1 <= k < |rs| ==> rs[k] == rs[1..][k - 1];
        None
      case Some(k) => Some(k + 1)
  }

  /** The first receipt with both the receipt id and the pharmacy id. */
  function FindByIdAndPharmacy(rs: seq<AgentReceipt>, rid: string, pid: string): (r: Option<nat>)
    ensures r.Some? ==> r.value < |rs| && rs[r.value].id == rid && rs[r.value].pharmacyId == pid
    ensures r.Some? ==> forall k :: 0 <= k < r.value ==> !(rs[k].id == rid && rs[k].pharmacyId == pid)
    ensures r.None? <==> forall k :: 0 <= k < |rs| ==> !(rs[k].id == rid && rs[k].pharmacyId == pid)
  {
    if rs == [] then None
    else if rs[0].id == rid && rs[0].pharmacyId == pid then Some(0)
    else match FindByIdAndPharmacy(rs[1..], rid, pid)
      case None =>
        assert forall k :: 1 <= k < |rs| ==> rs[k] == rs[1..][k - 1];
        None
      case Some(k) => Some(k + 1)
  }

  // ---------------------------------------------------------------------------
  // track_delivery / process_acknowledgment
  // ---------------------------------------------------------------------------

  datatype Tracking = Found(receipt: AgentReceipt) | NotFound(receiptId: string)

  /** `track_delivery`: the first receipt with the id, if any. */
  function TrackDelivery(a: Agent, rid: string): (t: Tracking)
    ensures t.NotFound? <==> forall k :: 0 <= k < |a.receipts| ==> a.receipts[k].id != rid
    ensures t.Found? ==> t.receipt.id == rid && t.receipt in a.receipts
    ensures t.Found? ==> t.receipt == a.receipts[FindById(a.receipts, rid).value]
  {
    match FindById(a.receipts, rid)
    case None => NotFound(rid)
    case Some(k) => Found(a.receipts[k])
  }

  /** The receipt after an acknowledgment at `nowIso`. */
  function Acknowledge(r: AgentReceipt, nowIso: string): AgentReceipt
  {
    r.(status := "acknowledged", acknowledgedAt := Some(nowIso))
  }

  /** `process_acknowledgment`: the first receipt with both ids becomes
      `acknowledged` with a fresh timestamp (even one acknowledged before);
      the flag says whether one was found. */
  function ProcessAcknowledgment(a: Agent, pid: string, rid: string, nowIso: string): (out: (Agent, bool))
    ensures |out.0.receipts| == |a.receipts|
    ensures out.1 <==> exists k :: 0 <= k < |a.receipts| && a.receipts[k].id == rid && a.receipts[k].pharmacyId == pid
    ensures !out.1 ==> out.0 == a
    ensures out.1 ==>
      var k := FindByIdAndPharmacy(a.receipts, rid, pid).value;
      && out.0.receipts[k] == Acknowledge(a.receipts[k], nowIso)
      && forall j :: 0 <= j < |a.receipts| && j != k ==> out.0.receipts[j] == a.receipts[j]
  {
    match FindByIdAndPharmacy(a.receipts, rid, pid)
    case None => (a, false)
    case Some(k) => (Agent(a.receipts[k := Acknowledge(a.receipts[k], nowIso)]), true)
  }

  /** Acknowledging writes only `status` and `acknowledged_at`: every receipt
      keeps its receipt id, its pharmacy id and every other field, so lookups
      by either id still find a receipt at the same position. */
  lemma AcknowledgmentKeepsIds(a: Agent, pid: string, rid: string, nowIso: string)
    ensures var a' := ProcessAcknowledgment(a, pid, rid, nowIso).0;
      forall k :: 0 <= k < |a.receipts| ==>
        && a'.receipts[k].id == a.receipts[k].id
        && a'.receipts[k].pharmacyId == a.receipts[k].pharmacyId
        && a'.receipts[k] == a.receipts[k].(status := a'.receipts[k].status, acknowledgedAt := a'.receipts[k].acknowledgedAt)
  {
  }

  /** After a successful acknowledgment the receipt `track_delivery` finds
      for that id is acknowledged, provided no earlier receipt shares the id. */
  lemma AcknowledgedIsTracked(a: Agent, pid: string, rid: string, nowIso: string)
    requires FindById(a.receipts, rid) == FindByIdAndPharmacy(a.receipts, rid, pid)
    requires ProcessAcknowledgment(a, pid, rid, nowIso).1
    ensures var t := TrackDelivery(ProcessAcknowledgment(a, pid, rid, nowIso).0, rid);
      t.Found? && t.receipt.status == "acknowledged" && t.receipt.acknowledgedAt == Some(nowIso)
  {
    var k := FindByIdAndPharmacy(a.receipts, rid, pid).value;
    var a' := ProcessAcknowledgment(a, pid, rid, nowIso).0;
    assert forall j :: 0 <= j < k ==> a'.receipts[j].id != rid;
    assert FindById(a'.receipts, rid) == Some(k);
  }

  // ---------------------------------------------------------------------------
  // Status views and statistics
  // ---------------------------------------------------------------------------

  function HasStatus(st: string): AgentReceipt -> bool
  {
    (r: AgentReceipt) => r.status == st
  }

  /** The receipts whose status is `st`: an order-preserving sublist that
      keeps every such receipt as often as the list holds it. Both status
      views of the agent are this list comprehension. */
  function ReceiptsWithStatus(a: Agent, st: string): (rs: seq<AgentReceipt>)
    ensures IsSubsequence(rs, a.receipts)
    ensures forall k :: 0 <= k < |rs| ==> rs[k].status == st
    ensures forall k :: 0 <= k < |a.receipts| && a.receipts[k].status == st ==> a.receipts[k] in rs
    ensures forall x :: multiset(rs)[x] == (if x.status == st then multiset(a.receipts)[x] else 0)
  {
    FilterIsSubsequence(HasStatus(st), a.receipts);
    FilterMultiset(HasStatus(st), a.receipts);
    Filter(HasStatus(st), a.receipts)
  }

  /** `get_pending_receipts`. */
  function GetPendingReceipts(a: Agent): (rs: seq<AgentReceipt>)
    ensures IsSubsequence(rs, a.receipts)
    ensures forall k :: 0 <= k < |rs| ==> rs[k].status == "pending"
    ensures forall k :: 0 <= k < |a.receipts| && a.receipts[k].status == "pending" ==> a.receipts[k] in rs
    ensures forall x :: multiset(rs)[x] == (if x.status == "pending" then multiset(a.receipts)[x] else 0)
  {
    ReceiptsWithStatus(a, "pending")
  }

  /** `get_acknowledged_receipts`. */
  function GetAcknowledgedReceipts(a: Agent): (rs: seq<AgentReceipt>)
    ensures IsSubsequence(rs, a.receipts)
    ensures forall k :: 0 <= k < |rs| ==> rs[k].status == "acknowledged"
    ensures forall k :: 0 <= k < |a.receipts| && a.receipts[k].status == "acknowledged" ==> a.receipts[k] in rs
    ensures forall x :: multiset(rs)[x] == (if x.status == "acknowledged" then multiset(a.receipts)[x] else 0)
  {
    ReceiptsWithStatus(a, "acknowledged")
  }

  /** No receipt is both pending and acknowledged. */
  lemma PendingAndAcknowledgedDisjoint(a: Agent)
    ensures forall x :: x in GetPendingReceipts(a) ==> x !in GetAcknowledgedReceipts(a)
  {
    var p, q := GetPendingReceipts(a), GetAcknowledgedReceipts(a);
    forall x | x in p
      ensures x !in q
    {
      var i :| 0 <= i < |p| && p[i] == x;
      assert x.status == "pending";
    }
  }

  datatype DeliveryStatistics = DeliveryStatistics(totalSent: nat, acknowledged: nat, pending: nat, acknowledgmentRate: real)

  /** `get_delivery_statistics`. */
  function GetDeliveryStatistics(a: Agent): (s: DeliveryStatistics)
    ensures s.totalSent == |a.receipts|
    ensures s.acknowledged == |GetAcknowledgedReceipts(a)| && s.pending == |GetPendingReceipts(a)|
    ensures s.acknowledged + s.pending <= s.totalSent
    ensures s.acknowledgmentRate == Helpers.Percent(s.acknowledged, s.totalSent)
    ensures s.totalSent == 0 ==> s.acknowledgmentRate == 0.0
  {
    FilterDisjoint(HasStatus("acknowledged"), HasStatus("pending"), a.receipts);
    var acknowledged := |GetAcknowledgedReceipts(a)|;
    var pending := |GetPendingReceipts(a)|;
    DeliveryStatistics(|a.receipts|, acknowledged, pending, Helpers.Percent(acknowledged, |a.receipts|))
  }

  // ---------------------------------------------------------------------------
  // Receipt ids
  // ---------------------------------------------------------------------------

  /** A `%Y%m%d%H%M%S` clock stamp: fourteen decimal digits. */
  predicate IsStamp(stamp: string)
  {
    |stamp| == 14 && forall k :: 0 <= k < |stamp| ==> IsAsciiDigit(stamp[k])
  }

  function ReceiptId(stamp: string, count: nat): string
  {
    "RECEIPT-" + stamp + "-" + NatToDecimal(count)
  }

  /** `_generate_receipt_id`: the clock stamp and the number of receipts held. */
  function GenerateReceiptId(a: Agent, stamp: string): (id: string)
    requires IsStamp(stamp)
    ensures |id| > 23 && id[..8] == "RECEIPT-" && id[8..22] == stamp && id[22] == '-'
    ensures forall k :: 23 <= k < |id| ==> IsAsciiDigit(id[k])
    ensures DecimalValue(id[23..]) == |a.receipts|
  {
    var id := ReceiptId(stamp, |a.receipts|);
    assert id[23..] == NatToDecimal(|a.receipts|);
    DecimalRoundTrip(|a.receipts|);
    id
  }

  /** Ids generated at different counts differ, whatever the stamps. */
  lemma ReceiptIdsDiffer(s1: string, n1: nat, s2: string, n2: nat)
    requires IsStamp(s1) && IsStamp(s2) && n1 != n2
    ensures ReceiptId(s1, n1) != ReceiptId(s2, n2)
  {
    var a, b := ReceiptId(s1, n1), ReceiptId(s2, n2);
    assert a[23..] == NatToDecimal(n1);
    assert b[23..] == NatToDecimal(n2);
    DecimalRoundTrip(n1);
    DecimalRoundTrip(n2);
  }

  /** Receipt `k` of the list carries the id generated when `k` receipts
      were held. */
  ghost predicate IdsIndexed(a: Agent)
  {
    forall k :: 0 <= k < |a.receipts| ==> exists stamp :: IsStamp(stamp) && a.receipts[k].id == ReceiptId(stamp, k)
  }

  /** Under that invariant the receipt ids are pairwise distinct. */
  lemma IndexedIdsDistinct(a: Agent)
    requires IdsIndexed(a)
    ensures forall i, j :: 0 <= i < j < |a.receipts| ==> a.receipts[i].id != a.receipts[j].id
  {
    forall i, j | 0 <= i < j < |a.receipts|
      ensures a.receipts[i].id != a.receipts[j].id
    {
      var s1 :| IsStamp(s1) && a.receipts[i].id == ReceiptId(s1, i);
      var s2 :| IsStamp(s2) && a.receipts[j].id == ReceiptId(s2, j);
      ReceiptIdsDiffer(s1, i, s2, j);
    }
  }

  /** Appending a receipt whose id was generated from the current count
      keeps the invariant. */
  lemma AppendKeepsIdsIndexed(a: Agent, r: AgentReceipt, stamp: string)
    requires IdsIndexed(a) && IsStamp(stamp) && r.id == GenerateReceiptId(a, stamp)
    ensures IdsIndexed(Agent(a.receipts + [r]))
  {
    var rs := a.receipts + [r];
    forall k | 0 <= k < |rs|
      ensures exists stamp' :: IsStamp(stamp') && rs[k].id == ReceiptId(stamp', k)
    {
      if k == |a.receipts| {
        assert rs[k].id == ReceiptId(stamp, k);
      } else {
        assert rs[k] == a.receipts[k];
      }
    }
  }

  /** Acknowledging keeps the invariant. */
  lemma AcknowledgmentKeepsIdsIndexed(a: Agent, pid: string, rid: string, nowIso: string)
    requires IdsIndexed(a)
    ensures IdsIndexed(ProcessAcknowledgment(a, pid, rid, nowIso).0)
  {
    var a' := ProcessAcknowledgment(a, pid, rid, nowIso).0;
    forall k | 0 <= k < |a'.receipts|
      ensures exists stamp :: IsStamp(stamp) && a'.receipts[k].id == ReceiptId(stamp, k)
    {
      assert a'.receipts[k].id == a.receipts[k].id;
    }
  }

  // ---------------------------------------------------------------------------
  // Pieces shared by the two agents' send_alert
  // ---------------------------------------------------------------------------

  /** `response[:100] + '...' if len(response) > 100 else response`. */
  function Truncate(response: string): (r: string)
    ensures |response| <= 100 ==> r == response
    ensures |response| > 100 ==> |r| == 103 && r[..100] == response[..100] && r[100..] == "..."
  {
    if |response| > 100 then response[..100] + "..." else response
  }

  /** The KeyError `_create_message` raises, if any: the f-string reads the
      pharmacy's `name` first, then the report's fields in order. */
  function CreateMessage(report: Fields, p: Fields): (r: Result<(), PyError>)
    ensures r.Success? <==> ("name" in p && "drug_name" in report && "alert_type" in report
      && "severity" in report && "description" in report && "action_required" in report)
    ensures "name" !in p ==> r == Failure(KeyError("name"))
  {
    var _ :- Lookup(p, "name");
    var _ :- Lookup(report, "drug_name");
    var _ :- Lookup(report, "alert_type");
    var _ :- Lookup(report, "severity");
    var _ :- Lookup(report, "description");
    var _ :- Lookup(report, "action_required");
    Success(())
  }

  /** One entry of `results['deliveries']`. */
  datatype Delivery =
    | Sent(pharmacy: string, receiptId: string, response: string, matched: seq<string>)
    | FailedDelivery(pharmacy: string, error: PyError)

  predicate IsSent(d: Delivery) { d.Sent? }
  predicate IsFailedDelivery(d: Delivery) { d.FailedDelivery? }

  /** A `sent` delivery of a loop's tail that names receipt `j` still does
      once the head's delivery is put in front. */
  lemma SentIdShift(d: Delivery, rest: seq<Delivery>, rs: seq<AgentReceipt>, k: nat, j: nat)
    requires 1 <= k <= |rest|
    requires rest[k - 1].Sent? ==> j < |rs| && rest[k - 1].receiptId == rs[j].id
    ensures ([d] + rest)[k].Sent? ==> j < |rs| && ([d] + rest)[k].receiptId == rs[j].id
  {
    assert ([d] + rest)[k] == rest[k - 1];
  }

  /** `success_count` and `failure_count`: the deliveries by status. */
  function CountDeliveries(ds: seq<Delivery>): (c: (nat, nat))
    ensures c.0 == |Filter(IsSent, ds)| && c.1 == |Filter(IsFailedDelivery, ds)|
    ensures c.0 + c.1 == |ds|
  {
    FilterSplit(IsSent, IsFailedDelivery, ds);
    (|Filter(IsSent, ds)|, |Filter(IsFailedDelivery, ds)|)
  }

  /** What a `send_alert` call leaves behind: the agent with the receipts
      appended so far (also when an exception escapes), and the results or
      the escaping exception. */
  datatype AlertOutcome<R> = AlertOutcome(agent: Agent, result: Result<R, PyError>)

  /** The receipt appended for pharmacy `p` under receipt id `rid`. */
  function NewReceipt(report: Fields, p: Fields, rid: string, nowIso: string, agentType: string, criteria: Option<Criteria>): AgentReceipt
    requires "id" in p && "name" in p && "drug_name" in report
  {
    AgentReceipt(rid, p["id"], p["name"], report["drug_name"], nowIso, "pending", None, agentType, criteria)
  }

  /** Every pharmacy of `qs` has the keys a receipt is built from. */
  predicate Addressable(report: Fields, qs: seq<Fields>)
  {
    forall k :: 0 <= k < |qs| ==> "id" in qs[k] && "name" in qs[k] && "drug_name" in report
  }

  /** The receipts appended, in order, for the pharmacies `qs` by an agent
      that already holds `start` receipts. */
  function FreshReceipts(report: Fields, qs: seq<Fields>, start: nat, stamp: string, nowIso: string,
                         agentType: string, criteria: Option<Criteria>): (rs: seq<AgentReceipt>)
    requires Addressable(report, qs)
    ensures |rs| == |qs|
    ensures forall i :: 0 <= i < |qs| ==>
      rs[i] == NewReceipt(report, qs[i], ReceiptId(stamp, start + i), nowIso, agentType, criteria)
    decreases |qs|
  {
    if qs == [] then []
    else
      var rest := FreshReceipts(report, qs[1..], start + 1, stamp, nowIso, agentType, criteria);
      assert forall i :: 1 <= i < |qs| ==> qs[i] == qs[1..][i - 1] && start + i == (start + 1) + (i - 1);
      [NewReceipt(report, qs[0], ReceiptId(stamp, start), nowIso, agentType, criteria)] + rest
  }

  /** One step of FreshReceipts on a list written as head and tail. */
  lemma FreshReceiptsCons(report: Fields, q: Fields, qs: seq<Fields>, start: nat, stamp: string, nowIso: string,
                          agentType: string, criteria: Option<Criteria>)
    requires "id" in q && "name" in q && "drug_name" in report
    requires Addressable(report, qs)
    ensures Addressable(report, [q] + qs)
    ensures FreshReceipts(report, [q] + qs, start, stamp, nowIso, agentType, criteria)
         == [NewReceipt(report, q, ReceiptId(stamp, start), nowIso, agentType, criteria)]
            + FreshReceipts(report, qs, start + 1, stamp, nowIso, agentType, criteria)
  {
    assert ([q] + qs)[1..] == qs;
  }

  /** `after` extends `before` by fresh receipts only: pending, never
      acknowledged, of the given agent type and criteria, sent at `nowIso`,
      and numbered by the count held when each was created. */
  ghost predicate AppendedFresh(before: seq<AgentReceipt>, after: seq<AgentReceipt>, stamp: string, nowIso: string,
                                agentType: string, criteria: Option<Criteria>)
  {
    && |before| <= |after| && after[..|before|] == before
    && forall j :: |before| <= j < |after| ==>
         && after[j].status == "pending" && after[j].acknowledgedAt.None?
         && after[j].agentType == agentType && after[j].targetCriteria == criteria
         && after[j].sentAt == nowIso && after[j].id == ReceiptId(stamp, j)
  }

  lemma AppendedFreshTrans(r0: seq<AgentReceipt>, r1: seq<AgentReceipt>, r2: seq<AgentReceipt>, stamp: string, nowIso: string,
                           agentType: string, criteria: Option<Criteria>)
    requires AppendedFresh(r0, r1, stamp, nowIso, agentType, criteria)
    requires AppendedFresh(r1, r2, stamp, nowIso, agentType, criteria)
    ensures AppendedFresh(r0, r2, stamp, nowIso, agentType, criteria)
  {
    assert r2[..|r0|] == r1[..|r1|][..|r0|];
  }

  /** Appending fresh receipts keeps the receipt ids indexed by position. */
  lemma AppendedFreshKeepsIdsIndexed(a: Agent, a': Agent, stamp: string, nowIso: string,
                                     agentType: string, criteria: Option<Criteria>)
    requires IdsIndexed(a) && IsStamp(stamp)
    requires AppendedFresh(a.receipts, a'.receipts, stamp, nowIso, agentType, criteria)
    ensures IdsIndexed(a')
  {
    forall k | 0 <= k < |a'.receipts|
      ensures exists s :: IsStamp(s) && a'.receipts[k].id == ReceiptId(s, k)
    {
      if k < |a.receipts| {
        assert a'.receipts[k] == a'.receipts[..|a.receipts|][k];
      } else {
        assert a'.receipts[k].id == ReceiptId(stamp, k);
      }
    }
  }
}
