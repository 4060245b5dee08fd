/** `BroadcastAgent` (agents/broadcast_agent.py): the alert goes to every
    pharmacy of the list, one receipt per successful delivery; follow-ups are
    classified per receipt id. The model call is the total function
    `respond` (the source's `_call_claude` turns every API error into a
    string); the clock is `stamp` / `nowIso`, read once per call. */
module BroadcastAgent {
  import opened Wrappers
  import opened Seqs
  import opened PyValues
  import opened BaseAgent

  /** A pharmacy the loop body gets through: the message can be built and the
      pharmacy has an `id`. */
  function Deliverable(report: Fields): Fields -> bool
  {
    (p: Fields) => CreateMessage(report, p).Success? && "id" in p
  }

  /** The results dictionary of a completed broadcast. */
  datatype BroadcastResult = BroadcastResult(
    drugName: string,
    totalPharmacies: nat,
    deliveries: seq<Delivery>,
    successCount: nat,
    failureCount: nat)

  /** A receipt of this agent: broadcast, with no criteria. */
  ghost predicate Fresh(before: seq<AgentReceipt>, after: seq<AgentReceipt>, stamp: string, nowIso: string)
  {
    AppendedFresh(before, after, stamp, nowIso, "broadcast", None)
  }

  /** The body of the `for pharmacy in pharmacies` loop. A KeyError inside
      the `try` becomes a failed delivery; when the pharmacy has no `name`
      the `except` handler raises KeyError again and the exception leaves
      `send_alert`. */
  function SendOne(a: Agent, report: Fields, p: Fields, respond: Fields -> string, stamp: string, nowIso: string)
    : (out: (Agent, Result<Delivery, PyError>))
    ensures out.1.Failure? <==> "name" !in p
    ensures out.1.Failure? ==> out.1.error == KeyError("name") && out.0 == a
    ensures out.1.Success? ==> out.1.value.pharmacy == p["name"]
    ensures out.1.Success? ==> (out.1.value.Sent? <==> Deliverable(report)(p))
    ensures out.1.Success? && out.1.value.Sent? ==>
      && out.1.value.receiptId == ReceiptId(stamp, |a.receipts|)
      && out.1.value.response == Truncate(respond(p))
      && out.0 == Agent(a.receipts + [NewReceipt(report, p, ReceiptId(stamp, |a.receipts|), nowIso, "broadcast", None)])
    ensures out.1.Success? && !out.1.value.Sent? ==> out.0 == a
  {
    match CreateMessage(report, p)
    case Failure(e) =>
      if "name" in p then (a, Success(FailedDelivery(p["name"], e))) else (a, Failure(KeyError("name")))
    case Success(_) =>
      var response := respond(p);
      var rid := ReceiptId(stamp, |a.receipts|);
      if "id" !in p then (a, Success(FailedDelivery(p["name"], KeyError("id"))))
      else
        var receipt := NewReceipt(report, p, rid, nowIso, "broadcast", None);
        (Agent(a.receipts + [receipt]), Success(Sent(p["name"], rid, Truncate(response), [])))
  }

  /** The loop over the pharmacies, in order. */
  function SendAll(a: Agent, report: Fields, ps: seq<Fields>, respond: Fields -> string, stamp: string, nowIso: string)
    : (out: (Agent, Result<seq<Delivery>, PyError>))
    ensures Fresh(a.receipts, out.0.receipts, stamp, nowIso)
    ensures out.1.Success? <==> forall k :: 0 <= k < |ps| ==> "name" in ps[k]
    ensures out.1.Success? ==> |out.1.value| == |ps|
    ensures out.1.Failure? ==> out.1.error == KeyError("name")
    decreases |ps|
  {
    if ps == [] then (a, Success([]))
    else
      var one := SendOne(a, report, ps[0], respond, stamp, nowIso);
      assert Fresh(a.receipts, one.0.receipts, stamp, nowIso);
      match one.1
      case Failure(e) => (one.0, Failure(e))
      case Success(d) =>
        var rest := SendAll(one.0, report, ps[1..], respond, stamp, nowIso);
        AppendedFreshTrans(a.receipts, one.0.receipts, rest.0.receipts, stamp, nowIso, "broadcast", None);
        assert forall k :: 1 <= k < |ps| ==> ps[k] == ps[1..][k - 1];
        match rest.1
        case Failure(e) => (rest.0, Failure(e))
        case Success(ds) => (rest.0, Success([d] + ds))
  }

  /** A completed loop has one delivery per pharmacy, in order, `Sent`
      exactly for the deliverable ones, and one new receipt per `Sent`. */
  lemma {:induction false} SendAllDeliveries(a: Agent, report: Fields, ps: seq<Fields>, respond: Fields -> string, stamp: string, nowIso: string)
    requires SendAll(a, report, ps, respond, stamp, nowIso).1.Success?
    ensures var out := SendAll(a, report, ps, respond, stamp, nowIso);
      var ds := out.1.value;
      && |ds| == |ps|
      && (forall k :: 0 <= k < |ps| ==> ds[k].pharmacy == ps[k]["name"])
      && (forall k :: 0 <= k < |ps| ==> (ds[k].Sent? <==> Deliverable(report)(ps[k])))
      && |Filter(IsSent, ds)| == |out.0.receipts| - |a.receipts|
    decreases |ps|
  {
    if ps != [] {
      var one := SendOne(a, report, ps[0], respond, stamp, nowIso);
      var d := one.1.value;
      var rest := SendAll(one.0, report, ps[1..], respond, stamp, nowIso);
      SendAllDeliveries(one.0, report, ps[1..], respond, stamp, nowIso);
      var ds := rest.1.value;
      assert SendAll(a, report, ps, respond, stamp, nowIso) == (rest.0, Success([d] + ds));
      assert ([d] + ds)[1..] == ds;
      assert forall k :: 1 <= k < |ps| ==> ps[k] == ps[1..][k - 1];
    }
  }

  /** A completed loop appends exactly the receipts of the deliverable
      pharmacies, in the order of the list. */
  lemma {:induction false} SendAllReceipts(a: Agent, report: Fields, ps: seq<Fields>, respond: Fields -> string, stamp: string, nowIso: string)
    requires SendAll(a, report, ps, respond, stamp, nowIso).1.Success?
    ensures Addressable(report, Filter(Deliverable(report), ps))
    ensures SendAll(a, report, ps, respond, stamp, nowIso).0.receipts
         == a.receipts + FreshReceipts(report, Filter(Deliverable(report), ps), |a.receipts|, stamp, nowIso, "broadcast", None)
    decreases |ps|
  {
    var sent := Filter(Deliverable(report), ps);
    if ps == [] {
      assert a.receipts + FreshReceipts(report, sent, |a.receipts|, stamp, nowIso, "broadcast", None) == a.receipts;
    } else {
      var one := SendOne(a, report, ps[0], respond, stamp, nowIso);
      var rest := SendAll(one.0, report, ps[1..], respond, stamp, nowIso);
      assert SendAll(a, report, ps, respond, stamp, nowIso).0 == rest.0;
      SendAllReceipts(one.0, report, ps[1..], respond, stamp, nowIso);
      var tail := Filter(Deliverable(report), ps[1..]);
      var n := |a.receipts|;
      assert sent == (if Deliverable(report)(ps[0]) then [ps[0]] + tail else tail) by {
        assert [ps[0]] + ps[1..] == ps;
        FilterCons(Deliverable(report), ps[0], ps[1..]);
      }
      if Deliverable(report)(ps[0]) {
        var r0 := NewReceipt(report, ps[0], ReceiptId(stamp, n), nowIso, "broadcast", None);
        var more := FreshReceipts(report, tail, n + 1, stamp, nowIso, "broadcast", None);
        assert one.0.receipts == a.receipts + [r0];
        assert rest.0.receipts == (a.receipts + [r0]) + more;
        FreshReceiptsCons(report, ps[0], tail, n, stamp, nowIso, "broadcast", None);
        AppendAssoc(a.receipts, [r0], more);
      } else {
        assert one.0 == a;
      }
    }
  }

  /** One turn of a completed loop: the first pharmacy's delivery, then the
      rest of the loop from the agent it leaves. */
  lemma SendAllStep(a: Agent, report: Fields, ps: seq<Fields>, respond: Fields -> string, stamp: string, nowIso: string)
    requires SendAll(a, report, ps, respond, stamp, nowIso).1.Success? && ps != []
    ensures var one := SendOne(a, report, ps[0], respond, stamp, nowIso);
      var rest := SendAll(one.0, report, ps[1..], respond, stamp, nowIso);
      && one.1.Success? && rest.1.Success?
      && |one.0.receipts| == |a.receipts| + (if Deliverable(report)(ps[0]) then 1 else 0)
      && SendAll(a, report, ps, respond, stamp, nowIso).0 == rest.0
      && SendAll(a, report, ps, respond, stamp, nowIso).1.value == [one.1.value] + rest.1.value
  {
  }

  /** The first delivery of a completed loop, when `sent`, names the first
      receipt appended. */
  lemma SendAllHeadId(a: Agent, report: Fields, ps: seq<Fields>, respond: Fields -> string, stamp: string, nowIso: string)
    requires SendAll(a, report, ps, respond, stamp, nowIso).1.Success? && ps != []
    ensures var out := SendAll(a, report, ps, respond, stamp, nowIso);
      out.1.value[0].Sent? ==> |a.receipts| < |out.0.receipts| && out.1.value[0].receiptId == out.0.receipts[|a.receipts|].id
  {
    var one := SendOne(a, report, ps[0], respond, stamp, nowIso);
    var rest := SendAll(one.0, report, ps[1..], respond, stamp, nowIso);
    assert SendAll(a, report, ps, respond, stamp, nowIso) == (rest.0, Success([one.1.value] + rest.1.value));
    if one.1.value.Sent? {
      assert rest.0.receipts[..|one.0.receipts|] == one.0.receipts;
      assert rest.0.receipts[|a.receipts|] == one.0.receipts[|a.receipts|];
    }
  }

  /** In a completed loop, the delivery to a deliverable pharmacy names the
      receipt that follows those of the deliverable pharmacies before it. */
  lemma {:induction false} SendAllReceiptIdAt(a: Agent, report: Fields, ps: seq<Fields>, respond: Fields -> string,
                                              stamp: string, nowIso: string, k: nat)
    requires SendAll(a, report, ps, respond, stamp, nowIso).1.Success? && k < |ps|
    ensures |SendAll(a, report, ps, respond, stamp, nowIso).1.value| == |ps|
    ensures var out := SendAll(a, report, ps, respond, stamp, nowIso);
      var j := |a.receipts| + |Filter(Deliverable(report), ps[..k])|;
      out.1.value[k].Sent? ==> j < |out.0.receipts| && out.1.value[k].receiptId == out.0.receipts[j].id
    decreases k
  {
    var j := |a.receipts| + |Filter(Deliverable(report), ps[..k])|;
    if k == 0 {
      assert ps[..k] == [];
      SendAllHeadId(a, report, ps, respond, stamp, nowIso);
    } else {
      SendAllStep(a, report, ps, respond, stamp, nowIso);
      var one := SendOne(a, report, ps[0], respond, stamp, nowIso);
      var rest := SendAll(one.0, report, ps[1..], respond, stamp, nowIso);
      SendAllReceiptIdAt(one.0, report, ps[1..], respond, stamp, nowIso, k - 1);
      FilterPrefixCons(Deliverable(report), ps, k);
      assert j == |one.0.receipts| + |Filter(Deliverable(report), ps[1..][..k - 1])|;
      SentIdShift(one.1.value, rest.1.value, rest.0.receipts, k, j);
    }
  }

  /** In a completed loop, a deliverable pharmacy is sent to, and the
      receipt id its delivery reports names the receipt written for that
      pharmacy: the one after the receipts of the deliverable pharmacies
      before it. */
  lemma SentDeliveryNamesItsReceipt(a: Agent, report: Fields, ps: seq<Fields>, respond: Fields -> string,
                                    stamp: string, nowIso: string, k: nat)
    requires SendAll(a, report, ps, respond, stamp, nowIso).1.Success?
    requires k < |ps| && Deliverable(report)(ps[k])
    ensures |SendAll(a, report, ps, respond, stamp, nowIso).1.value| == |ps|
    ensures var out := SendAll(a, report, ps, respond, stamp, nowIso);
      var j := |a.receipts| + |Filter(Deliverable(report), ps[..k])|;
      && out.1.value[k].Sent? && j < |out.0.receipts|
      && out.1.value[k].receiptId == out.0.receipts[j].id == ReceiptId(stamp, j)
      && out.0.receipts[j] == NewReceipt(report, ps[k], ReceiptId(stamp, j), nowIso, "broadcast", None)
  {
    SendAllDeliveries(a, report, ps, respond, stamp, nowIso);
    SendAllReceipts(a, report, ps, respond, stamp, nowIso);
    FilterPrefixIndex(Deliverable(report), ps, k);
    SendAllReceiptIdAt(a, report, ps, respond, stamp, nowIso, k);
    var out := SendAll(a, report, ps, respond, stamp, nowIso);
    var sent := Filter(Deliverable(report), ps);
    var i := |Filter(Deliverable(report), ps[..k])|;
    var j := |a.receipts| + i;
    assert out.0.receipts[j] == FreshReceipts(report, sent, |a.receipts|, stamp, nowIso, "broadcast", None)[i];
    assert sent[i] == ps[k];
  }

  /** `send_alert`: `drug_report['drug_name']` is read before the loop, so a
      report without it raises before anything is sent. */
  function SendAlert(a: Agent, report: Fields, ps: seq<Fields>, respond: Fields -> string, stamp: string, nowIso: string)
    : (out: AlertOutcome<BroadcastResult>)
    ensures "drug_name" !in report ==> out == AlertOutcome(a, Failure(KeyError("drug_name")))
    ensures Fresh(a.receipts, out.agent.receipts, stamp, nowIso)
    ensures out.result.Success? ==>
      var r := out.result.value;
      && |r.deliveries| == |ps| && r.totalPharmacies == |ps|
      && r.successCount == |Filter(IsSent, r.deliveries)|
      && r.failureCount == |Filter(IsFailedDelivery, r.deliveries)|
      && r.successCount + r.failureCount == |r.deliveries|
      && r.successCount == |out.agent.receipts| - |a.receipts|
    ensures out.result.Success? ==>
      && Addressable(report, Filter(Deliverable(report), ps))
      && out.agent.receipts
         == a.receipts + FreshReceipts(report, Filter(Deliverable(report), ps), |a.receipts|, stamp, nowIso, "broadcast", None)
  {
    match Lookup(report, "drug_name")
    case Failure(e) => AlertOutcome(a, Failure(e))
    case Success(drugName) =>
      var (a', res) := SendAll(a, report, ps, respond, stamp, nowIso);
      match res
      case Failure(e) => AlertOutcome(a', Failure(e))
      case Success(ds) =>
        SendAllDeliveries(a, report, ps, respond, stamp, nowIso);
        SendAllReceipts(a, report, ps, respond, stamp, nowIso);
        var counts := CountDeliveries(ds);
        AlertOutcome(a', Success(BroadcastResult(drugName, |ps|, ds, counts.0, counts.1)))
  }

  /** With every pharmacy named, the call completes, and pharmacy `k` is
      sent to exactly when it is deliverable. */
  lemma SendAlertPerPharmacy(a: Agent, report: Fields, ps: seq<Fields>, respond: Fields -> string, stamp: string, nowIso: string)
    requires "drug_name" in report
    requires forall k :: 0 <= k < |ps| ==> "name" in ps[k]
    ensures var out := SendAlert(a, report, ps, respond, stamp, nowIso);
      && out.result.Success?
      && forall k :: 0 <= k < |ps| ==>
           && out.result.value.deliveries[k].pharmacy == ps[k]["name"]
           && (out.result.value.deliveries[k].Sent? <==> Deliverable(report)(ps[k]))
  {
    SendAllDeliveries(a, report, ps, respond, stamp, nowIso);
  }

  /** A call keeps the receipt ids indexed by position. */
  lemma SendAlertKeepsIdsIndexed(a: Agent, report: Fields, ps: seq<Fields>, respond: Fields -> string, stamp: string, nowIso: string)
    requires IdsIndexed(a) && IsStamp(stamp)
    ensures IdsIndexed(SendAlert(a, report, ps, respond, stamp, nowIso).agent)
  {
    var a' := SendAlert(a, report, ps, respond, stamp, nowIso).agent;
    AppendedFreshKeepsIdsIndexed(a, a', stamp, nowIso, "broadcast", None);
  }

  // ---------------------------------------------------------------------------
  // send_follow_up
  // ---------------------------------------------------------------------------

  datatype FollowUp =
    | FollowUpNotFound(receiptId: string)
    | AlreadyAcknowledged(receiptId: string, pharmacy: string)
    | FollowUpSent(receiptId: string, pharmacy: string)

  /** How one receipt id is handled: looked up with `next(...)`, skipped
      when unknown or acknowledged, followed up otherwise. */
  function Classify(a: Agent, rid: string): (f: FollowUp)
    ensures f.receiptId == rid
    ensures f.FollowUpNotFound? <==> forall k :: 0 <= k < |a.receipts| ==> a.receipts[k].id != rid
    ensures f.AlreadyAcknowledged? <==> TrackDelivery(a, rid).Found? && TrackDelivery(a, rid).receipt.status == "acknowledged"
    ensures f.FollowUpSent? <==> TrackDelivery(a, rid).Found? && TrackDelivery(a, rid).receipt.status != "acknowledged"
  {
    match TrackDelivery(a, rid)
    case NotFound(_) => FollowUpNotFound(rid)
    case Found(r) =>
      if r.status == "acknowledged" then AlreadyAcknowledged(rid, r.pharmacyName)
      else FollowUpSent(rid, r.pharmacyName)
  }

  datatype FollowUpResult = FollowUpResult(followUpsSent: nat, alreadyAcknowledged: nat, notFound: nat, details: seq<FollowUp>)

  predicate IsSentFollowUp(f: FollowUp) { f.FollowUpSent? }
  predicate IsAlreadyAcknowledged(f: FollowUp) { f.AlreadyAcknowledged? }
  predicate IsNotFound(f: FollowUp) { f.FollowUpNotFound? }

  /** The three counters of `send_follow_up` over its details list. */
  function Tally(ds: seq<FollowUp>): (t: (nat, nat, nat))
    ensures t.0 == |Filter(IsSentFollowUp, ds)|
    ensures t.1 == |Filter(IsAlreadyAcknowledged, ds)|
    ensures t.2 == |Filter(IsNotFound, ds)|
    ensures t.0 + t.1 + t.2 == |ds|
  {
    if ds == [] then (0, 0, 0)
    else
      var f := ds[0];
      var rest := Tally(ds[1..]);
      assert ds == [f] + ds[1..];
      FilterCons(IsSentFollowUp, f, ds[1..]);
      FilterCons(IsAlreadyAcknowledged, f, ds[1..]);
      FilterCons(IsNotFound, f, ds[1..]);
      (rest.0 + (if f.FollowUpSent? then 1 else 0),
       rest.1 + (if f.AlreadyAcknowledged? then 1 else 0),
       rest.2 + (if f.FollowUpNotFound? then 1 else 0))
  }

  /** `send_follow_up`: one details entry per id, in order, each counted in
      exactly one of the three counters. The receipt list is only read. */
  function SendFollowUp(a: Agent, ids: seq<string>): (r: FollowUpResult)
    ensures |r.details| == |ids|
    ensures forall k :: 0 <= k < |ids| ==> r.details[k] == Classify(a, ids[k])
    ensures r.followUpsSent == |Filter(IsSentFollowUp, r.details)|
    ensures r.alreadyAcknowledged == |Filter(IsAlreadyAcknowledged, r.details)|
    ensures r.notFound == |Filter(IsNotFound, r.details)|
    ensures r.followUpsSent + r.alreadyAcknowledged + r.notFound == |ids|
  {
    var ds := Map((id: string) => Classify(a, id), ids);
    var t := Tally(ds);
    FollowUpResult(t.0, t.1, t.2, ds)
  }

  /** A `failed` receipt is followed up like a pending one. */
  lemma FailedReceiptGetsFollowUp(a: Agent, ids: seq<string>, k: nat)
    requires k < |ids|
    requires TrackDelivery(a, ids[k]).Found? && TrackDelivery(a, ids[k]).receipt.status == "failed"
    ensures SendFollowUp(a, ids).details[k].FollowUpSent?
  {
  }
}
