/** The delivery log of `DeliveryReceiptManager` (receipt.py): one ordered list
    of receipt records per report, kept in dict insertion order, with the upsert
    `store_receipt`, the two mutators `mark_acknowledged` / `mark_failed`, the
    lookups and `reset`.

    Every operation is a pure function from the manager to a new manager.
    Wall-clock reads become an integer parameter `now` (seconds); ISO
    timestamps become integers. */
module ReceiptStore {
  import opened Wrappers
  import opened Seqs
  import opened Text

  /** `DeliveryStatus`: the five status strings a record can hold. */
  datatype DeliveryStatus = Pending | Delivered | Acknowledged | Failed | Expired

  /** One receipt record, a dict in the source. */
  datatype Record = Record(
    pharmacyId: string,
    reportId: string,
    deliveryTimestamp: int,
    deliveryStatus: DeliveryStatus,
    acknowledgmentTimestamp: Option<int>,
    acknowledgedBy: Option<string>,
    deliveryAttempts: int,
    lastUpdated: int,
    expiresAt: int,
    metadata: map<string, string>)

  /** One key of `delivery_log` with its list of records. */
  datatype Entry = Entry(reportId: string, records: seq<Record>)

  /** The manager's state: `delivery_log` in insertion order, and the
      acknowledgment timeout in seconds. */
  datatype Manager = Manager(log: seq<Entry>, timeout: int)

  const SecondsPerHour := 3600
  const AcknowledgmentNotesKey := "acknowledgment_notes"
  const FailureReasonKey := "failure_reason"

  // ---------------------------------------------------------------------------
  // Invariant kept by every operation
  // ---------------------------------------------------------------------------

  function Keys(log: seq<Entry>): seq<string>
  {
    Map((e: Entry) => e.reportId, log)
  }

  function Pids(rs: seq<Record>): seq<string>
  {
    Map((r: Record) => r.pharmacyId, rs)
  }

  predicate RecordWellFormed(r: Record, rid: string, timeout: int)
  {
    && r.reportId == rid
    && r.deliveryAttempts >= 1
    && r.expiresAt == r.deliveryTimestamp + timeout
  }

  predicate EntryWellFormed(e: Entry, timeout: int)
  {
    && |e.records| > 0
    && Distinct(Pids(e.records))
    && forall j :: 0 <= j < |e.records| ==> RecordWellFormed(e.records[j], e.reportId, timeout)
  }

  /** Report keys are unique, no list is empty, at most one record per
      (report, pharmacy) pair, every record sits under its own report, has at
      least one attempt and expires one timeout after its first delivery. */
  predicate WellFormed(m: Manager)
  {
    && Distinct(Keys(m.log))
    && forall i :: 0 <= i < |m.log| ==> EntryWellFormed(m.log[i], m.timeout)
  }

  // ---------------------------------------------------------------------------
  // Lookups
  // ---------------------------------------------------------------------------

  /** `delivery_log.get(report_id, [])`. */
  function Entries(log: seq<Entry>, rid: string): (rs: seq<Record>)
    ensures rid !in Keys(log) ==> rs == []
    ensures rid in Keys(log) ==> exists i :: 0 <= i < |log| && log[i].reportId == rid && rs == log[i].records
  {
    match IndexOf(Keys(log), rid)
    case None => []
    case Some(i) => log[i].records
  }

  /** The first record of `rs` for pharmacy `pid` (the loop of `_find_receipt`). */
  function FindIn(rs: seq<Record>, pid: string): (r: Option<Record>)
    ensures r.Some? <==> pid in Pids(rs)
    ensures r.Some? ==> r.value.pharmacyId == pid && r.value in rs
  {
    match IndexOf(Pids(rs), pid)
    case None => None
    case Some(j) => Some(rs[j])
  }

  /** `_find_receipt` / `get_receipt`: absence is an ordinary None result. */
  function FindReceipt(log: seq<Entry>, rid: string, pid: string): (r: Option<Record>)
    ensures r.Some? <==> exists j :: 0 <= j < |Entries(log, rid)| && Entries(log, rid)[j].pharmacyId == pid
    ensures r.Some? ==> r.value.pharmacyId == pid && r.value in Entries(log, rid)
  {
    var r := FindIn(Entries(log, rid), pid);
    assert r.Some? ==> pid in Pids(Entries(log, rid));
    r
  }

  /** Where `_find_receipt` finds the record: (entry index, record index). */
  function Locate(log: seq<Entry>, rid: string, pid: string): (loc: Option<(nat, nat)>)
    ensures loc.None? <==> FindReceipt(log, rid, pid).None?
    ensures loc.Some? ==> loc.value.0 < |log| && loc.value.1 < |log[loc.value.0].records|
    ensures loc.Some? ==> IndexOf(Keys(log), rid) == Some(loc.value.0)
    ensures loc.Some? ==> IndexOf(Pids(log[loc.value.0].records), pid) == Some(loc.value.1)
    ensures loc.Some? ==> FindReceipt(log, rid, pid) == Some(log[loc.value.0].records[loc.value.1])
  {
    match IndexOf(Keys(log), rid)
    case None => None
    case Some(i) =>
      match IndexOf(Pids(log[i].records), pid)
      case None => None
      case Some(j) => Some((i, j))
  }

  // ---------------------------------------------------------------------------
  // Primitive edits of the log and what they do to Entries / FindReceipt
  // ---------------------------------------------------------------------------

  function SetRecord(log: seq<Entry>, i: nat, j: nat, rec: Record): seq<Entry>
    requires i < |log| && j < |log[i].records|
  {
    log[i := log[i].(records := log[i].records[j := rec])]
  }

  /** Append `rec` to the list of `rid`, creating the key at the end of the
      dict when absent (`setdefault(report_id, []).append(record)`). */
  function AppendRecord(log: seq<Entry>, rid: string, rec: Record): seq<Entry>
  {
    match IndexOf(Keys(log), rid)
    case Some(i) => log[i := log[i].(records := log[i].records + [rec])]
    case None => log + [Entry(rid, [rec])]
  }

  lemma FindInSet(rs: seq<Record>, j: nat, rec: Record, p: string)
    requires j < |rs| && rs[j].pharmacyId == rec.pharmacyId
    requires IndexOf(Pids(rs), rec.pharmacyId) == Some(j)
    ensures FindIn(rs[j := rec], p) == if p == rec.pharmacyId then Some(rec) else FindIn(rs, p)
  {
    assert Pids(rs[j := rec]) == Pids(rs);
  }

  lemma FindInAppend(rs: seq<Record>, rec: Record, p: string)
    requires rec.pharmacyId !in Pids(rs)
    ensures FindIn(rs + [rec], p) == if p == rec.pharmacyId then Some(rec) else FindIn(rs, p)
  {
    assert Pids(rs + [rec]) == Pids(rs) + [rec.pharmacyId];
    IndexOfAppend(Pids(rs), rec.pharmacyId, p);
  }

  lemma EntriesAfterSet(log: seq<Entry>, i: nat, j: nat, rec: Record, rid: string, r: string)
    requires i < |log| && j < |log[i].records|
    requires IndexOf(Keys(log), rid) == Some(i)
    ensures Keys(SetRecord(log, i, j, rec)) == Keys(log)
    ensures Entries(SetRecord(log, i, j, rec), r) == if r == rid then log[i].records[j := rec] else Entries(log, r)
  {
    assert Keys(SetRecord(log, i, j, rec)) == Keys(log);
  }

  lemma EntriesAfterAppend(log: seq<Entry>, rid: string, rec: Record, r: string)
    ensures Keys(AppendRecord(log, rid, rec)) == if rid in Keys(log) then Keys(log) else Keys(log) + [rid]
    ensures Entries(AppendRecord(log, rid, rec), r) == if r == rid then Entries(log, rid) + [rec] else Entries(log, r)
  {
    var log' := AppendRecord(log, rid, rec);
    match IndexOf(Keys(log), rid)
    case Some(i) =>
      assert Keys(log') == Keys(log);
    case None =>
      assert Keys(log') == Keys(log) + [rid];
      IndexOfAppend(Keys(log), rid, r);
  }

  /** Replacing the located record of (rid, pid) by `rec` (same pharmacy)
      changes that record and nothing else. */
  lemma UpdateLocatedFrame(log: seq<Entry>, rid: string, pid: string, rec: Record, r: string, p: string)
    requires Locate(log, rid, pid).Some? && rec.pharmacyId == pid
    ensures var (i, j) := Locate(log, rid, pid).value;
      && Keys(SetRecord(log, i, j, rec)) == Keys(log)
      && Entries(SetRecord(log, i, j, rec), r) == (if r == rid then Entries(log, rid)[j := rec] else Entries(log, r))
      && FindReceipt(SetRecord(log, i, j, rec), r, p) == (if r == rid && p == pid then Some(rec) else FindReceipt(log, r, p))
  {
    var (i, j) := Locate(log, rid, pid).value;
    EntriesAfterSet(log, i, j, rec, rid, r);
    if r == rid {
      FindInSet(log[i].records, j, rec, p);
    }
  }

  /** Appending a record for a pharmacy the report does not have yet. */
  lemma AppendNewFrame(log: seq<Entry>, rid: string, rec: Record, r: string, p: string)
    requires FindReceipt(log, rid, rec.pharmacyId).None?
    ensures FindReceipt(AppendRecord(log, rid, rec), r, p)
         == (if r == rid && p == rec.pharmacyId then Some(rec) else FindReceipt(log, r, p))
  {
    EntriesAfterAppend(log, rid, rec, r);
    if r == rid {
      FindInAppend(Entries(log, rid), rec, p);
    }
  }

  // ---------------------------------------------------------------------------
  // store_receipt
  // ---------------------------------------------------------------------------

  /** The record created for a pair seen for the first time. */
  function NewRecord(rid: string, pid: string, status: DeliveryStatus, md: map<string, string>, now: int, timeout: int): Record
  {
    Record(pid, rid, now, status, None, None, 1, now, now + timeout, md)
  }

  /** The update applied to an existing record on re-delivery. */
  function Redeliver(prev: Record, status: DeliveryStatus, now: int): Record
  {
    prev.(deliveryStatus := status, lastUpdated := now, deliveryAttempts := prev.deliveryAttempts + 1)
  }

  /** One iteration of the loop in `store_receipt`. */
  function StoreOne(m: Manager, rid: string, pid: string, status: DeliveryStatus, md: map<string, string>, now: int): Manager
  {
    match Locate(m.log, rid, pid)
    case Some((i, j)) => m.(log := SetRecord(m.log, i, j, Redeliver(m.log[i].records[j], status, now)))
    case None => m.(log := AppendRecord(m.log, rid, NewRecord(rid, pid, status, md, now, m.timeout)))
  }

  /** The whole loop of `store_receipt`, one pharmacy after the other. */
  function StoreAll(m: Manager, rid: string, pids: seq<string>, status: DeliveryStatus, md: map<string, string>, now: int): Manager
    decreases |pids|
  {
    if pids == [] then m else StoreAll(StoreOne(m, rid, pids[0], status, md, now), rid, pids[1..], status, md, now)
  }

  /** The manager after `store_receipt` and the list it returns. */
  datatype StoreResult = StoreResult(manager: Manager, records: seq<Record>)

  /** `store_receipt`: upsert every pharmacy id of the call, in order. The
      returned list holds, for each input id in input order, the record the
      log now holds for it (the source returns references, so a pharmacy
      listed twice shows its final state twice). */
  function StoreReceipt(m: Manager, rid: string, pids: seq<string>, status: DeliveryStatus, md: map<string, string>, now: int): (r: StoreResult)
    ensures r.manager.timeout == m.timeout
    ensures |r.records| == |pids|
    ensures forall k :: 0 <= k < |pids| ==> r.records[k].pharmacyId == pids[k]
    ensures forall k :: 0 <= k < |pids| ==> FindReceipt(r.manager.log, rid, pids[k]) == Some(r.records[k])
    ensures forall rr, p :: rr != rid || p !in pids ==> FindReceipt(r.manager.log, rr, p) == FindReceipt(m.log, rr, p)
  {
    var m' := StoreAll(m, rid, pids, status, md, now);
    StoreAllFinds(m, rid, pids, status, md, now);
    StoreResult(m', seq(|pids|, k requires 0 <= k < |pids| => FindReceipt(m'.log, rid, pids[k]).value))
  }

  /** Store on a single pair: a known pair keeps its record in place, with
      one more attempt, the new status and a fresh `last_updated`; every
      other field (delivery timestamp, expiry, acknowledgment, metadata) is
      unchanged and no record is added. */
  lemma StoreExisting(m: Manager, rid: string, pid: string, status: DeliveryStatus, md: map<string, string>, now: int)
    requires FindReceipt(m.log, rid, pid).Some?
    ensures var prev := FindReceipt(m.log, rid, pid).value;
            var m' := StoreOne(m, rid, pid, status, md, now);
      && FindReceipt(m'.log, rid, pid) == Some(Redeliver(prev, status, now))
      && |Entries(m'.log, rid)| == |Entries(m.log, rid)|
      && Keys(m'.log) == Keys(m.log)
  {
    var prev := FindReceipt(m.log, rid, pid).value;
    UpdateLocatedFrame(m.log, rid, pid, Redeliver(prev, status, now), rid, pid);
  }

  /** Store on a single pair: a new pair gets one attempt, no acknowledgment,
      expiry one timeout after `now`, and goes to the end of its report's
      list; a new report key goes to the end of the dict. */
  lemma StoreFresh(m: Manager, rid: string, pid: string, status: DeliveryStatus, md: map<string, string>, now: int)
    requires FindReceipt(m.log, rid, pid).None?
    ensures var m' := StoreOne(m, rid, pid, status, md, now);
      && Entries(m'.log, rid) == Entries(m.log, rid) + [NewRecord(rid, pid, status, md, now, m.timeout)]
      && Keys(m'.log) == (if rid in Keys(m.log) then Keys(m.log) else Keys(m.log) + [rid])
      && FindReceipt(m'.log, rid, pid).Some?
      && FindReceipt(m'.log, rid, pid).value.deliveryAttempts == 1
      && FindReceipt(m'.log, rid, pid).value.acknowledgmentTimestamp.None?
      && FindReceipt(m'.log, rid, pid).value.acknowledgedBy.None?
      && FindReceipt(m'.log, rid, pid).value.deliveryStatus == status
      && FindReceipt(m'.log, rid, pid).value.expiresAt == now + m.timeout
  {
    var rec := NewRecord(rid, pid, status, md, now, m.timeout);
    EntriesAfterAppend(m.log, rid, rec, rid);
    AppendNewFrame(m.log, rid, rec, rid, pid);
  }

  /** Storing one pair leaves every other pair's record as it was. */
  lemma StoreOneFrame(m: Manager, rid: string, pid: string, status: DeliveryStatus, md: map<string, string>, now: int, r: string, p: string)
    requires r != rid || p != pid
    ensures FindReceipt(StoreOne(m, rid, pid, status, md, now).log, r, p) == FindReceipt(m.log, r, p)
  {
    match Locate(m.log, rid, pid)
    case Some((i, j)) =>
      UpdateLocatedFrame(m.log, rid, pid, Redeliver(m.log[i].records[j], status, now), r, p);
    case None =>
      AppendNewFrame(m.log, rid, NewRecord(rid, pid, status, md, now, m.timeout), r, p);
  }

  lemma StoreOneFinds(m: Manager, rid: string, pid: string, status: DeliveryStatus, md: map<string, string>, now: int)
    ensures FindReceipt(StoreOne(m, rid, pid, status, md, now).log, rid, pid).Some?
  {
    if FindReceipt(m.log, rid, pid).Some? {
      StoreExisting(m, rid, pid, status, md, now);
    } else {
      StoreFresh(m, rid, pid, status, md, now);
    }
  }

  lemma {:induction false} StoreAllFinds(m: Manager, rid: string, pids: seq<string>, status: DeliveryStatus, md: map<string, string>, now: int)
    ensures StoreAll(m, rid, pids, status, md, now).timeout == m.timeout
    ensures forall p :: p in pids ==> FindReceipt(StoreAll(m, rid, pids, status, md, now).log, rid, p).Some?
    ensures forall r, p :: r != rid || p !in pids ==>
      FindReceipt(StoreAll(m, rid, pids, status, md, now).log, r, p) == FindReceipt(m.log, r, p)
    decreases |pids|
  {
    if pids != [] {
      var m1 := StoreOne(m, rid, pids[0], status, md, now);
      StoreAllFinds(m1, rid, pids[1..], status, md, now);
      StoreOneFinds(m, rid, pids[0], status, md, now);
      forall r, p | r != rid || p !in pids
        ensures FindReceipt(StoreAll(m, rid, pids, status, md, now).log, r, p) == FindReceipt(m.log, r, p)
      {
        StoreOneFrame(m, rid, pids[0], status, md, now, r, p);
      }
      forall p | p in pids
        ensures FindReceipt(StoreAll(m, rid, pids, status, md, now).log, rid, p).Some?
      {
        if p !in pids[1..] {
          assert p == pids[0];
        }
      }
    }
  }

  /** A pharmacy listed twice in one call on a new pair: a single record is
      created, and the second occurrence re-delivers it (two attempts). */
  lemma StoreDuplicateInOneCall(m: Manager, rid: string, pid: string, status: DeliveryStatus, md: map<string, string>, now: int)
    requires FindReceipt(m.log, rid, pid).None?
    ensures var r := StoreReceipt(m, rid, [pid, pid], status, md, now);
      && |Entries(r.manager.log, rid)| == |Entries(m.log, rid)| + 1
      && r.records[0] == r.records[1]
      && r.records[0].deliveryAttempts == 2
      && r.records[0].acknowledgmentTimestamp.None?
  {
    var m1 := StoreOne(m, rid, pid, status, md, now);
    StoreFresh(m, rid, pid, status, md, now);
    StoreExisting(m1, rid, pid, status, md, now);
    var m2 := StoreOne(m1, rid, pid, status, md, now);
    assert StoreAll(m, rid, [pid, pid], status, md, now) == StoreAll(m1, rid, [pid], status, md, now);
    assert StoreAll(m1, rid, [pid], status, md, now) == StoreAll(m2, rid, [], status, md, now);
  }

  /** The pharmacies of `ps` not in `known`, each once, in first-occurrence order. */
  function NewPids(known: seq<string>, ps: seq<string>): seq<string>
    decreases |ps|
  {
    if ps == [] then []
    else if ps[0] in known then NewPids(known, ps[1..])
    else [ps[0]] + NewPids(known + [ps[0]], ps[1..])
  }

  lemma StoreOnePids(m: Manager, rid: string, pid: string, status: DeliveryStatus, md: map<string, string>, now: int)
    ensures Pids(Entries(StoreOne(m, rid, pid, status, md, now).log, rid))
         == Pids(Entries(m.log, rid)) + (if pid in Pids(Entries(m.log, rid)) then [] else [pid])
  {
    StoreOneOrder(m, rid, pid, status, md, now);
  }

  lemma StoreOneOrder(m: Manager, rid: string, pid: string, status: DeliveryStatus, md: map<string, string>, now: int)
    ensures var m' := StoreOne(m, rid, pid, status, md, now);
      && Pids(Entries(m'.log, rid)) == Pids(Entries(m.log, rid)) + (if pid in Pids(Entries(m.log, rid)) then [] else [pid])
      && Keys(m'.log) == Keys(m.log) + (if rid in Keys(m.log) then [] else [rid])
      && forall r :: r != rid ==> Entries(m'.log, r) == Entries(m.log, r)
  {
    if Locate(m.log, rid, pid).Some? {
      StoreOneOrderFound(m, rid, pid, status, md, now);
    } else {
      StoreOneOrderNew(m, rid, pid, status, md, now);
    }
  }

  lemma StoreOneOrderFound(m: Manager, rid: string, pid: string, status: DeliveryStatus, md: map<string, string>, now: int)
    requires Locate(m.log, rid, pid).Some?
    ensures var m' := StoreOne(m, rid, pid, status, md, now);
      && Pids(Entries(m'.log, rid)) == Pids(Entries(m.log, rid))
      && pid in Pids(Entries(m.log, rid))
      && Keys(m'.log) == Keys(m.log)
      && rid in Keys(m.log)
      && forall r :: r != rid ==> Entries(m'.log, r) == Entries(m.log, r)
  {
    var m' := StoreOne(m, rid, pid, status, md, now);
    var rs := Entries(m.log, rid);
    var (i, j) := Locate(m.log, rid, pid).value;
    var rec := Redeliver(m.log[i].records[j], status, now);
    UpdateLocatedFrame(m.log, rid, pid, rec, rid, pid);
    assert Pids(rs[j := rec]) == Pids(rs);
    assert rid in Keys(m.log);
    assert pid in Pids(rs);
    forall r | r != rid
      ensures Entries(m'.log, r) == Entries(m.log, r)
    {
      UpdateLocatedFrame(m.log, rid, pid, rec, r, pid);
    }
  }

  lemma StoreOneOrderNew(m: Manager, rid: string, pid: string, status: DeliveryStatus, md: map<string, string>, now: int)
    requires Locate(m.log, rid, pid).None?
    ensures var m' := StoreOne(m, rid, pid, status, md, now);
      && Pids(Entries(m'.log, rid)) == Pids(Entries(m.log, rid)) + [pid]
      && pid !in Pids(Entries(m.log, rid))
      && Keys(m'.log) == Keys(m.log) + (if rid in Keys(m.log) then [] else [rid])
      && forall r :: r != rid ==> Entries(m'.log, r) == Entries(m.log, r)
  {
    var m' := StoreOne(m, rid, pid, status, md, now);
    var rs := Entries(m.log, rid);
    var rec := NewRecord(rid, pid, status, md, now, m.timeout);
    EntriesAfterAppend(m.log, rid, rec, rid);
    assert Pids(rs + [rec]) == Pids(rs) + [pid];
    forall r | r != rid
      ensures Entries(m'.log, r) == Entries(m.log, r)
    {
      EntriesAfterAppend(m.log, rid, rec, r);
    }
  }

  lemma {:induction false} StoreAllOrder(m: Manager, rid: string, pids: seq<string>, status: DeliveryStatus, md: map<string, string>, now: int)
    ensures Pids(Entries(StoreAll(m, rid, pids, status, md, now).log, rid))
         == Pids(Entries(m.log, rid)) + NewPids(Pids(Entries(m.log, rid)), pids)
    decreases |pids|
  {
    if pids != [] {
      var m1 := StoreOne(m, rid, pids[0], status, md, now);
      StoreOnePids(m, rid, pids[0], status, md, now);
      StoreAllOrder(m1, rid, pids[1..], status, md, now);
      assert StoreAll(m, rid, pids, status, md, now) == StoreAll(m1, rid, pids[1..], status, md, now);
      NewPidsStep(Pids(Entries(m.log, rid)), Pids(Entries(m1.log, rid)), pids);
    }
  }

  /** The known list after the first id, followed by the ids still new to
      it, is the known list before, followed by the ids new to that. */
  lemma NewPidsStep(known: seq<string>, known1: seq<string>, pids: seq<string>)
    requires pids != []
    requires known1 == known + (if pids[0] in known then [] else [pids[0]])
    ensures known1 + NewPids(known1, pids[1..]) == known + NewPids(known, pids)
  {
    if pids[0] in known {
      assert known1 == known;
    } else {
      var rest := NewPids(known1, pids[1..]);
      assert known1 + rest == known + ([pids[0]] + rest);
    }
  }

  lemma {:induction false} StoreAllKeys(m: Manager, rid: string, pids: seq<string>, status: DeliveryStatus, md: map<string, string>, now: int)
    ensures Keys(StoreAll(m, rid, pids, status, md, now).log)
         == Keys(m.log) + (if rid in Keys(m.log) || pids == [] then [] else [rid])
    decreases |pids|
  {
    if pids != [] {
      var m1 := StoreOne(m, rid, pids[0], status, md, now);
      StoreOneOrder(m, rid, pids[0], status, md, now);
      StoreAllKeys(m1, rid, pids[1..], status, md, now);
      assert StoreAll(m, rid, pids, status, md, now) == StoreAll(m1, rid, pids[1..], status, md, now);
      assert rid in Keys(m1.log);
    }
  }

  lemma {:induction false} StoreAllOtherReports(m: Manager, rid: string, pids: seq<string>, status: DeliveryStatus, md: map<string, string>, now: int, r: string)
    requires r != rid
    ensures Entries(StoreAll(m, rid, pids, status, md, now).log, r) == Entries(m.log, r)
    decreases |pids|
  {
    if pids != [] {
      StoreOneOrder(m, rid, pids[0], status, md, now);
      StoreAllOtherReports(StoreOne(m, rid, pids[0], status, md, now), rid, pids[1..], status, md, now, r);
    }
  }

  /** `store_receipt` keeps the report's existing records in place and appends
      one record per pharmacy id it had not seen, in first-occurrence order; a
      report key seen for the first time goes to the end of the dict; other
      reports are untouched. */
  lemma StoreReceiptOrder(m: Manager, rid: string, pids: seq<string>, status: DeliveryStatus, md: map<string, string>, now: int)
    ensures var m' := StoreReceipt(m, rid, pids, status, md, now).manager;
      && Pids(Entries(m'.log, rid)) == Pids(Entries(m.log, rid)) + NewPids(Pids(Entries(m.log, rid)), pids)
      && Keys(m'.log) == Keys(m.log) + (if rid in Keys(m.log) || pids == [] then [] else [rid])
      && forall r :: r != rid ==> Entries(m'.log, r) == Entries(m.log, r)
  {
    StoreAllOrder(m, rid, pids, status, md, now);
    StoreAllKeys(m, rid, pids, status, md, now);
    forall r | r != rid
      ensures Entries(StoreAll(m, rid, pids, status, md, now).log, r) == Entries(m.log, r)
    {
      StoreAllOtherReports(m, rid, pids, status, md, now, r);
    }
  }

  /** Re-storing only pharmacies the report already has adds no record. */
  lemma RestoreAddsNothing(m: Manager, rid: string, pids: seq<string>, status: DeliveryStatus, md: map<string, string>, now: int)
    requires forall p :: p in pids ==> FindReceipt(m.log, rid, p).Some?
    ensures |Entries(StoreReceipt(m, rid, pids, status, md, now).manager.log, rid)| == |Entries(m.log, rid)|
  {
    StoreReceiptOrder(m, rid, pids, status, md, now);
    var known := Pids(Entries(m.log, rid));
    NewPidsOfKnown(known, pids);
  }

  lemma {:induction false} NewPidsOfKnown(known: seq<string>, ps: seq<string>)
    requires forall p :: p in ps ==> p in known
    ensures NewPids(known, ps) == []
    decreases |ps|
  {
    if ps != [] {
      assert ps[0] in ps;
      NewPidsOfKnown(known, ps[1..]);
    }
  }

  // ---------------------------------------------------------------------------
  // The invariant is kept by store_receipt
  // ---------------------------------------------------------------------------

  lemma DistinctAppend<T>(s: seq<T>, x: T)
    requires Distinct(s) && x !in s
    ensures Distinct(s + [x])
  {
  }

  lemma StoreOneWellFormed(m: Manager, rid: string, pid: string, status: DeliveryStatus, md: map<string, string>, now: int)
    requires WellFormed(m)
    ensures WellFormed(StoreOne(m, rid, pid, status, md, now))
  {
    var m' := StoreOne(m, rid, pid, status, md, now);
    match Locate(m.log, rid, pid)
    case Some((i, j)) =>
      var rs := m.log[i].records;
      var rec := Redeliver(rs[j], status, now);
      assert Pids(rs[j := rec]) == Pids(rs);
      assert Keys(m'.log) == Keys(m.log);
      assert EntryWellFormed(m.log[i], m.timeout);
      assert RecordWellFormed(rs[j], m.log[i].reportId, m.timeout);
      assert EntryWellFormed(m'.log[i], m.timeout);
    case None =>
      var rec := NewRecord(rid, pid, status, md, now, m.timeout);
      match IndexOf(Keys(m.log), rid)
      case Some(i) =>
        var rs := m.log[i].records;
        assert Keys(m'.log) == Keys(m.log);
        assert Keys(m.log)[i] == rid;
        assert Entries(m.log, rid) == rs;
        assert pid !in Pids(rs);
        assert Pids(rs + [rec]) == Pids(rs) + [pid];
        DistinctAppend(Pids(rs), pid);
        assert EntryWellFormed(m.log[i], m.timeout);
        assert EntryWellFormed(m'.log[i], m.timeout);
      case None =>
        assert Keys(m'.log) == Keys(m.log) + [rid];
        DistinctAppend(Keys(m.log), rid);
        assert EntryWellFormed(m'.log[|m.log|], m.timeout);
  }

  /** `store_receipt` keeps the invariant: in particular it never creates a
      second record for a (report, pharmacy) pair. */
  lemma {:induction false} StoreReceiptWellFormed(m: Manager, rid: string, pids: seq<string>, status: DeliveryStatus, md: map<string, string>, now: int)
    requires WellFormed(m)
    ensures WellFormed(StoreReceipt(m, rid, pids, status, md, now).manager)
    decreases |pids|
  {
    if pids != [] {
      var m1 := StoreOne(m, rid, pids[0], status, md, now);
      StoreOneWellFormed(m, rid, pids[0], status, md, now);
      StoreReceiptWellFormed(m1, rid, pids[1..], status, md, now);
      assert StoreReceipt(m, rid, pids, status, md, now).manager == StoreReceipt(m1, rid, pids[1..], status, md, now).manager;
    }
  }

  // ---------------------------------------------------------------------------
  // mark_acknowledged / mark_failed
  // ---------------------------------------------------------------------------

  /** The manager after a mutator and the record it returns (None: not found). */
  datatype MutateResult = MutateResult(manager: Manager, record: Option<Record>)

  /** The edit `mark_acknowledged` makes: a fresh timestamp on every call,
      `acknowledged_by` overwritten even with None, notes only when truthy. */
  function Acknowledge(rec: Record, ackBy: Option<string>, notes: Option<string>, now: int): Record
  {
    rec.(acknowledgmentTimestamp := Some(now),
         deliveryStatus := Acknowledged,
         acknowledgedBy := ackBy,
         lastUpdated := now,
         metadata := if Truthy(notes) then rec.metadata[AcknowledgmentNotesKey := notes.value] else rec.metadata)
  }

  /** The edit `mark_failed` makes: no guard on the current status, the
      acknowledgment timestamp is left as it is. */
  function Fail(rec: Record, reason: Option<string>, now: int): Record
  {
    rec.(deliveryStatus := Failed,
         lastUpdated := now,
         metadata := if Truthy(reason) then rec.metadata[FailureReasonKey := reason.value] else rec.metadata)
  }

  /** Apply `edit` to the record of (rid, pid), or report it missing. */
  function Mutate(m: Manager, rid: string, pid: string, edit: Record -> Record): (r: MutateResult)
    requires forall rec :: edit(rec).pharmacyId == rec.pharmacyId
    ensures FindReceipt(m.log, rid, pid).None? ==> r == MutateResult(m, None)
    ensures FindReceipt(m.log, rid, pid).Some? ==>
      && r.record == Some(edit(FindReceipt(m.log, rid, pid).value))
      && FindReceipt(r.manager.log, rid, pid) == r.record
      && Keys(r.manager.log) == Keys(m.log)
    ensures r.manager.timeout == m.timeout
    ensures forall rr, p :: rr != rid || p != pid ==> FindReceipt(r.manager.log, rr, p) == FindReceipt(m.log, rr, p)
    ensures forall rr :: rr != rid ==> Entries(r.manager.log, rr) == Entries(m.log, rr)
  {
    match Locate(m.log, rid, pid)
    case None => MutateResult(m, None)
    case Some((i, j)) =>
      var rec := edit(m.log[i].records[j]);
      var log' := SetRecord(m.log, i, j, rec);
      MutateFrame(m.log, rid, pid, rec);
      MutateResult(m.(log := log'), Some(rec))
  }

  lemma MutateFrame(log: seq<Entry>, rid: string, pid: string, rec: Record)
    requires Locate(log, rid, pid).Some? && rec.pharmacyId == pid
    ensures var (i, j) := Locate(log, rid, pid).value;
      && Keys(SetRecord(log, i, j, rec)) == Keys(log)
      && FindReceipt(SetRecord(log, i, j, rec), rid, pid) == Some(rec)
      && (forall rr, p :: rr != rid || p != pid ==> FindReceipt(SetRecord(log, i, j, rec), rr, p) == FindReceipt(log, rr, p))
      && (forall rr :: rr != rid ==> Entries(SetRecord(log, i, j, rec), rr) == Entries(log, rr))
  {
    var (i, j) := Locate(log, rid, pid).value;
    UpdateLocatedFrame(log, rid, pid, rec, rid, pid);
    forall rr, p | rr != rid || p != pid
      ensures FindReceipt(SetRecord(log, i, j, rec), rr, p) == FindReceipt(log, rr, p)
    {
      UpdateLocatedFrame(log, rid, pid, rec, rr, p);
    }
    forall rr | rr != rid
      ensures Entries(SetRecord(log, i, j, rec), rr) == Entries(log, rr)
    {
      UpdateLocatedFrame(log, rid, pid, rec, rr, pid);
    }
  }

  /** `mark_acknowledged`: on a known pair, status `acknowledged`, the
      acknowledgment timestamp re-stamped to `now`, `acknowledged_by`
      overwritten with the argument, notes added only when truthy; on an
      unknown pair, None and no change. Other pairs never change. */
  function MarkAcknowledged(m: Manager, rid: string, pid: string, ackBy: Option<string>, notes: Option<string>, now: int): (r: MutateResult)
    ensures FindReceipt(m.log, rid, pid).None? ==> r.record.None? && r.manager == m
    ensures FindReceipt(m.log, rid, pid).Some? ==>
      var prev := FindReceipt(m.log, rid, pid).value;
      && r.record.Some?
      && FindReceipt(r.manager.log, rid, pid) == r.record
      && r.record.value.deliveryStatus == Acknowledged
      && r.record.value.acknowledgmentTimestamp == Some(now)
      && r.record.value.acknowledgedBy == ackBy
      && r.record.value.lastUpdated == now
      && r.record.value == prev.(deliveryStatus := r.record.value.deliveryStatus,
                                 acknowledgmentTimestamp := r.record.value.acknowledgmentTimestamp,
                                 acknowledgedBy := r.record.value.acknowledgedBy,
                                 lastUpdated := r.record.value.lastUpdated,
                                 metadata := r.record.value.metadata)
      && (Truthy(notes) ==> r.record.value.metadata == prev.metadata[AcknowledgmentNotesKey := notes.value])
      && (!Truthy(notes) ==> r.record.value.metadata == prev.metadata)
    ensures forall rr, p :: rr != rid || p != pid ==> FindReceipt(r.manager.log, rr, p) == FindReceipt(m.log, rr, p)
  {
    Mutate(m, rid, pid, (rec: Record) => Acknowledge(rec, ackBy, notes, now))
  }

  /** `mark_failed`: on a known pair, status `failed` whatever the current
      status (an acknowledged record too), `failure_reason` added only when a
      truthy reason is given, acknowledgment fields untouched; on an unknown
      pair, None and no change. */
  function MarkFailed(m: Manager, rid: string, pid: string, reason: Option<string>, now: int): (r: MutateResult)
    ensures FindReceipt(m.log, rid, pid).None? ==> r.record.None? && r.manager == m
    ensures FindReceipt(m.log, rid, pid).Some? ==>
      var prev := FindReceipt(m.log, rid, pid).value;
      && r.record.Some?
      && FindReceipt(r.manager.log, rid, pid) == r.record
      && r.record.value.deliveryStatus == Failed
      && r.record.value.lastUpdated == now
      && r.record.value == prev.(deliveryStatus := r.record.value.deliveryStatus,
                                 lastUpdated := r.record.value.lastUpdated,
                                 metadata := r.record.value.metadata)
      && (Truthy(reason) ==> r.record.value.metadata == prev.metadata[FailureReasonKey := reason.value])
      && (!Truthy(reason) ==> r.record.value.metadata == prev.metadata)
    ensures forall rr, p :: rr != rid || p != pid ==> FindReceipt(r.manager.log, rr, p) == FindReceipt(m.log, rr, p)
  {
    Mutate(m, rid, pid, (rec: Record) => Fail(rec, reason, now))
  }

  /** An edit that keeps the identifying and timing fields keeps the invariant. */
  lemma MutateWellFormed(m: Manager, rid: string, pid: string, edit: Record -> Record)
    requires WellFormed(m)
    requires forall rec :: edit(rec).pharmacyId == rec.pharmacyId && edit(rec).reportId == rec.reportId
    requires forall rec :: edit(rec).deliveryAttempts == rec.deliveryAttempts
    requires forall rec :: edit(rec).expiresAt == rec.expiresAt && edit(rec).deliveryTimestamp == rec.deliveryTimestamp
    ensures WellFormed(Mutate(m, rid, pid, edit).manager)
  {
    match Locate(m.log, rid, pid)
    case None =>
    case Some((i, j)) =>
      var rs := m.log[i].records;
      var rec := edit(rs[j]);
      var m' := Mutate(m, rid, pid, edit).manager;
      assert m'.log == SetRecord(m.log, i, j, rec);
      assert Pids(rs[j := rec]) == Pids(rs);
      assert Keys(m'.log) == Keys(m.log);
      assert EntryWellFormed(m.log[i], m.timeout);
      assert RecordWellFormed(rs[j], m.log[i].reportId, m.timeout);
      assert EntryWellFormed(m'.log[i], m.timeout);
  }

  lemma MarkAcknowledgedWellFormed(m: Manager, rid: string, pid: string, ackBy: Option<string>, notes: Option<string>, now: int)
    requires WellFormed(m)
    ensures WellFormed(MarkAcknowledged(m, rid, pid, ackBy, notes, now).manager)
  {
    MutateWellFormed(m, rid, pid, (rec: Record) => Acknowledge(rec, ackBy, notes, now));
  }

  lemma MarkFailedWellFormed(m: Manager, rid: string, pid: string, reason: Option<string>, now: int)
    requires WellFormed(m)
    ensures WellFormed(MarkFailed(m, rid, pid, reason, now).manager)
  {
    MutateWellFormed(m, rid, pid, (rec: Record) => Fail(rec, reason, now));
  }

  // ---------------------------------------------------------------------------
  // get_all_receipts / retry_failed / reset
  // ---------------------------------------------------------------------------

  /** `get_all_receipts`: the report's list in insertion order, empty when the
      report is unknown. */
  function GetAllReceipts(m: Manager, rid: string): (rs: seq<Record>)
    ensures forall p :: FindReceipt(m.log, rid, p).Some? ==> FindReceipt(m.log, rid, p).value in rs
    ensures forall k :: 0 <= k < |rs| ==> FindIn(rs, rs[k].pharmacyId).Some?
    ensures rid !in Keys(m.log) ==> rs == []
    ensures rid in Keys(m.log) ==> exists i :: 0 <= i < |m.log| && m.log[i].reportId == rid && rs == m.log[i].records
    ensures WellFormed(m) ==> Distinct(Pids(rs))
    ensures WellFormed(m) ==> forall k :: 0 <= k < |rs| ==> FindReceipt(m.log, rid, rs[k].pharmacyId) == Some(rs[k])
  {
    var rs := Entries(m.log, rid);
    assert forall k :: 0 <= k < |rs| ==> Pids(rs)[k] == rs[k].pharmacyId;
    assert WellFormed(m) ==> Distinct(Pids(rs)) && forall k :: 0 <= k < |rs| ==> FindReceipt(m.log, rid, rs[k].pharmacyId) == Some(rs[k]) by {
      if WellFormed(m) {
        EntriesFound(m, rid);
      }
    }
    rs
  }

  /** Under the invariant each record of a report is the one `_find_receipt`
      finds for its pharmacy. */
  lemma EntriesFound(m: Manager, rid: string)
    requires WellFormed(m)
    ensures Distinct(Pids(Entries(m.log, rid)))
    ensures forall k :: 0 <= k < |Entries(m.log, rid)| ==>
      FindReceipt(m.log, rid, Entries(m.log, rid)[k].pharmacyId) == Some(Entries(m.log, rid)[k])
  {
    var rs := Entries(m.log, rid);
    EntriesWellFormed(m, rid);
    forall k | 0 <= k < |rs|
      ensures FindReceipt(m.log, rid, rs[k].pharmacyId) == Some(rs[k])
    {
      assert Pids(rs)[k] == rs[k].pharmacyId;
      UniquePid(rs, k, FindReceipt(m.log, rid, rs[k].pharmacyId).value);
    }
  }

  /** `get_all_receipts` lists the records in insertion order: storing keeps
      the listed pharmacies first and appends the new ones in the order given. */
  lemma AllReceiptsInInsertionOrder(m: Manager, rid: string, pids: seq<string>, status: DeliveryStatus, md: map<string, string>, now: int)
    ensures var m' := StoreReceipt(m, rid, pids, status, md, now).manager;
      && Pids(GetAllReceipts(m', rid)) == Pids(GetAllReceipts(m, rid)) + NewPids(Pids(GetAllReceipts(m, rid)), pids)
      && forall r :: r != rid ==> GetAllReceipts(m', r) == GetAllReceipts(m, r)
  {
    StoreReceiptOrder(m, rid, pids, status, md, now);
  }

  /** `retry_failed`: the pharmacies of the report whose status is `failed`, in order. */
  function RetryFailed(m: Manager, rid: string): (pids: seq<string>)
    ensures forall p :: p in pids ==> FindReceipt(m.log, rid, p).Some?
    ensures WellFormed(m) ==> forall p :: p in pids <==>
      FindReceipt(m.log, rid, p).Some? && FindReceipt(m.log, rid, p).value.deliveryStatus == Failed
    ensures IsSubsequence(pids, Pids(GetAllReceipts(m, rid)))
    ensures WellFormed(m) ==> Distinct(pids)
  {
    var f := (e: Record) => e.deliveryStatus == Failed;
    FilteredPids(m, rid, f);
    MapFilterSubsequence((r: Record) => r.pharmacyId, f, Entries(m.log, rid));
    assert WellFormed(m) ==> Distinct(Pids(Filter(f, Entries(m.log, rid)))) by {
      if WellFormed(m) {
        EntriesWellFormed(m, rid);
        MapFilterDistinct((r: Record) => r.pharmacyId, f, Entries(m.log, rid));
      }
    }
    Pids(Filter(f, Entries(m.log, rid)))
  }

  /** The pharmacy ids of a filtered report list are exactly the pharmacies
      whose record passes the filter (one record per pharmacy under the
      invariant). */
  lemma FilteredPids(m: Manager, rid: string, f: Record -> bool)
    ensures var pids := Pids(Filter(f, Entries(m.log, rid)));
      && (forall p :: p in pids ==> FindReceipt(m.log, rid, p).Some?)
      && (WellFormed(m) ==> forall p :: p in pids <==>
            FindReceipt(m.log, rid, p).Some? && f(FindReceipt(m.log, rid, p).value))
  {
    var rs := Entries(m.log, rid);
    var kept := Filter(f, rs);
    var pids := Pids(kept);
    forall p | p in pids
      ensures FindReceipt(m.log, rid, p).Some?
    {
      var k :| 0 <= k < |pids| && pids[k] == p;
      assert kept[k] in rs;
      var j :| 0 <= j < |rs| && rs[j] == kept[k];
      assert rs[j].pharmacyId == p;
    }
    if WellFormed(m) {
      EntriesWellFormed(m, rid);
      forall p
        ensures p in pids <==> FindReceipt(m.log, rid, p).Some? && f(FindReceipt(m.log, rid, p).value)
      {
        if p in pids {
          var k :| 0 <= k < |pids| && pids[k] == p;
          assert kept[k] in rs;
          var j :| 0 <= j < |rs| && rs[j] == kept[k];
          UniquePid(rs, j, FindReceipt(m.log, rid, p).value);
        }
        if FindReceipt(m.log, rid, p).Some? && f(FindReceipt(m.log, rid, p).value) {
          var rec := FindReceipt(m.log, rid, p).value;
          var j :| 0 <= j < |rs| && rs[j] == rec;
          assert rec in kept;
          var k :| 0 <= k < |kept| && kept[k] == rec;
          assert pids[k] == p;
        }
      }
    }
  }

  /** Under the invariant, the list of a report has one record per pharmacy. */
  lemma EntriesWellFormed(m: Manager, rid: string)
    requires WellFormed(m)
    ensures Distinct(Pids(Entries(m.log, rid)))
    ensures forall j :: 0 <= j < |Entries(m.log, rid)| ==> RecordWellFormed(Entries(m.log, rid)[j], rid, m.timeout)
  {
    match IndexOf(Keys(m.log), rid)
    case None =>
    case Some(i) =>
      assert EntryWellFormed(m.log[i], m.timeout);
  }

  lemma UniquePid(rs: seq<Record>, j: nat, rec: Record)
    requires Distinct(Pids(rs)) && j < |rs| && rec in rs && rec.pharmacyId == rs[j].pharmacyId
    ensures rec == rs[j]
  {
    var k :| 0 <= k < |rs| && rs[k] == rec;
    assert Pids(rs)[k] == Pids(rs)[j];
  }

  /** `reset`: a truthy report id drops that key (and keeps the order of the
      others); None or the empty string clears the whole log, because the
      source tests `if report_id:`. */
  function Reset(m: Manager, rid: Option<string>): (r: Manager)
    ensures r.timeout == m.timeout
    ensures !Truthy(rid) ==> r.log == []
    ensures Truthy(rid) ==> Keys(r.log) == Filter((k: string) => k != rid.value, Keys(m.log))
    ensures Truthy(rid) ==> Entries(r.log, rid.value) == []
    ensures Truthy(rid) && Distinct(Keys(m.log)) ==>
      forall k :: k != rid.value ==> Entries(r.log, k) == Entries(m.log, k)
  {
    if Truthy(rid) then
      var log' := Filter((e: Entry) => e.reportId != rid.value, m.log);
      ResetFrame(m.log, rid.value);
      m.(log := log')
    else
      m.(log := [])
  }

  lemma {:induction false} FilterKeys(log: seq<Entry>, rid: string)
    ensures Keys(Filter((e: Entry) => e.reportId != rid, log)) == Filter((k: string) => k != rid, Keys(log))
  {
    if log != [] {
      var f := (e: Entry) => e.reportId != rid;
      var x, rest := log[0], log[1..];
      assert log == [x] + rest;
      FilterKeys(rest, rid);
      KeysCons(x, rest);
      FilterCons((k: string) => k != rid, x.reportId, Keys(rest));
      FilterCons(f, x, rest);
      if f(x) {
        KeysCons(x, Filter(f, rest));
      }
    }
  }

  lemma KeysCons(x: Entry, rest: seq<Entry>)
    ensures Keys([x] + rest) == [x.reportId] + Keys(rest)
  {
    MapCons((e: Entry) => e.reportId, x, rest);
  }

  lemma ResetFrame(log: seq<Entry>, rid: string)
    ensures var log' := Filter((e: Entry) => e.reportId != rid, log);
      && Keys(log') == Filter((k: string) => k != rid, Keys(log))
      && Entries(log', rid) == []
      && (Distinct(Keys(log)) ==> forall k :: k != rid ==> Entries(log', k) == Entries(log, k))
  {
    var f := (e: Entry) => e.reportId != rid;
    var log' := Filter(f, log);
    FilterKeys(log, rid);
    assert rid !in Keys(log');
    if Distinct(Keys(log)) {
      forall k | k != rid
        ensures Entries(log', k) == Entries(log, k)
      {
        FilterEntries(log, rid, k);
      }
    }
  }

  lemma {:induction false} FilterEntries(log: seq<Entry>, rid: string, k: string)
    requires Distinct(Keys(log)) && k != rid
    ensures Entries(Filter((e: Entry) => e.reportId != rid, log), k) == Entries(log, k)
  {
    var f := (e: Entry) => e.reportId != rid;
    if log != [] {
      assert Keys(log[1..]) == Keys(log)[1..];
      FilterEntries(log[1..], rid, k);
      var tail := Filter(f, log[1..]);
      if log[0].reportId == k {
        assert Filter(f, log) == [log[0]] + tail;
        assert Keys(Filter(f, log))[0] == k;
        IndexOfUnique(Keys(Filter(f, log)), k, 0);
        IndexOfUnique(Keys(log), k, 0);
      } else {
        ShiftEntries(log, k);
        if f(log[0]) {
          assert Filter(f, log) == [log[0]] + tail;
          assert Filter(f, log)[1..] == tail;
          ShiftEntries(Filter(f, log), k);
        }
      }
    }
  }

  /** Looking up a key that is not the first one skips the first entry. */
  lemma ShiftEntries(log: seq<Entry>, k: string)
    requires log != [] && log[0].reportId != k
    ensures Entries(log, k) == Entries(log[1..], k)
  {
    assert log == [log[0]] + log[1..];
    KeysCons(log[0], log[1..]);
    IndexOfCons(log[0].reportId, Keys(log[1..]), k);
    match IndexOf(Keys(log[1..]), k)
    case None =>
    case Some(j) =>
      assert log[j + 1] == log[1..][j];
  }

  lemma {:induction false} DistinctFilter<T>(f: T -> bool, s: seq<T>)
    requires Distinct(s)
    ensures Distinct(Filter(f, s))
  {
    if s != [] {
      DistinctFilter(f, s[1..]);
      if f(s[0]) {
        assert s[0] !in s[1..];
        assert s[0] !in Filter(f, s[1..]);
      }
    }
  }

  /** `reset` keeps the invariant. */
  lemma ResetWellFormed(m: Manager, rid: Option<string>)
    requires WellFormed(m)
    ensures WellFormed(Reset(m, rid))
  {
    if Truthy(rid) {
      var f := (e: Entry) => e.reportId != rid.value;
      var log' := Filter(f, m.log);
      FilterKeys(m.log, rid.value);
      DistinctFilter((k: string) => k != rid.value, Keys(m.log));
      forall i | 0 <= i < |log'|
        ensures EntryWellFormed(log'[i], m.timeout)
      {
        assert log'[i] in m.log;
      }
    }
  }
}
