/** `check_expirations` of `DeliveryReceiptManager` (receipt.py): the
    time-driven sweep that marks overdue records `expired`. The clock read by
    the source becomes the parameter `now`. */
module ReceiptSweep {
  import opened Wrappers
  import opened Seqs
  import opened ReceiptStore

  /** Left alone by the sweep whatever the clock says: acknowledged records
      and records that are already `expired`. A `failed` record is not
      skipped. */
  predicate Skipped(e: Record)
  {
    e.acknowledgmentTimestamp.Some? || e.deliveryStatus == Expired
  }

  /** Marked by a sweep at `now`. */
  predicate Sweepable(e: Record, now: int)
  {
    !Skipped(e) && now > e.expiresAt
  }

  /** The record after it has been marked: status `expired`, stamped `now`. */
  function Expire(e: Record, now: int): Record
  {
    e.(deliveryStatus := Expired, lastUpdated := now)
  }

  /** One record after a sweep at `now`. */
  function SweepRecord(e: Record, now: int): (r: Record)
    ensures Sweepable(e, now) ==> r == Expire(e, now)
    ensures !Sweepable(e, now) ==> r == e
    ensures !Sweepable(r, now)
  {
    if Sweepable(e, now) then Expire(e, now) else e
  }

  /** Every record of a list marked, in order. */
  function ExpireAll(rs: seq<Record>, now: int): (out: seq<Record>)
    ensures |out| == |rs|
    ensures forall k :: 0 <= k < |rs| ==> out[k] == Expire(rs[k], now)
  {
    if rs == [] then [] else [Expire(rs[0], now)] + ExpireAll(rs[1..], now)
  }

  lemma {:induction false} ExpireAllAppend(a: seq<Record>, b: seq<Record>, now: int)
    ensures ExpireAll(a + b, now) == ExpireAll(a, now) + ExpireAll(b, now)
  {
  }

  /** All records of the log, report after report, in dict order. */
  function Flatten(log: seq<Entry>): seq<Record>
  {
    if log == [] then [] else log[0].records + Flatten(log[1..])
  }

  /** The inner loop over one report's list: the swept list and the records
      marked, in order. */
  function SweepRecords(rs: seq<Record>, now: int): (out: (seq<Record>, seq<Record>))
    ensures |out.0| == |rs|
    ensures forall j :: 0 <= j < |rs| ==> out.0[j] == SweepRecord(rs[j], now)
    ensures out.1 == ExpireAll(Filter((e: Record) => Sweepable(e, now), rs), now)
  {
    if rs == [] then ([], [])
    else
      var rest := SweepRecords(rs[1..], now);
      if Sweepable(rs[0], now) then
        ([Expire(rs[0], now)] + rest.0, [Expire(rs[0], now)] + rest.1)
      else
        ([rs[0]] + rest.0, rest.1)
  }

  /** The outer loop over the reports, in dict order. */
  function SweepLog(log: seq<Entry>, now: int): (out: (seq<Entry>, seq<Record>))
    ensures |out.0| == |log|
    ensures forall i :: 0 <= i < |log| ==>
      && out.0[i].reportId == log[i].reportId
      && out.0[i].records == SweepRecords(log[i].records, now).0
  {
    if log == [] then ([], [])
    else
      var here := SweepRecords(log[0].records, now);
      var rest := SweepLog(log[1..], now);
      var swept := [Entry(log[0].reportId, here.0)] + rest.0;
      assert forall i :: 1 <= i < |swept| ==> swept[i] == rest.0[i - 1];
      (swept, here.1 + rest.1)
  }

  /** The records the sweep marks are the sweepable ones of the flattened
      log, in order, each marked. */
  lemma {:induction false} SweepLogExpired(log: seq<Entry>, now: int)
    ensures SweepLog(log, now).1 == ExpireAll(Filter((e: Record) => Sweepable(e, now), Flatten(log)), now)
  {
    if log != [] {
      var f := (e: Record) => Sweepable(e, now);
      SweepLogExpired(log[1..], now);
      FilterAppend(f, log[0].records, Flatten(log[1..]));
      ExpireAllAppend(Filter(f, log[0].records), Filter(f, Flatten(log[1..])), now);
    }
  }

  datatype SweepResult = SweepResult(manager: Manager, expired: seq<Record>)

  /** `check_expirations`: every record that has no acknowledgment timestamp,
      is not already `expired` and whose expiry lies strictly before `now`
      becomes `expired` with `last_updated = now`; every other record is left
      as it was. The marked records are returned in log order. */
  function CheckExpirations(m: Manager, now: int): (r: SweepResult)
    ensures r.manager.timeout == m.timeout && |r.manager.log| == |m.log|
    ensures forall i :: 0 <= i < |m.log| ==>
      && r.manager.log[i].reportId == m.log[i].reportId
      && |r.manager.log[i].records| == |m.log[i].records|
    ensures forall i, j :: 0 <= i < |m.log| && 0 <= j < |m.log[i].records| ==>
      var before := m.log[i].records[j];
      var after := r.manager.log[i].records[j];
      && (Skipped(before) ==> after == before)
      && (!Skipped(before) && !(now > before.expiresAt) ==> after == before)
      && (Sweepable(before, now) ==> after == before.(deliveryStatus := Expired, lastUpdated := now))
    ensures r.expired == ExpireAll(Filter((e: Record) => Sweepable(e, now), Flatten(m.log)), now)
  {
    var out := SweepLog(m.log, now);
    SweepLogExpired(m.log, now);
    SweepResult(m.(log := out.0), out.1)
  }

  /** The report keys, and with them every report's list up to the marking,
      are those of the log before the sweep. */
  lemma SweepKeys(m: Manager, now: int)
    ensures Keys(CheckExpirations(m, now).manager.log) == Keys(m.log)
  {
  }

  /** `get_receipt` after the sweep returns the swept version of what it
      returned before. */
  lemma SweepFind(m: Manager, now: int, rid: string, pid: string)
    ensures var after := FindReceipt(CheckExpirations(m, now).manager.log, rid, pid);
      match FindReceipt(m.log, rid, pid)
      case None => after.None?
      case Some(e) => after == Some(SweepRecord(e, now))
  {
    var log' := CheckExpirations(m, now).manager.log;
    SweepKeys(m, now);
    match IndexOf(Keys(m.log), rid)
    case None =>
    case Some(i) =>
      assert Entries(m.log, rid) == m.log[i].records;
      assert Entries(log', rid) == log'[i].records;
      SweepFindIn(m.log[i].records, log'[i].records, pid, now);
  }

  /** The pharmacy lookup in one swept list. */
  lemma SweepFindIn(rs: seq<Record>, rs': seq<Record>, pid: string, now: int)
    requires rs' == SweepRecords(rs, now).0
    ensures match FindIn(rs, pid)
      case None => FindIn(rs', pid).None?
      case Some(e) => FindIn(rs', pid) == Some(SweepRecord(e, now))
  {
    SweptPids(rs, now);
    match IndexOf(Pids(rs), pid)
    case None =>
    case Some(j) =>
      assert rs'[j] == SweepRecord(rs[j], now);
  }

  /** The sweep changes no pharmacy id. */
  lemma SweptPids(rs: seq<Record>, now: int)
    ensures Pids(SweepRecords(rs, now).0) == Pids(rs)
  {
    var rs' := SweepRecords(rs, now).0;
    forall k | 0 <= k < |rs|
      ensures Pids(rs')[k] == Pids(rs)[k]
    {
      assert rs'[k] == SweepRecord(rs[k], now);
    }
  }

  /** A record that failed, was never acknowledged and is overdue becomes
      `expired`: the sweep does not spare `failed` records. */
  lemma FailedRecordExpires(m: Manager, now: int, rid: string, pid: string)
    requires FindReceipt(m.log, rid, pid).Some?
    requires var e := FindReceipt(m.log, rid, pid).value;
      e.deliveryStatus == Failed && e.acknowledgmentTimestamp.None? && now > e.expiresAt
    ensures var after := FindReceipt(CheckExpirations(m, now).manager.log, rid, pid);
      after.Some? && after.value.deliveryStatus == Expired
  {
    SweepFind(m, now, rid, pid);
  }

  /** A sweep of a log in which nothing is overdue marks nothing and changes
      nothing. */
  lemma NothingSweepable(log: seq<Entry>, now: int)
    requires forall i, j :: 0 <= i < |log| && 0 <= j < |log[i].records| ==> !Sweepable(log[i].records[j], now)
    ensures SweepLog(log, now) == (log, [])
  {
    var out := SweepLog(log, now);
    forall i | 0 <= i < |log|
      ensures out.0[i] == log[i]
    {
      assert SweepRecords(log[i].records, now).0 == log[i].records;
    }
    assert out.0 == log;
    FlattenNone(log, now);
    SweepLogExpired(log, now);
    FilterNone((e: Record) => Sweepable(e, now), Flatten(log));
    assert out.1 == ExpireAll([], now) == [];
  }

  lemma {:induction false} FlattenNone(log: seq<Entry>, now: int)
    requires forall i, j :: 0 <= i < |log| && 0 <= j < |log[i].records| ==> !Sweepable(log[i].records[j], now)
    ensures forall k :: 0 <= k < |Flatten(log)| ==> !Sweepable(Flatten(log)[k], now)
  {
    if log != [] {
      FlattenNone(log[1..], now);
    }
  }

  /** A second sweep at the same `now` marks nothing and changes nothing. */
  lemma SweepIdempotent(m: Manager, now: int)
    ensures var m1 := CheckExpirations(m, now).manager;
      CheckExpirations(m1, now) == SweepResult(m1, [])
  {
    var m1 := CheckExpirations(m, now).manager;
    NothingSweepable(m1.log, now);
  }

  /** The sweep keeps the invariant: it changes neither keys, pharmacy ids,
      report ids, attempts nor expiry times. */
  lemma SweepWellFormed(m: Manager, now: int)
    requires WellFormed(m)
    ensures WellFormed(CheckExpirations(m, now).manager)
  {
    var m1 := CheckExpirations(m, now).manager;
    SweepKeys(m, now);
    forall i | 0 <= i < |m1.log|
      ensures EntryWellFormed(m1.log[i], m1.timeout)
    {
      assert EntryWellFormed(m.log[i], m.timeout);
      SweepEntryWellFormed(m.log[i], m1.log[i], m.timeout, now);
    }
  }

  /** Sweeping one report's list keeps its part of the invariant. */
  lemma SweepEntryWellFormed(e: Entry, e': Entry, timeout: int, now: int)
    requires EntryWellFormed(e, timeout)
    requires e'.reportId == e.reportId && e'.records == SweepRecords(e.records, now).0
    ensures EntryWellFormed(e', timeout)
  {
    var rs, rs' := e.records, e'.records;
    SweptPids(rs, now);
    forall j | 0 <= j < |rs'|
      ensures RecordWellFormed(rs'[j], e'.reportId, timeout)
    {
      assert rs'[j] == SweepRecord(rs[j], now);
      assert RecordWellFormed(rs[j], e.reportId, timeout);
    }
  }
}
