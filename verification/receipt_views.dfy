/** The read-only views of `DeliveryReceiptManager` (receipt.py):
    `get_acknowledgment_status`, `get_followup_candidates` and
    `get_statistics`. None of them returns a manager, so none can change the
    log. */
module ReceiptViews {
  import opened Wrappers
  import opened Seqs
  import opened ReceiptStore

  // The three buckets, as the source's list comprehensions define them.

  /** Has an acknowledgment timestamp (whatever its status). */
  predicate IsAcknowledgedEntry(e: Record) { e.acknowledgmentTimestamp.Some? }

  /** No acknowledgment timestamp and not `failed`: `delivered`, `pending`
      and `expired` records all land here. */
  predicate IsPendingEntry(e: Record) { e.acknowledgmentTimestamp.None? && e.deliveryStatus != Failed }

  /** Status `failed` (whatever its acknowledgment timestamp). */
  predicate IsFailedEntry(e: Record) { e.deliveryStatus == Failed }

  /** A failed record that still carries an acknowledgment timestamp; it is
      counted in two buckets. `mark_failed` after `mark_acknowledged` makes one. */
  predicate IsDoubleCounted(e: Record) { IsAcknowledgedEntry(e) && IsFailedEntry(e) }

  /** `part / total`, or 0 when nothing was sent (the divide-by-zero guard). */
  function Rate(part: nat, total: nat): (r: real)
    ensures total == 0 ==> r == 0.0
    ensures total > 0 ==> r * (total as real) == part as real
    ensures part <= total ==> 0.0 <= r <= 1.0
  {
    if total == 0 then 0.0 else (part as real) / (total as real)
  }

  datatype AckStatus = AckStatus(
    reportId: string,
    totalSent: nat,
    acknowledgedCount: nat,
    pendingCount: nat,
    failedCount: nat,
    acknowledgmentRate: real,
    acknowledged: seq<string>,
    pending: seq<string>,
    failed: seq<string>,
    details: seq<Record>)

  function Acked(rs: seq<Record>): seq<Record> { Filter(IsAcknowledgedEntry, rs) }
  function PendingOf(rs: seq<Record>): seq<Record> { Filter(IsPendingEntry, rs) }
  function FailedOf(rs: seq<Record>): seq<Record> { Filter(IsFailedEntry, rs) }

  /** `get_acknowledgment_status`: the counts, the rate and the pharmacy ids
      of each bucket, for one report. Every record is counted once, and a
      double-counted one twice; each id list follows the report's list order. */
  function GetAcknowledgmentStatus(m: Manager, rid: string): (s: AckStatus)
    ensures s.details == Entries(m.log, rid) && s.totalSent == |s.details|
    ensures s.acknowledgedCount == |s.acknowledged| && s.pendingCount == |s.pending| && s.failedCount == |s.failed|
    ensures s.totalSent == 0 ==> s.acknowledgedCount == s.pendingCount == s.failedCount == 0
    ensures s.acknowledgedCount <= s.totalSent && s.acknowledgmentRate == Rate(s.acknowledgedCount, s.totalSent)
    ensures s.acknowledgedCount + s.pendingCount + s.failedCount == s.totalSent + |Filter(IsDoubleCounted, s.details)|
    ensures IsSubsequence(s.acknowledged, Pids(s.details))
    ensures IsSubsequence(s.pending, Pids(s.details))
    ensures IsSubsequence(s.failed, Pids(s.details))
  {
    var es := Entries(m.log, rid);
    var acked := Acked(es);
    var pending := PendingOf(es);
    var failed := FailedOf(es);
    BucketCounts(es);
    MapFilterSubsequence((r: Record) => r.pharmacyId, IsAcknowledgedEntry, es);
    MapFilterSubsequence((r: Record) => r.pharmacyId, IsPendingEntry, es);
    MapFilterSubsequence((r: Record) => r.pharmacyId, IsFailedEntry, es);
    AckStatus(rid, |es|, |acked|, |pending|, |failed|, Rate(|acked|, |es|),
              Pids(acked), Pids(pending), Pids(failed), es)
  }

  /** Under the invariant, a pharmacy is listed in a bucket exactly when its
      record belongs to that bucket, so the pending list shares no pharmacy
      with the acknowledged or the failed list. */
  lemma StatusBuckets(m: Manager, rid: string)
    requires WellFormed(m)
    ensures var s := GetAcknowledgmentStatus(m, rid);
      forall p ::
      && (p in s.acknowledged <==> FindReceipt(m.log, rid, p).Some? && IsAcknowledgedEntry(FindReceipt(m.log, rid, p).value))
      && (p in s.pending <==> FindReceipt(m.log, rid, p).Some? && IsPendingEntry(FindReceipt(m.log, rid, p).value))
      && (p in s.failed <==> FindReceipt(m.log, rid, p).Some? && IsFailedEntry(FindReceipt(m.log, rid, p).value))
  {
    FilteredPids(m, rid, IsAcknowledgedEntry);
    FilteredPids(m, rid, IsPendingEntry);
    FilteredPids(m, rid, IsFailedEntry);
  }

  /** Under the invariant a bucket's id list is fixed by order and
      membership: a list taken in order from the report's pharmacy ids that
      holds exactly the pharmacies whose record satisfies `f` is the list of
      ids of the records satisfying `f`. */
  lemma BucketListDetermined(m: Manager, rid: string, f: Record -> bool, ys: seq<string>)
    requires WellFormed(m)
    requires IsSubsequence(ys, Pids(Entries(m.log, rid)))
    requires forall p :: p in ys <==> FindReceipt(m.log, rid, p).Some? && f(FindReceipt(m.log, rid, p).value)
    ensures ys == Pids(Filter(f, Entries(m.log, rid)))
  {
    var es := Entries(m.log, rid);
    EntriesWellFormed(m, rid);
    FilteredPids(m, rid, f);
    MapFilterSubsequence((r: Record) => r.pharmacyId, f, es);
    SubsequenceDetermined(ys, Pids(Filter(f, es)), Pids(es));
  }

  /** The three lists of `get_acknowledgment_status` are the only ones that
      are taken in order from the report's pharmacy ids and hold exactly the
      pharmacies of their buckets. */
  lemma StatusListsDetermined(m: Manager, rid: string, acked: seq<string>, pending: seq<string>, failed: seq<string>)
    requires WellFormed(m)
    requires var ps := Pids(Entries(m.log, rid));
      IsSubsequence(acked, ps) && IsSubsequence(pending, ps) && IsSubsequence(failed, ps)
    requires forall p :: p in acked <==> FindReceipt(m.log, rid, p).Some? && IsAcknowledgedEntry(FindReceipt(m.log, rid, p).value)
    requires forall p :: p in pending <==> FindReceipt(m.log, rid, p).Some? && IsPendingEntry(FindReceipt(m.log, rid, p).value)
    requires forall p :: p in failed <==> FindReceipt(m.log, rid, p).Some? && IsFailedEntry(FindReceipt(m.log, rid, p).value)
    ensures var s := GetAcknowledgmentStatus(m, rid);
      acked == s.acknowledged && pending == s.pending && failed == s.failed
  {
    BucketListDetermined(m, rid, IsAcknowledgedEntry, acked);
    BucketListDetermined(m, rid, IsPendingEntry, pending);
    BucketListDetermined(m, rid, IsFailedEntry, failed);
  }

  /** The pending list is disjoint from the acknowledged and the failed lists. */
  lemma PendingDisjoint(m: Manager, rid: string, p: string)
    requires WellFormed(m)
    ensures var s := GetAcknowledgmentStatus(m, rid);
      p in s.pending ==> p !in s.acknowledged && p !in s.failed
  {
    StatusBuckets(m, rid);
  }

  /** Every record is in at least one bucket and only a double-counted one is
      in two: acknowledged + pending + failed == total + double-counted. */
  lemma {:induction false} BucketCounts(rs: seq<Record>)
    ensures |Acked(rs)| + |PendingOf(rs)| + |FailedOf(rs)| == |rs| + |Filter(IsDoubleCounted, rs)|
    ensures |Acked(rs)| <= |rs|
  {
    if rs != [] {
      BucketCounts(rs[1..]);
    }
  }

  /** The three buckets partition the report exactly when no failed record
      carries an acknowledgment timestamp. */
  lemma BucketsPartition(m: Manager, rid: string)
    ensures var s := GetAcknowledgmentStatus(m, rid);
      (s.acknowledgedCount + s.pendingCount + s.failedCount == s.totalSent)
      <==> (forall k :: 0 <= k < |s.details| ==> !IsDoubleCounted(s.details[k]))
  {
    var rs := Entries(m.log, rid);
    BucketCounts(rs);
    if exists k :: 0 <= k < |rs| && IsDoubleCounted(rs[k]) {
      var k :| 0 <= k < |rs| && IsDoubleCounted(rs[k]);
      assert rs[k] in Filter(IsDoubleCounted, rs);
    } else {
      FilterNone(IsDoubleCounted, rs);
    }
  }

  /** `mark_failed` after `mark_acknowledged` leaves a record counted both as
      acknowledged and as failed: the source has no guard against it. */
  lemma FailAfterAcknowledgeDoubleCounts(m: Manager, rid: string, pid: string, ackBy: Option<string>, reason: Option<string>, t1: int, t2: int)
    requires FindReceipt(m.log, rid, pid).Some?
    ensures var m1 := MarkAcknowledged(m, rid, pid, ackBy, None, t1).manager;
            var m2 := MarkFailed(m1, rid, pid, reason, t2).manager;
      && FindReceipt(m2.log, rid, pid).Some?
      && IsDoubleCounted(FindReceipt(m2.log, rid, pid).value)
  {
  }

  // ---------------------------------------------------------------------------
  // get_followup_candidates
  // ---------------------------------------------------------------------------

  /** A copy of a record annotated with `is_expired`. */
  datatype Candidate = Candidate(record: Record, isExpired: bool)

  /** The records of a candidate list, in order. */
  function Records(cs: seq<Candidate>): (rs: seq<Record>)
    ensures |rs| == |cs|
    ensures forall k :: 0 <= k < |cs| ==> rs[k] == cs[k].record
  {
    if cs == [] then [] else [cs[0].record] + Records(cs[1..])
  }

  /** Not acknowledged and not failed: the records a follow-up is for. */
  predicate NeedsFollowup(e: Record) { IsPendingEntry(e) }

  /** Kept by `get_followup_candidates` for the given flag and clock. */
  predicate Selected(e: Record, includeExpired: bool, now: int)
  {
    NeedsFollowup(e) && (includeExpired || !(now > e.expiresAt))
  }

  /** The loop of `get_followup_candidates`, one record after the other. */
  function FollowupLoop(rs: seq<Record>, includeExpired: bool, now: int): (cs: seq<Candidate>)
    ensures Records(cs) == Filter((e: Record) => Selected(e, includeExpired, now), rs)
    ensures forall k :: 0 <= k < |cs| ==> cs[k].isExpired == (now > cs[k].record.expiresAt)
  {
    if rs == [] then []
    else
      var e := rs[0];
      var rest := FollowupLoop(rs[1..], includeExpired, now);
      if e.acknowledgmentTimestamp.Some? then rest
      else if e.deliveryStatus == Failed then rest
      else
        var isExpired := now > e.expiresAt;
        if isExpired && !includeExpired then rest
        else
          assert Records([Candidate(e, isExpired)] + rest) == [e] + Records(rest) by {
            assert ([Candidate(e, isExpired)] + rest)[1..] == rest;
          }
          [Candidate(e, isExpired)] + rest
  }

  /** `get_followup_candidates`: in list order, exactly the records with no
      acknowledgment timestamp and a status other than `failed`, each with
      `is_expired` computed against `now`; with `include_expired` false the
      expired ones are dropped. */
  function GetFollowupCandidates(m: Manager, rid: string, includeExpired: bool, now: int): (cs: seq<Candidate>)
    ensures Records(cs) == Filter((e: Record) => Selected(e, includeExpired, now), Entries(m.log, rid))
    ensures forall k :: 0 <= k < |cs| ==> cs[k].isExpired == (now > cs[k].record.expiresAt)
    ensures forall k :: 0 <= k < |cs| ==> NeedsFollowup(cs[k].record) && (!includeExpired ==> !cs[k].isExpired)
  {
    FollowupLoop(Entries(m.log, rid), includeExpired, now)
  }

  /** Without expired candidates, the list is the full list minus its expired
      entries. */
  lemma FollowupWithoutExpired(m: Manager, rid: string, now: int)
    ensures Records(GetFollowupCandidates(m, rid, false, now))
         == Filter((e: Record) => !(now > e.expiresAt),
                   Records(GetFollowupCandidates(m, rid, true, now)))
  {
    var rs := Entries(m.log, rid);
    FilterFilter((e: Record) => Selected(e, true, now), (e: Record) => !(now > e.expiresAt),
                 (e: Record) => Selected(e, false, now), rs);
  }

  /** A report's follow-up candidates (expired ones included) are exactly
      its pending bucket. */
  lemma FollowupsArePending(m: Manager, rid: string, now: int)
    ensures Records(GetFollowupCandidates(m, rid, true, now)) == PendingOf(Entries(m.log, rid))
  {
    FilterCongruent((e: Record) => Selected(e, true, now), IsPendingEntry, Entries(m.log, rid));
  }

  // ---------------------------------------------------------------------------
  // get_statistics
  // ---------------------------------------------------------------------------

  datatype ReportStats = ReportStats(reportId: string, sent: nat, acknowledged: nat, pending: nat, failed: nat, rate: real)

  datatype Statistics = Statistics(
    totalReports: nat,
    totalSent: nat,
    totalAcknowledged: nat,
    totalPending: nat,
    totalFailed: nat,
    overallAcknowledgmentRate: real,
    byReport: seq<ReportStats>)

  /** One `report_stats` entry. */
  function StatsOf(e: Entry): ReportStats
  {
    var ack := |Acked(e.records)|;
    ReportStats(e.reportId, |e.records|, ack, |PendingOf(e.records)|, |FailedOf(e.records)|, Rate(ack, |e.records|))
  }

  /** The running totals and the `report_stats` list after the loop of
      `get_statistics` has visited the entries of `log`, in order. */
  datatype Tally = Tally(sent: nat, ack: nat, pending: nat, failed: nat, byReport: seq<ReportStats>)

  function StatsLoop(log: seq<Entry>): (t: Tally)
    ensures |t.byReport| == |log|
    ensures forall i :: 0 <= i < |log| ==> t.byReport[i] == StatsOf(log[i])
  {
    if log == [] then Tally(0, 0, 0, 0, [])
    else
      var t := StatsLoop(log[..|log| - 1]);
      var s := StatsOf(log[|log| - 1]);
      Tally(t.sent + s.sent, t.ack + s.acknowledged, t.pending + s.pending, t.failed + s.failed, t.byReport + [s])
  }

  function SumSent(rs: seq<ReportStats>): nat { if rs == [] then 0 else SumSent(rs[..|rs| - 1]) + rs[|rs| - 1].sent }
  function SumAck(rs: seq<ReportStats>): nat { if rs == [] then 0 else SumAck(rs[..|rs| - 1]) + rs[|rs| - 1].acknowledged }
  function SumPending(rs: seq<ReportStats>): nat { if rs == [] then 0 else SumPending(rs[..|rs| - 1]) + rs[|rs| - 1].pending }
  function SumFailed(rs: seq<ReportStats>): nat { if rs == [] then 0 else SumFailed(rs[..|rs| - 1]) + rs[|rs| - 1].failed }

  /** The running totals equal the sums over the per-report entries. */
  lemma {:induction false} StatsLoopTotals(log: seq<Entry>)
    ensures var t := StatsLoop(log);
      && t.sent == SumSent(t.byReport) && t.ack == SumAck(t.byReport)
      && t.pending == SumPending(t.byReport) && t.failed == SumFailed(t.byReport)
  {
    if log != [] {
      var t := StatsLoop(log);
      StatsLoopTotals(log[..|log| - 1]);
      assert t.byReport[..|t.byReport| - 1] == StatsLoop(log[..|log| - 1]).byReport;
    }
  }

  /** `get_statistics`: one entry per report key in dict order, totals that
      are the sums of the entries, and an overall rate of 0 when nothing was
      sent. */
  function GetStatistics(m: Manager): (s: Statistics)
    ensures s.totalReports == |m.log| == |s.byReport|
    ensures forall i :: 0 <= i < |m.log| ==> s.byReport[i].reportId == m.log[i].reportId
    ensures s.totalSent == SumSent(s.byReport) && s.totalAcknowledged == SumAck(s.byReport)
    ensures s.totalPending == SumPending(s.byReport) && s.totalFailed == SumFailed(s.byReport)
    ensures s.overallAcknowledgmentRate == Rate(s.totalAcknowledged, s.totalSent)
  {
    var t := StatsLoop(m.log);
    StatsLoopTotals(m.log);
    Statistics(|m.log|, t.sent, t.ack, t.pending, t.failed, Rate(t.ack, t.sent), t.byReport)
  }

  /** Each per-report entry of `get_statistics` agrees with
      `get_acknowledgment_status` for that report. */
  lemma StatisticsAgreeWithStatus(m: Manager, i: nat)
    requires WellFormed(m) && i < |m.log|
    ensures var e := GetStatistics(m).byReport[i];
            var s := GetAcknowledgmentStatus(m, m.log[i].reportId);
      && e.sent == s.totalSent && e.acknowledged == s.acknowledgedCount
      && e.pending == s.pendingCount && e.failed == s.failedCount
      && e.rate == s.acknowledgmentRate
  {
    var rid := m.log[i].reportId;
    assert Keys(m.log)[i] == rid;
    IndexOfUnique(Keys(m.log), rid, i);
  }
}
