/** `get_pharmacy_history` of `DeliveryReceiptManager` (receipt.py): every
    record of one pharmacy across all reports, newest delivery first. The
    source sorts with Python's stable `list.sort(reverse=True)`; the model
    sorts by a stable insertion sort and proves it sorted, a permutation of
    the collected records, and stable (records with the same delivery time
    keep their log order). */
module ReceiptHistory {
  import opened Wrappers
  import opened Seqs
  import opened ReceiptStore

  /** The records of `rs` for pharmacy `pid`, each a copy carrying `rid` as
      its report id (`{**entry, "report_id": report_id}`). */
  function Tagged(rs: seq<Record>, rid: string, pid: string): (out: seq<Record>)
    ensures forall k :: 0 <= k < |out| ==> out[k].pharmacyId == pid && out[k].reportId == rid
    ensures forall j :: 0 <= j < |rs| && rs[j].pharmacyId == pid ==> rs[j].(reportId := rid) in out
  {
    if rs == [] then []
    else if rs[0].pharmacyId == pid then [rs[0].(reportId := rid)] + Tagged(rs[1..], rid, pid)
    else
      var rest := Tagged(rs[1..], rid, pid);
      assert forall j :: 1 <= j < |rs| ==> rs[j] == rs[1..][j - 1];
      rest
  }

  /** The two nested loops of `get_pharmacy_history`, before the sort. */
  function Collect(log: seq<Entry>, pid: string): (out: seq<Record>)
    ensures forall k :: 0 <= k < |out| ==> out[k].pharmacyId == pid
  {
    if log == [] then [] else Tagged(log[0].records, log[0].reportId, pid) + Collect(log[1..], pid)
  }

  /** Every record of the pharmacy in report `i` is collected. */
  lemma {:induction false} CollectContains(log: seq<Entry>, pid: string, i: nat, j: nat)
    requires i < |log| && j < |log[i].records| && log[i].records[j].pharmacyId == pid
    ensures log[i].records[j].(reportId := log[i].reportId) in Collect(log, pid)
  {
    if i > 0 {
      CollectContains(log[1..], pid, i - 1, j);
    }
  }

  // ---------------------------------------------------------------------------
  // Stable sort, newest delivery first
  // ---------------------------------------------------------------------------

  predicate SortedDesc(s: seq<Record>)
  {
    forall i, j :: 0 <= i < j < |s| ==> s[i].deliveryTimestamp >= s[j].deliveryTimestamp
  }

  /** Put `x` after every element at least as new as it, i.e. after the
      elements with the same delivery time that came before it. */
  function InsertDesc(xs: seq<Record>, x: Record): (out: seq<Record>)
    ensures multiset(out) == multiset(xs) + multiset{x}
  {
    if xs == [] then [x]
    else if xs[0].deliveryTimestamp >= x.deliveryTimestamp then
      assert xs == [xs[0]] + xs[1..];
      [xs[0]] + InsertDesc(xs[1..], x)
    else
      [x] + xs
  }

  lemma {:induction false} InsertSorted(xs: seq<Record>, x: Record)
    requires SortedDesc(xs)
    ensures SortedDesc(InsertDesc(xs, x))
  {
    if xs == [] {
    } else if xs[0].deliveryTimestamp >= x.deliveryTimestamp {
      InsertSorted(xs[1..], x);
      InsertBounded(xs[1..], x, xs[0].deliveryTimestamp);
      SortedCons(xs[0], InsertDesc(xs[1..], x));
    } else {
      SortedCons(x, xs);
    }
  }

  /** A sorted list stays sorted under a new first element at least as new
      as every element. */
  lemma SortedCons(y: Record, rest: seq<Record>)
    requires SortedDesc(rest)
    requires forall k :: 0 <= k < |rest| ==> rest[k].deliveryTimestamp <= y.deliveryTimestamp
    ensures SortedDesc([y] + rest)
  {
    var out := [y] + rest;
    assert forall k :: 1 <= k < |out| ==> out[k] == rest[k - 1];
  }

  /** Inserting below a bound every element already respects keeps it. */
  lemma {:induction false} InsertBounded(xs: seq<Record>, x: Record, t: int)
    requires forall k :: 0 <= k < |xs| ==> xs[k].deliveryTimestamp <= t
    requires x.deliveryTimestamp <= t
    ensures forall k :: 0 <= k < |InsertDesc(xs, x)| ==> InsertDesc(xs, x)[k].deliveryTimestamp <= t
  {
    if xs != [] && xs[0].deliveryTimestamp >= x.deliveryTimestamp {
      InsertBounded(xs[1..], x, t);
      var rest := InsertDesc(xs[1..], x);
      var out := [xs[0]] + rest;
      assert forall k :: 1 <= k < |out| ==> out[k] == rest[k - 1];
    }
  }

  /** Python's `sort(key=delivery_timestamp, reverse=True)`: an insertion sort
      taking the elements in their original order. */
  function SortDesc(s: seq<Record>): (out: seq<Record>)
    ensures multiset(out) == multiset(s)
    ensures SortedDesc(out)
  {
    if s == [] then []
    else
      assert s == s[..|s| - 1] + [s[|s| - 1]];
      InsertSorted(SortDesc(s[..|s| - 1]), s[|s| - 1]);
      InsertDesc(SortDesc(s[..|s| - 1]), s[|s| - 1])
  }

  /** Records delivered at time `t`. */
  function AtTime(t: int): Record -> bool
  {
    (r: Record) => r.deliveryTimestamp == t
  }

  lemma {:induction false} InsertKeepsTies(xs: seq<Record>, x: Record, t: int)
    requires SortedDesc(xs)
    ensures Filter(AtTime(t), InsertDesc(xs, x))
         == Filter(AtTime(t), xs) + (if AtTime(t)(x) then [x] else [])
  {
    if xs == [] {
    } else if xs[0].deliveryTimestamp >= x.deliveryTimestamp {
      InsertKeepsTies(xs[1..], x, t);
      assert ([xs[0]] + InsertDesc(xs[1..], x))[1..] == InsertDesc(xs[1..], x);
    } else {
      // Everything already placed is strictly newer than x.
      if x.deliveryTimestamp == t {
        FilterNone(AtTime(t), xs);
      }
      assert ([x] + xs)[1..] == xs;
    }
  }

  lemma SortDescUnfold(s: seq<Record>)
    requires s != []
    ensures SortDesc(s) == InsertDesc(SortDesc(s[..|s| - 1]), s[|s| - 1])
  {
  }

  /** Stability: among records delivered at the same time, the sorted list
      keeps the order of the input. */
  lemma {:induction false} SortKeepsTies(s: seq<Record>, t: int)
    ensures Filter(AtTime(t), SortDesc(s)) == Filter(AtTime(t), s)
  {
    if s != [] {
      var init := s[..|s| - 1];
      SortKeepsTies(init, t);
      SortDescUnfold(s);
      InsertKeepsTies(SortDesc(init), s[|s| - 1], t);
      FilterSnoc(AtTime(t), s);
    }
  }

  /** `get_pharmacy_history`: the pharmacy's records from every report, each
      tagged with its report key, newest delivery first, ties in log order. */
  function PharmacyHistory(m: Manager, pid: string): (h: seq<Record>)
    ensures multiset(h) == multiset(Collect(m.log, pid))
    ensures SortedDesc(h)
    ensures forall k :: 0 <= k < |h| ==> h[k].pharmacyId == pid
  {
    var h := SortDesc(Collect(m.log, pid));
    assert forall k :: 0 <= k < |h| ==> h[k] in multiset(Collect(m.log, pid));
    h
  }

  /** Same-time records appear in the history in log order. */
  lemma HistoryStable(m: Manager, pid: string, t: int)
    ensures Filter(AtTime(t), PharmacyHistory(m, pid)) == Filter(AtTime(t), Collect(m.log, pid))
  {
    SortKeepsTies(Collect(m.log, pid), t);
  }

  /** Whatever `get_receipt` finds for the pharmacy under any report is in
      its history; under the invariant the copy is the record itself. */
  lemma HistoryComplete(m: Manager, rid: string, pid: string)
    requires FindReceipt(m.log, rid, pid).Some?
    ensures FindReceipt(m.log, rid, pid).value.(reportId := rid) in PharmacyHistory(m, pid)
    ensures WellFormed(m) ==> FindReceipt(m.log, rid, pid).value in PharmacyHistory(m, pid)
  {
    var loc := Locate(m.log, rid, pid).value;
    var i, j := loc.0, loc.1;
    assert Keys(m.log)[i] == rid;
    assert Pids(m.log[i].records)[j] == pid;
    CollectContains(m.log, pid, i, j);
    var e := FindReceipt(m.log, rid, pid).value;
    assert e.(reportId := rid) in multiset(PharmacyHistory(m, pid));
    if WellFormed(m) {
      assert EntryWellFormed(m.log[i], m.timeout);
      assert e.(reportId := rid) == e;
    }
  }
}
