/** The metadata dictionaries of `store_receipt` (receipt.py) as the source
    creates them. `"metadata": metadata or {}` evaluates to the caller's
    dictionary object whenever that is non-empty, so every record a call
    creates shares one object with the caller and with each other; an
    empty or absent argument gives each record a fresh `{}`. The mutators
    then write notes and failure reasons into the shared object.

    This module tracks only what the sharing concerns: which object each
    record of one report points to, and the objects themselves. The rest
    of the model (`ReceiptStore`) gives each record its own copy. */
module MetadataAliasing {
  import opened Wrappers
  import opened Text
  import ReceiptStore

  type Metadata = map<string, string>

  /** A record reduced to its pharmacy and the metadata object it holds. */
  datatype Row = Row(pharmacyId: string, ref: nat)

  /** The metadata objects alive in the process, and one report's list. */
  datatype World = World(objects: seq<Metadata>, rows: seq<Row>)

  /** `_find_receipt` within one report: the first row of the pharmacy. */
  function FindRow(rows: seq<Row>, pid: string): (r: Option<nat>)
    ensures r.Some? ==> r.value < |rows| && rows[r.value].pharmacyId == pid
    ensures r.Some? ==> forall k :: 0 <= k < r.value ==> rows[k].pharmacyId != pid
    ensures r.None? <==> forall k :: 0 <= k < |rows| ==> rows[k].pharmacyId != pid
  {
    if rows == [] then None
    else if rows[0].pharmacyId == pid then Some(0)
    else match FindRow(rows[1..], pid)
      case None => None
      case Some(k) => Some(k + 1)
  }

  /** Appending a row finds it for its pharmacy if that had none, and
      changes nothing for the other pharmacies. */
  lemma {:induction false} FindRowAppend(rows: seq<Row>, row: Row, pid: string)
    ensures pid != row.pharmacyId ==> FindRow(rows + [row], pid) == FindRow(rows, pid)
    ensures pid == row.pharmacyId && FindRow(rows, pid).None? ==> FindRow(rows + [row], pid) == Some(|rows|)
  {
    if rows != [] {
      FindRowAppend(rows[1..], row, pid);
      assert (rows + [row])[1..] == rows[1..] + [row];
    }
  }

  /** The metadata a pharmacy's record shows now. */
  function MetadataOf(w: World, pid: string): (r: Option<Metadata>)
    ensures r.Some? ==> FindRow(w.rows, pid).Some?
  {
    match FindRow(w.rows, pid)
    case None => None
    case Some(k) => if w.rows[k].ref < |w.objects| then Some(w.objects[w.rows[k].ref]) else None
  }

  /** The loop of `store_receipt` as written, for the metadata only: a
      pharmacy already listed keeps its object; a new one gets the caller's
      object `caller` when that is non-empty, and a fresh empty one
      otherwise. */
  function StoreAsWritten(w: World, pids: seq<string>, caller: Option<nat>): (r: World)
    requires caller.Some? ==> caller.value < |w.objects|
    ensures |r.objects| >= |w.objects|
    decreases |pids|
  {
    if pids == [] then w
    else
      var w1 :=
        if FindRow(w.rows, pids[0]).Some? then w
        else if caller.Some? && w.objects[caller.value] != map[] then World(w.objects, w.rows + [Row(pids[0], caller.value)])
        else World(w.objects + [map[]], w.rows + [Row(pids[0], |w.objects|)]);
      StoreAsWritten(w1, pids[1..], caller)
  }

  /** `mark_acknowledged` as written, for the metadata only: truthy notes
      go into the object the record points to. */
  function AcknowledgeAsWritten(w: World, pid: string, notes: Option<string>): (r: World)
    ensures r.rows == w.rows && |r.objects| == |w.objects|
  {
    match FindRow(w.rows, pid)
    case None => w
    case Some(k) =>
      if Truthy(notes) && w.rows[k].ref < |w.objects| then
        var o := w.rows[k].ref;
        w.(objects := w.objects[o := w.objects[o][ReceiptStore.AcknowledgmentNotesKey := notes.value]])
      else w
  }

  /** Two new pharmacies stored in one call with non-empty metadata share
      it: acknowledging the first with notes puts the notes on the second
      record too, and into the caller's own dictionary. */
  lemma {:induction false} NotesLeakToSibling(w: World, p: string, q: string, caller: nat, notes: Option<string>)
    requires caller < |w.objects| && w.objects[caller] != map[]
    requires p != q && FindRow(w.rows, p).None? && FindRow(w.rows, q).None?
    requires Truthy(notes) && ReceiptStore.AcknowledgmentNotesKey !in w.objects[caller]
    ensures var w1 := StoreAsWritten(w, [p, q], Some(caller));
      var w2 := AcknowledgeAsWritten(w1, p, notes);
      && MetadataOf(w1, q) == Some(w.objects[caller])
      && MetadataOf(w2, q) == Some(w.objects[caller][ReceiptStore.AcknowledgmentNotesKey := notes.value])
      && MetadataOf(w2, q) != MetadataOf(w1, q)
      && w2.objects[caller] == w.objects[caller][ReceiptStore.AcknowledgmentNotesKey := notes.value]
  {
    var n := |w.rows|;
    var wp := World(w.objects, w.rows + [Row(p, caller)]);
    FindRowAppend(w.rows, Row(p, caller), p);
    FindRowAppend(w.rows, Row(p, caller), q);
    var w1 := World(w.objects, wp.rows + [Row(q, caller)]);
    FindRowAppend(wp.rows, Row(q, caller), p);
    FindRowAppend(wp.rows, Row(q, caller), q);
    assert StoreAsWritten(w, [p, q], Some(caller)) == StoreAsWritten(wp, [q], Some(caller));
    assert StoreAsWritten(wp, [q], Some(caller)) == StoreAsWritten(w1, [], Some(caller));
    assert ReceiptStore.AcknowledgmentNotesKey in w.objects[caller][ReceiptStore.AcknowledgmentNotesKey := notes.value];
  }

  /** One new pharmacy stored without metadata: a fresh empty object. */
  lemma StoreFreshStep(w: World, pid: string, rest: seq<string>)
    requires FindRow(w.rows, pid).None?
    ensures StoreAsWritten(w, [pid] + rest, None)
         == StoreAsWritten(World(w.objects + [map[]], w.rows + [Row(pid, |w.objects|)]), rest, None)
  {
    assert ([pid] + rest)[0] == pid && ([pid] + rest)[1..] == rest;
  }

  /** Storing two new pharmacies without metadata appends two rows, each
      with its own fresh empty object. */
  lemma StoreTwoFresh(w: World, p: string, q: string)
    requires p != q && FindRow(w.rows, p).None? && FindRow(w.rows, q).None?
    ensures var m := |w.objects|;
      var w1 := StoreAsWritten(w, [p, q], None);
      && w1 == World(w.objects + [map[], map[]], w.rows + [Row(p, m), Row(q, m + 1)])
      && FindRow(w1.rows, p) == Some(|w.rows|)
      && FindRow(w1.rows, q) == Some(|w.rows| + 1)
  {
    var m := |w.objects|;
    StoreTwoFreshWorld(w, p, q);
    FindRowAppend(w.rows, Row(p, m), p);
    FindRowAppend(w.rows + [Row(p, m)], Row(q, m + 1), p);
    FindRowAppend(w.rows, Row(p, m), q);
    FindRowAppend(w.rows + [Row(p, m)], Row(q, m + 1), q);
    assert w.rows + [Row(p, m)] + [Row(q, m + 1)] == w.rows + [Row(p, m), Row(q, m + 1)];
  }

  lemma StoreTwoFreshWorld(w: World, p: string, q: string)
    requires p != q && FindRow(w.rows, p).None? && FindRow(w.rows, q).None?
    ensures var m := |w.objects|;
      StoreAsWritten(w, [p, q], None) == World(w.objects + [map[], map[]], w.rows + [Row(p, m), Row(q, m + 1)])
  {
    var m := |w.objects|;
    var wp := World(w.objects + [map[]], w.rows + [Row(p, m)]);
    assert [p, q] == [p] + [q];
    StoreFreshStep(w, p, [q]);
    FindRowAppend(w.rows, Row(p, m), q);
    assert [q] == [q] + [];
    StoreFreshStep(wp, q, []);
    assert wp.objects + [map[]] == w.objects + [map[], map[]];
    assert wp.rows + [Row(q, m + 1)] == w.rows + [Row(p, m), Row(q, m + 1)];
  }

  /** A call without metadata gives every record a fresh object, so no
      acknowledgment reaches another record. */
  lemma FreshMetadataStaysPrivate(w: World, p: string, q: string, notes: Option<string>)
    requires p != q && FindRow(w.rows, p).None? && FindRow(w.rows, q).None?
    ensures var w1 := StoreAsWritten(w, [p, q], None);
      var w2 := AcknowledgeAsWritten(w1, p, notes);
      MetadataOf(w2, q) == MetadataOf(w1, q) == Some(map[])
  {
    var n := |w.rows|;
    var m := |w.objects|;
    StoreTwoFresh(w, p, q);
    var w1 := StoreAsWritten(w, [p, q], None);
    assert w1.rows[n].ref == m && w1.rows[n + 1].ref == m + 1 && w1.objects[m + 1] == map[];
    var w2 := AcknowledgeAsWritten(w1, p, notes);
    assert w2.objects[m + 1] == w1.objects[m + 1];
  }
}
