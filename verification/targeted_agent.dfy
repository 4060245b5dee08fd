/** `TargetedAgent` (agents/targeted_agent.py): the pharmacy filter of
    `_filter_pharmacies`, the labels of `_get_matching_criteria`, and the
    delivery loop of `send_alert` over the filtered pharmacies. Criteria
    values are strings, lists of strings or None. */
module TargetedAgent {
  import opened Wrappers
  import opened Seqs
  import opened Text
  import opened PyValues
  import opened BaseAgent

  // ---------------------------------------------------------------------------
  // Criteria
  // ---------------------------------------------------------------------------

  /** `if not criteria`: None and the empty dictionary are falsy. */
  predicate CriteriaTruthy(c: Criteria)
  {
    c.Some? && c.value != map[]
  }

  /** Python truthiness of a criterion value. */
  predicate CTruthy(v: Criterion)
  {
    match v
    case CStr(s) => s != ""
    case CList(l) => l != []
    case CNull => false
  }

  /** `key in criteria and criteria[key]`. */
  predicate Active(m: map<string, Criterion>, key: string)
  {
    key in m && CTruthy(m[key])
  }

  /** A bare string stands for a one-element list. */
  function Names(v: Criterion): seq<string>
  {
    match v
    case CStr(s) => [s]
    case CList(l) => l
    case CNull => []
  }

  /** `x.lower() in [n.lower() for n in names]`. */
  predicate LowerIn(x: string, names: seq<string>)
  {
    exists k :: 0 <= k < |names| && Lower(names[k]) == Lower(x)
  }

  /** The single value of `location` / `region`: a list contributes its first
      element, an empty list nothing. */
  function First(v: Criterion): Option<string>
  {
    match v
    case CStr(s) => Some(s)
    case CList(l) => if l == [] then None else Some(l[0])
    case CNull => None
  }

  /** `x in criteria['pharmacy_ids']`: list membership, or substring search
      when the value is a string. */
  predicate Contains(v: Criterion, x: string)
  {
    match v
    case CStr(s) => IsSubstring(x, s)
    case CList(l) => x in l
    case CNull => false
  }

  /** The value a single-valued criterion filters by, if it filters. */
  function SingleValue(m: map<string, Criterion>, key: string): Option<string>
  {
    if Active(m, key) && Truthy(First(m[key])) then First(m[key]) else None
  }

  // The five checks of `_filter_pharmacies`; each holds trivially when its
  // criterion is absent or falsy.

  function KeepRegions(m: map<string, Criterion>): Fields -> bool
  {
    (p: Fields) => Active(m, "regions_affected") ==> LowerIn(GetOrEmpty(p, "region"), Names(m["regions_affected"]))
  }

  function KeepType(m: map<string, Criterion>): Fields -> bool
  {
    (p: Fields) => Active(m, "pharmacy_type") ==> LowerIn(GetOrEmpty(p, "pharmacy_type"), Names(m["pharmacy_type"]))
  }

  function KeepLocation(m: map<string, Criterion>): Fields -> bool
  {
    (p: Fields) => SingleValue(m, "location").Some? ==> Lower(GetOrEmpty(p, "location")) == Lower(SingleValue(m, "location").value)
  }

  function KeepIds(m: map<string, Criterion>): Fields -> bool
  {
    (p: Fields) => Active(m, "pharmacy_ids") ==> "id" in p && Contains(m["pharmacy_ids"], p["id"])
  }

  function KeepRegion(m: map<string, Criterion>): Fields -> bool
  {
    (p: Fields) => SingleValue(m, "region").Some? ==> Lower(GetOrEmpty(p, "region")) == Lower(SingleValue(m, "region").value)
  }

  /** The checks before the `pharmacy_ids` step. */
  function BeforeIds(m: map<string, Criterion>): Fields -> bool
  {
    (p: Fields) => KeepRegions(m)(p) && KeepType(m)(p) && KeepLocation(m)(p)
  }

  /** The conjunctive rule: a pharmacy is kept iff it passes every check. */
  function Matches(m: map<string, Criterion>): Fields -> bool
  {
    (p: Fields) => BeforeIds(m)(p) && KeepIds(m)(p) && KeepRegion(m)(p)
  }

  // ---------------------------------------------------------------------------
  // _filter_pharmacies
  // ---------------------------------------------------------------------------

  /** One `filtered = [p for p in filtered if ...]` step, run only when its
      criterion is set. */
  function Stage(on: bool, keep: Fields -> bool, ps: seq<Fields>): (r: seq<Fields>)
    ensures (forall x :: !on ==> keep(x)) ==> r == Filter(keep, ps)
  {
    if on then Filter(keep, ps)
    else
      assert (forall x :: !on ==> keep(x)) ==> Filter(keep, ps) == ps by {
        if forall x :: !on ==> keep(x) {
          FilterAll(keep, ps);
        }
      }
      ps
  }

  /** The `pharmacy_ids` step: `p['id']` raises KeyError for the first
      pharmacy without an id. */
  function FilterIds(ps: seq<Fields>, ids: Criterion): (r: Result<seq<Fields>, PyError>)
    ensures r.Success? <==> forall k :: 0 <= k < |ps| ==> "id" in ps[k]
    ensures r.Failure? ==> r.error == KeyError("id")
    ensures r.Success? ==> r.value == Filter((p: Fields) => "id" in p && Contains(ids, p["id"]), ps)
  {
    if ps == [] then Success([])
    else if "id" !in ps[0] then Failure(KeyError("id"))
    else
      match FilterIds(ps[1..], ids)
      case Failure(e) => Failure(e)
      case Success(rest) =>
        assert forall k :: 1 <= k < |ps| ==> ps[k] == ps[1..][k - 1];
        Success(if Contains(ids, ps[0]["id"]) then [ps[0]] + rest else rest)
  }

  /** `_filter_pharmacies`: no criteria keep the list as it is; otherwise
      the five steps run in the source's order. */
  function FilterPharmacies(ps: seq<Fields>, criteria: Criteria): (r: Result<seq<Fields>, PyError>)
    ensures !CriteriaTruthy(criteria) ==> r == Success(ps)
  {
    if !CriteriaTruthy(criteria) then Success(ps)
    else
      var m := criteria.value;
      var f1 := Stage(Active(m, "regions_affected"), KeepRegions(m), ps);
      var f2 := Stage(Active(m, "pharmacy_type"), KeepType(m), f1);
      var f3 := Stage(SingleValue(m, "location").Some?, KeepLocation(m), f2);
      var f4 :- if Active(m, "pharmacy_ids") then FilterIds(f3, m["pharmacy_ids"]) else Success(f3);
      Success(Stage(SingleValue(m, "region").Some?, KeepRegion(m), f4))
  }

  /** The first three steps keep exactly the pharmacies passing their
      checks. */
  lemma FirstStages(m: map<string, Criterion>, ps: seq<Fields>)
    ensures var f1 := Stage(Active(m, "regions_affected"), KeepRegions(m), ps);
      var f2 := Stage(Active(m, "pharmacy_type"), KeepType(m), f1);
      Stage(SingleValue(m, "location").Some?, KeepLocation(m), f2) == Filter(BeforeIds(m), ps)
  {
    var f1 := Filter(KeepRegions(m), ps);
    var h12 := (p: Fields) => KeepRegions(m)(p) && KeepType(m)(p);
    FilterFilter(KeepRegions(m), KeepType(m), h12, ps);
    FilterFilter(h12, KeepLocation(m), BeforeIds(m), ps);
  }

  /** The filter is the conjunctive rule: on success the result is exactly
      the pharmacies passing every check, in input order. It fails exactly
      when `pharmacy_ids` is set and a pharmacy surviving the first three
      steps has no `id`. */
  lemma {:induction false} FilterIsConjunction(ps: seq<Fields>, m: map<string, Criterion>)
    requires m != map[]
    ensures var r := FilterPharmacies(ps, Some(m));
      && (r.Failure? <==> Active(m, "pharmacy_ids") && exists k :: 0 <= k < |ps| && BeforeIds(m)(ps[k]) && "id" !in ps[k])
      && (r.Failure? ==> r.error == KeyError("id"))
      && (r.Success? ==> r.value == Filter(Matches(m), ps))
  {
    FirstStages(m, ps);
    var f3 := Filter(BeforeIds(m), ps);
    var r := FilterPharmacies(ps, Some(m));
    if Active(m, "pharmacy_ids") {
      var r4 := FilterIds(f3, m["pharmacy_ids"]);
      assert r4.Failure? ==> r == Failure(r4.error);
      assert r4.Success? ==> r == Success(Stage(SingleValue(m, "region").Some?, KeepRegion(m), r4.value));
      MissingIdSurvives(ps, m);
      if r4.Success? {
        LastStagesWithIds(ps, m);
      }
    } else {
      assert r == Success(Stage(SingleValue(m, "region").Some?, KeepRegion(m), f3));
      LastStagesWithoutIds(ps, m);
    }
  }

  /** A pharmacy without an id reaches the `pharmacy_ids` step iff it passes
      the first three checks. */
  lemma MissingIdSurvives(ps: seq<Fields>, m: map<string, Criterion>)
    ensures (exists k :: 0 <= k < |ps| && BeforeIds(m)(ps[k]) && "id" !in ps[k])
        <==> !(forall k :: 0 <= k < |Filter(BeforeIds(m), ps)| ==> "id" in Filter(BeforeIds(m), ps)[k])
  {
    var f3 := Filter(BeforeIds(m), ps);
    if exists k :: 0 <= k < |ps| && BeforeIds(m)(ps[k]) && "id" !in ps[k] {
      var k :| 0 <= k < |ps| && BeforeIds(m)(ps[k]) && "id" !in ps[k];
      assert ps[k] in f3;
      var i :| 0 <= i < |f3| && f3[i] == ps[k];
      assert "id" !in f3[i];
    } else {
      forall i | 0 <= i < |f3|
        ensures "id" in f3[i]
      {
        assert f3[i] in ps && BeforeIds(m)(f3[i]);
        var j :| 0 <= j < |ps| && ps[j] == f3[i];
        assert BeforeIds(m)(ps[j]);
      }
    }
  }

  /** With the `pharmacy_ids` step on and every remaining pharmacy carrying
      an id, the last two steps complete the conjunction. */
  lemma LastStagesWithIds(ps: seq<Fields>, m: map<string, Criterion>)
    requires Active(m, "pharmacy_ids")
    requires forall k :: 0 <= k < |Filter(BeforeIds(m), ps)| ==> "id" in Filter(BeforeIds(m), ps)[k]
    ensures var f4 := Filter((p: Fields) => "id" in p && Contains(m["pharmacy_ids"], p["id"]), Filter(BeforeIds(m), ps));
      Stage(SingleValue(m, "region").Some?, KeepRegion(m), f4) == Filter(Matches(m), ps)
  {
    var f3 := Filter(BeforeIds(m), ps);
    var idsKeep := (p: Fields) => "id" in p && Contains(m["pharmacy_ids"], p["id"]);
    FilterCongruent(idsKeep, KeepIds(m), f3);
    var h := (p: Fields) => BeforeIds(m)(p) && KeepIds(m)(p);
    FilterFilter(BeforeIds(m), KeepIds(m), h, ps);
    FilterFilter(h, KeepRegion(m), Matches(m), ps);
  }

  /** With the `pharmacy_ids` step off, the region step completes the
      conjunction. */
  lemma LastStagesWithoutIds(ps: seq<Fields>, m: map<string, Criterion>)
    requires !Active(m, "pharmacy_ids")
    ensures Stage(SingleValue(m, "region").Some?, KeepRegion(m), Filter(BeforeIds(m), ps)) == Filter(Matches(m), ps)
  {
    var h := (p: Fields) => BeforeIds(m)(p) && KeepIds(m)(p);
    FilterCongruent(BeforeIds(m), h, ps);
    FilterFilter(h, KeepRegion(m), Matches(m), ps);
  }

  /** The result is an order-preserving subsequence of the input, and a
      pharmacy is in it iff it is in the input and passes every check. */
  lemma FilterKeepsOrder(ps: seq<Fields>, criteria: Criteria)
    requires FilterPharmacies(ps, criteria).Success?
    ensures IsSubsequence(FilterPharmacies(ps, criteria).value, ps)
    ensures CriteriaTruthy(criteria) ==>
      forall p :: p in FilterPharmacies(ps, criteria).value <==> p in ps && Matches(criteria.value)(p)
  {
    if CriteriaTruthy(criteria) {
      FilterIsConjunction(ps, criteria.value);
      FilterIsSubsequence(Matches(criteria.value), ps);
    } else {
      SubsequenceOfSelf(ps);
    }
  }

  /** Filtering the result again with the same criteria changes nothing. */
  lemma FilterIdempotent(ps: seq<Fields>, criteria: Criteria)
    requires FilterPharmacies(ps, criteria).Success?
    ensures FilterPharmacies(FilterPharmacies(ps, criteria).value, criteria) == FilterPharmacies(ps, criteria)
  {
    if CriteriaTruthy(criteria) {
      var m := criteria.value;
      var r := FilterPharmacies(ps, criteria).value;
      FilterIsConjunction(ps, m);
      FilterIsConjunction(r, m);
      FilterAll(Matches(m), r);
    }
  }

  // ---------------------------------------------------------------------------
  // _get_matching_criteria
  // ---------------------------------------------------------------------------

  /** `pharmacy.get(key)` as an f-string shows it. */
  function Shown(p: Fields, key: string): string
  {
    if key in p then p[key] else "None"
  }

  // The five criteria `_get_matching_criteria` can find met. The list
  // criteria need a truthy value; the single-valued ones only a string.

  predicate RegionsMet(p: Fields, m: map<string, Criterion>)
  {
    Active(m, "regions_affected") && LowerIn(GetOrEmpty(p, "region"), Names(m["regions_affected"]))
  }

  predicate TypeMet(p: Fields, m: map<string, Criterion>)
  {
    Active(m, "pharmacy_type") && LowerIn(GetOrEmpty(p, "pharmacy_type"), Names(m["pharmacy_type"]))
  }

  predicate SingleMet(p: Fields, m: map<string, Criterion>, key: string)
  {
    key in m && m[key].CStr? && Lower(GetOrEmpty(p, key)) == Lower(m[key].s)
  }

  predicate IdMet(p: Fields, m: map<string, Criterion>)
  {
    "pharmacy_ids" in m && "id" in p && Contains(m["pharmacy_ids"], p["id"])
  }

  /** The label of a met criterion, nothing for one not met. */
  function Label(met: bool, text: string): seq<string>
  {
    if met then [text] else []
  }

  function SingleLabel(p: Fields, m: map<string, Criterion>, key: string, prefix: string): seq<string>
  {
    if SingleMet(p, m, key) then [prefix + m[key].s] else []
  }

  /** The labels of the met criteria, in the order the source tests them. */
  function MetLabels(p: Fields, m: map<string, Criterion>): seq<string>
  {
    Label(RegionsMet(p, m), "region: " + Shown(p, "region"))
      + Label(TypeMet(p, m), "type: " + Shown(p, "pharmacy_type"))
      + SingleLabel(p, m, "location", "location: ") + SingleLabel(p, m, "region", "region: ")
      + Label(IdMet(p, m), "specific ID match")
  }

  /** `_get_matching_criteria` raises: `.lower()` on a `location` or `region`
      that is not a string, `pharmacy['id']` on a pharmacy without one, or
      `in` on a None `pharmacy_ids`. */
  predicate LabelError(p: Fields, m: map<string, Criterion>)
  {
    || ("location" in m && !m["location"].CStr?)
    || ("region" in m && !m["region"].CStr?)
    || ("pharmacy_ids" in m && ("id" !in p || m["pharmacy_ids"].CNull?))
  }

  /** A single-valued check of `_get_matching_criteria`: no truthiness test,
      and `.lower()` on a value that is not a string raises AttributeError. */
  function MatchSingle(p: Fields, m: map<string, Criterion>, key: string, prefix: string)
    : (r: Result<seq<string>, PyError>)
    ensures key !in m ==> r == Success([])
    ensures r.Failure? <==> key in m && !m[key].CStr?
    ensures r.Failure? ==> r.error == AttributeError
    ensures r.Success? && r.value != [] ==> key in m && Lower(GetOrEmpty(p, key)) == Lower(m[key].s)
    ensures r.Success? ==> r.value == SingleLabel(p, m, key, prefix)
  {
    if key !in m then Success([])
    else match m[key]
      case CStr(s) => Success(if Lower(GetOrEmpty(p, key)) == Lower(s) then [prefix + s] else [])
      case _ => Failure(AttributeError)
  }

  /** The `pharmacy_ids` check: `pharmacy['id']` raises KeyError on a
      pharmacy without an id, `in` raises TypeError on None. */
  function IdLabel(p: Fields, m: map<string, Criterion>): (r: Result<seq<string>, PyError>)
    ensures r.Failure? <==> "pharmacy_ids" in m && ("id" !in p || m["pharmacy_ids"].CNull?)
    ensures "pharmacy_ids" in m && "id" !in p ==> r == Failure(KeyError("id"))
    ensures r.Success? ==> r.value == Label(IdMet(p, m), "specific ID match")
  {
    if "pharmacy_ids" !in m then Success([])
    else if "id" !in p then Failure(KeyError("id"))
    else if m["pharmacy_ids"].CNull? then Failure(TypeError)
    else Success(if Contains(m["pharmacy_ids"], p["id"]) then ["specific ID match"] else [])
  }

  /** `_get_matching_criteria`: the labels of the criteria this pharmacy
      meets, in the order region list, type, location, region, ids. */
  function GetMatchingCriteria(p: Fields, criteria: Criteria): (r: Result<seq<string>, PyError>)
    ensures criteria.None? ==> r == Failure(TypeError)
    ensures criteria.Some? ==> (r.Failure? <==> LabelError(p, criteria.value))
    ensures criteria.Some? && r.Success? ==> |r.value| <= 5
    ensures criteria.Some? && ("location" in criteria.value && !criteria.value["location"].CStr?) ==> r == Failure(AttributeError)
    ensures criteria.Some? && "pharmacy_ids" in criteria.value && "id" !in p ==>
      (r == Failure(KeyError("id")) || r == Failure(AttributeError))
    ensures r.Success? ==> r.value == MetLabels(p, criteria.value)
    ensures r.Success? ==> ("specific ID match" in r.value <==>
      "pharmacy_ids" in criteria.value && "id" in p && Contains(criteria.value["pharmacy_ids"], p["id"]))
  {
    match criteria
    case None => Failure(TypeError)
    case Some(m) =>
      var regions := Label(RegionsMet(p, m), "region: " + Shown(p, "region"));
      var types := Label(TypeMet(p, m), "type: " + Shown(p, "pharmacy_type"));
      var location :- MatchSingle(p, m, "location", "location: ");
      var region :- MatchSingle(p, m, "region", "region: ");
      var ids :- IdLabel(p, m);
      assert forall x :: x in regions + types + location + region ==> x != "specific ID match" by {
        LabelsAreNotIdMatch(p, m, regions, types, location, region);
      }
      Success(regions + types + location + region + ids)
  }

  lemma LabelsAreNotIdMatch(p: Fields, m: map<string, Criterion>, regions: seq<string>, types: seq<string>,
                            location: seq<string>, region: seq<string>)
    requires regions == [] || regions == ["region: " + Shown(p, "region")]
    requires types == [] || types == ["type: " + Shown(p, "pharmacy_type")]
    requires location == [] || exists s :: location == ["location: " + s]
    requires region == [] || exists s :: region == ["region: " + s]
    ensures forall x :: x in regions + types + location + region ==> x != "specific ID match"
  {
    forall x | x in regions + types + location + region
      ensures x != "specific ID match"
    {
      assert x[0] != 's';
    }
  }

  /** Every label names a criterion the pharmacy meets, and every criterion
      it meets is labelled. */
  lemma LabelsAreMetCriteria(p: Fields, m: map<string, Criterion>)
    requires GetMatchingCriteria(p, Some(m)).Success?
    ensures var labels := GetMatchingCriteria(p, Some(m)).value;
      forall x :: x in labels <==>
        || (RegionsMet(p, m) && x == "region: " + Shown(p, "region"))
        || (TypeMet(p, m) && x == "type: " + Shown(p, "pharmacy_type"))
        || (SingleMet(p, m, "location") && x == "location: " + m["location"].s)
        || (SingleMet(p, m, "region") && x == "region: " + m["region"].s)
        || (IdMet(p, m) && x == "specific ID match")
  {
    var a := Label(RegionsMet(p, m), "region: " + Shown(p, "region"));
    var b := Label(TypeMet(p, m), "type: " + Shown(p, "pharmacy_type"));
    var c := SingleLabel(p, m, "location", "location: ");
    var d := SingleLabel(p, m, "region", "region: ");
    var e := Label(IdMet(p, m), "specific ID match");
    assert GetMatchingCriteria(p, Some(m)).value == a + b + c + d + e;
    forall x
      ensures x in a + b + c + d + e <==> x in a || x in b || x in c || x in d || x in e
    {
    }
  }

  /** A pharmacy the filter keeps gets the label of every list criterion
      that is set, and of a string `location` / `region` criterion. */
  lemma KeptPharmacyIsLabelled(p: Fields, m: map<string, Criterion>)
    requires Matches(m)(p)
    requires GetMatchingCriteria(p, Some(m)).Success?
    ensures var labels := GetMatchingCriteria(p, Some(m)).value;
      && (Active(m, "regions_affected") ==> "region: " + Shown(p, "region") in labels)
      && (Active(m, "pharmacy_type") ==> "type: " + Shown(p, "pharmacy_type") in labels)
      && (Active(m, "location") && m["location"].CStr? ==> "location: " + m["location"].s in labels)
      && (Active(m, "pharmacy_ids") ==> "specific ID match" in labels)
  {
    var labels := GetMatchingCriteria(p, Some(m)).value;
    var regions := Label(RegionsMet(p, m), "region: " + Shown(p, "region"));
    var types := Label(TypeMet(p, m), "type: " + Shown(p, "pharmacy_type"));
    var location := SingleLabel(p, m, "location", "location: ");
    var region := SingleLabel(p, m, "region", "region: ");
    var ids := Label(IdMet(p, m), "specific ID match");
    assert labels == regions + types + location + region + ids;
    assert BeforeIds(m)(p) && KeepIds(m)(p);
    assert KeepRegions(m)(p) && KeepType(m)(p) && KeepLocation(m)(p);
    if Active(m, "location") && m["location"].CStr? {
      assert SingleValue(m, "location") == Some(m["location"].s);
      assert location == ["location: " + m["location"].s];
    }
  }

  // ---------------------------------------------------------------------------
  // send_alert
  // ---------------------------------------------------------------------------

  datatype TargetedResult = TargetedResult(
    drugName: string,
    criteria: Criteria,
    totalAvailable: nat,
    targetedCount: nat,
    deliveries: seq<Delivery>,
    counts: Option<(nat, nat)>,
    message: Option<string>)

  ghost predicate Fresh(before: seq<AgentReceipt>, after: seq<AgentReceipt>, stamp: string, nowIso: string, criteria: Criteria)
  {
    AppendedFresh(before, after, stamp, nowIso, "targeted", Some(criteria))
  }

  /** A pharmacy for which a receipt is appended: the message can be built,
      the criteria are a dictionary, and the pharmacy has an `id`. */
  function Receipted(report: Fields, criteria: Criteria): Fields -> bool
  {
    (p: Fields) => CreateMessage(report, p).Success? && criteria.Some? && "id" in p
  }

  /** A pharmacy reported as `sent`: receipted, and its matching labels
      could be computed. */
  function Delivered(report: Fields, criteria: Criteria): Fields -> bool
  {
    (p: Fields) => Receipted(report, criteria)(p) && GetMatchingCriteria(p, criteria).Success?
  }

  /** The loop body. `_create_targeted_message` tests `key in criteria`, so
      None criteria raise TypeError inside the `try`; a failure of
      `_get_matching_criteria` comes after the receipt was appended. */
  function SendOne(a: Agent, report: Fields, p: Fields, criteria: Criteria, respond: Fields -> string,
                   stamp: string, nowIso: string): (out: (Agent, Result<Delivery, PyError>))
    ensures out.1.Failure? <==> "name" !in p
    ensures out.1.Failure? ==> out.1.error == KeyError("name") && out.0 == a
    ensures out.1.Success? ==> out.1.value.pharmacy == p["name"]
    ensures out.1.Success? ==> (out.1.value.Sent? <==> Delivered(report, criteria)(p))
    ensures Receipted(report, criteria)(p) ==>
      out.0 == Agent(a.receipts + [NewReceipt(report, p, ReceiptId(stamp, |a.receipts|), nowIso, "targeted", Some(criteria))])
    ensures !Receipted(report, criteria)(p) ==> out.0 == a
    ensures out.1.Success? && out.1.value.Sent? ==>
      && out.1.value.receiptId == ReceiptId(stamp, |a.receipts|)
      && out.1.value.response == Truncate(respond(p))
      && out.1.value.matched == GetMatchingCriteria(p, criteria).value
  {
    match CreateMessage(report, p)
    case Failure(e) =>
      assert !Receipted(report, criteria)(p) && !Delivered(report, criteria)(p);
      if "name" in p then (a, Success(FailedDelivery(p["name"], e))) else (a, Failure(KeyError("name")))
    case Success(_) =>
      if criteria.None? then
        assert !Receipted(report, criteria)(p);
        (a, Success(FailedDelivery(p["name"], TypeError)))
      else
        var response := respond(p);
        var rid := ReceiptId(stamp, |a.receipts|);
        if "id" !in p then
          assert !Receipted(report, criteria)(p);
          (a, Success(FailedDelivery(p["name"], KeyError("id"))))
        else
          var a' := Agent(a.receipts + [NewReceipt(report, p, rid, nowIso, "targeted", Some(criteria))]);
          assert Receipted(report, criteria)(p);
          match GetMatchingCriteria(p, criteria)
          case Failure(e) => (a', Success(FailedDelivery(p["name"], e)))
          case Success(labels) => (a', Success(Sent(p["name"], rid, Truncate(response), labels)))
  }

  /** The loop over the targeted pharmacies, in order. */
  function SendAll(a: Agent, report: Fields, ps: seq<Fields>, criteria: Criteria, respond: Fields -> string,
                   stamp: string, nowIso: string): (out: (Agent, Result<seq<Delivery>, PyError>))
    ensures Fresh(a.receipts, out.0.receipts, stamp, nowIso, criteria)
    ensures out.1.Success? <==> forall k :: 0 <= k < |ps| ==> "name" in ps[k]
    ensures out.1.Success? ==> |out.1.value| == |ps|
    ensures out.1.Failure? ==> out.1.error == KeyError("name")
    decreases |ps|
  {
    if ps == [] then (a, Success([]))
    else
      var one := SendOne(a, report, ps[0], criteria, respond, stamp, nowIso);
      assert Fresh(a.receipts, one.0.receipts, stamp, nowIso, criteria);
      match one.1
      case Failure(e) => (one.0, Failure(e))
      case Success(d) =>
        var rest := SendAll(one.0, report, ps[1..], criteria, respond, stamp, nowIso);
        AppendedFreshTrans(a.receipts, one.0.receipts, rest.0.receipts, stamp, nowIso, "targeted", Some(criteria));
        assert forall k :: 1 <= k < |ps| ==> ps[k] == ps[1..][k - 1];
        match rest.1
        case Failure(e) => (rest.0, Failure(e))
        case Success(ds) => (rest.0, Success([d] + ds))
  }

  /** A completed loop has one delivery per pharmacy, `Sent` exactly for
      the delivered ones, and one new receipt per receipted pharmacy. */
  lemma {:induction false} SendAllDeliveries(a: Agent, report: Fields, ps: seq<Fields>, criteria: Criteria,
                                             respond: Fields -> string, stamp: string, nowIso: string)
    requires SendAll(a, report, ps, criteria, respond, stamp, nowIso).1.Success?
    ensures var out := SendAll(a, report, ps, criteria, respond, stamp, nowIso);
      var ds := out.1.value;
      && |ds| == |ps|
      && (forall k :: 0 <= k < |ps| ==> ds[k].pharmacy == ps[k]["name"])
      && (forall k :: 0 <= k < |ps| ==> (ds[k].Sent? <==> Delivered(report, criteria)(ps[k])))
      && |out.0.receipts| - |a.receipts| == |Filter(Receipted(report, criteria), ps)|
    decreases |ps|
  {
    if ps != [] {
      var one := SendOne(a, report, ps[0], criteria, respond, stamp, nowIso);
      var d := one.1.value;
      var rest := SendAll(one.0, report, ps[1..], criteria, respond, stamp, nowIso);
      SendAllDeliveries(one.0, report, ps[1..], criteria, respond, stamp, nowIso);
      var ds := rest.1.value;
      assert SendAll(a, report, ps, criteria, respond, stamp, nowIso) == (rest.0, Success([d] + ds));
      assert ([d] + ds)[1..] == ds;
      assert forall k :: 1 <= k < |ps| ==> ps[k] == ps[1..][k - 1];
    }
  }

  /** A completed loop appends exactly the receipts of the receipted
      pharmacies, in the order of the list. */
  lemma {:induction false} SendAllReceipts(a: Agent, report: Fields, ps: seq<Fields>, criteria: Criteria, respond: Fields -> string, stamp: string, nowIso: string)
    requires SendAll(a, report, ps, criteria, respond, stamp, nowIso).1.Success?
    ensures Addressable(report, Filter(Receipted(report, criteria), ps))
    ensures SendAll(a, report, ps, criteria, respond, stamp, nowIso).0.receipts
         == a.receipts + FreshReceipts(report, Filter(Receipted(report, criteria), ps), |a.receipts|, stamp, nowIso, "targeted", Some(criteria))
    decreases |ps|
  {
    var sent := Filter(Receipted(report, criteria), ps);
    if ps == [] {
      assert a.receipts + FreshReceipts(report, sent, |a.receipts|, stamp, nowIso, "targeted", Some(criteria)) == a.receipts;
    } else {
      var one := SendOne(a, report, ps[0], criteria, respond, stamp, nowIso);
      var rest := SendAll(one.0, report, ps[1..], criteria, respond, stamp, nowIso);
      assert SendAll(a, report, ps, criteria, respond, stamp, nowIso).0 == rest.0;
      SendAllReceipts(one.0, report, ps[1..], criteria, respond, stamp, nowIso);
      var tail := Filter(Receipted(report, criteria), ps[1..]);
      var n := |a.receipts|;
      assert sent == (if Receipted(report, criteria)(ps[0]) then [ps[0]] + tail else tail) by {
        assert [ps[0]] + ps[1..] == ps;
        FilterCons(Receipted(report, criteria), ps[0], ps[1..]);
      }
      if Receipted(report, criteria)(ps[0]) {
        var r0 := NewReceipt(report, ps[0], ReceiptId(stamp, n), nowIso, "targeted", Some(criteria));
        var more := FreshReceipts(report, tail, n + 1, stamp, nowIso, "targeted", Some(criteria));
        assert one.0.receipts == a.receipts + [r0];
        assert rest.0.receipts == (a.receipts + [r0]) + more;
        FreshReceiptsCons(report, ps[0], tail, n, stamp, nowIso, "targeted", Some(criteria));
        AppendAssoc(a.receipts, [r0], more);
      } else {
        assert one.0 == a;
      }
    }
  }

  /** One turn of a completed loop: the first pharmacy's delivery, then the
      rest of the loop from the agent it leaves. */
  lemma SendAllStep(a: Agent, report: Fields, ps: seq<Fields>, criteria: Criteria, respond: Fields -> string, stamp: string, nowIso: string)
    requires SendAll(a, report, ps, criteria, respond, stamp, nowIso).1.Success? && ps != []
    ensures var one := SendOne(a, report, ps[0], criteria, respond, stamp, nowIso);
      var rest := SendAll(one.0, report, ps[1..], criteria, respond, stamp, nowIso);
      && one.1.Success? && rest.1.Success?
      && |one.0.receipts| == |a.receipts| + (if Receipted(report, criteria)(ps[0]) then 1 else 0)
      && SendAll(a, report, ps, criteria, respond, stamp, nowIso).0 == rest.0
      && SendAll(a, report, ps, criteria, respond, stamp, nowIso).1.value == [one.1.value] + rest.1.value
  {
  }

  /** The first delivery of a completed loop, when `sent`, names the first
      receipt appended. */
  lemma SendAllHeadId(a: Agent, report: Fields, ps: seq<Fields>, criteria: Criteria, respond: Fields -> string, stamp: string, nowIso: string)
    requires SendAll(a, report, ps, criteria, respond, stamp, nowIso).1.Success? && ps != []
    ensures var out := SendAll(a, report, ps, criteria, respond, stamp, nowIso);
      out.1.value[0].Sent? ==> |a.receipts| < |out.0.receipts| && out.1.value[0].receiptId == out.0.receipts[|a.receipts|].id
  {
    var one := SendOne(a, report, ps[0], criteria, respond, stamp, nowIso);
    var rest := SendAll(one.0, report, ps[1..], criteria, respond, stamp, nowIso);
    assert SendAll(a, report, ps, criteria, respond, stamp, nowIso) == (rest.0, Success([one.1.value] + rest.1.value));
    if one.1.value.Sent? {
      assert rest.0.receipts[..|one.0.receipts|] == one.0.receipts;
      assert rest.0.receipts[|a.receipts|] == one.0.receipts[|a.receipts|];
    }
  }

  /** In a completed loop, a `sent` delivery names the receipt that follows
      those of the receipted pharmacies before it. */
  lemma {:induction false} SendAllReceiptIdAt(a: Agent, report: Fields, ps: seq<Fields>, criteria: Criteria, respond: Fields -> string,
                                              stamp: string, nowIso: string, k: nat)
    requires SendAll(a, report, ps, criteria, respond, stamp, nowIso).1.Success? && k < |ps|
    ensures |SendAll(a, report, ps, criteria, respond, stamp, nowIso).1.value| == |ps|
    ensures var out := SendAll(a, report, ps, criteria, respond, stamp, nowIso);
      var j := |a.receipts| + |Filter(Receipted(report, criteria), ps[..k])|;
      out.1.value[k].Sent? ==> j < |out.0.receipts| && out.1.value[k].receiptId == out.0.receipts[j].id
    decreases k
  {
    var j := |a.receipts| + |Filter(Receipted(report, criteria), ps[..k])|;
    if k == 0 {
      assert ps[..k] == [];
      SendAllHeadId(a, report, ps, criteria, respond, stamp, nowIso);
    } else {
      SendAllStep(a, report, ps, criteria, respond, stamp, nowIso);
      var one := SendOne(a, report, ps[0], criteria, respond, stamp, nowIso);
      var rest := SendAll(one.0, report, ps[1..], criteria, respond, stamp, nowIso);
      SendAllReceiptIdAt(one.0, report, ps[1..], criteria, respond, stamp, nowIso, k - 1);
      FilterPrefixCons(Receipted(report, criteria), ps, k);
      assert j == |one.0.receipts| + |Filter(Receipted(report, criteria), ps[1..][..k - 1])|;
      SentIdShift(one.1.value, rest.1.value, rest.0.receipts, k, j);
    }
  }

  /** In a completed loop, a receipted pharmacy gets the receipt that
      follows those of the receipted pharmacies before it, and its
      delivery, when `sent`, reports that receipt's id. */
  lemma ReceiptedPharmacyGetsItsReceipt(a: Agent, report: Fields, ps: seq<Fields>, criteria: Criteria, respond: Fields -> string,
                                        stamp: string, nowIso: string, k: nat)
    requires SendAll(a, report, ps, criteria, respond, stamp, nowIso).1.Success?
    requires k < |ps| && Receipted(report, criteria)(ps[k])
    ensures |SendAll(a, report, ps, criteria, respond, stamp, nowIso).1.value| == |ps|
    ensures var out := SendAll(a, report, ps, criteria, respond, stamp, nowIso);
      var j := |a.receipts| + |Filter(Receipted(report, criteria), ps[..k])|;
      && j < |out.0.receipts|
      && out.0.receipts[j] == NewReceipt(report, ps[k], ReceiptId(stamp, j), nowIso, "targeted", Some(criteria))
      && (out.1.value[k].Sent? <==> Delivered(report, criteria)(ps[k]))
      && (out.1.value[k].Sent? ==> out.1.value[k].receiptId == out.0.receipts[j].id == ReceiptId(stamp, j))
  {
    SendAllDeliveries(a, report, ps, criteria, respond, stamp, nowIso);
    SendAllReceipts(a, report, ps, criteria, respond, stamp, nowIso);
    FilterPrefixIndex(Receipted(report, criteria), ps, k);
    SendAllReceiptIdAt(a, report, ps, criteria, respond, stamp, nowIso, k);
    var out := SendAll(a, report, ps, criteria, respond, stamp, nowIso);
    var receipted := Filter(Receipted(report, criteria), ps);
    var i := |Filter(Receipted(report, criteria), ps[..k])|;
    var j := |a.receipts| + i;
    assert out.0.receipts[j] == FreshReceipts(report, receipted, |a.receipts|, stamp, nowIso, "targeted", Some(criteria))[i];
    assert receipted[i] == ps[k];
  }

  const NoMatchMessage := "No pharmacies matched the target criteria"

  /** `send_alert`: filter, read `drug_name`, then either report that
      nothing matched or deliver to each targeted pharmacy. */
  function SendAlert(a: Agent, report: Fields, ps: seq<Fields>, criteria: Criteria, respond: Fields -> string,
                     stamp: string, nowIso: string): (out: AlertOutcome<TargetedResult>)
    ensures FilterPharmacies(ps, criteria).Failure? ==> out == AlertOutcome(a, Failure(FilterPharmacies(ps, criteria).error))
    ensures FilterPharmacies(ps, criteria).Success? && "drug_name" !in report ==> out == AlertOutcome(a, Failure(KeyError("drug_name")))
    ensures Fresh(a.receipts, out.agent.receipts, stamp, nowIso, criteria)
    ensures out.result.Success? ==>
      var r := out.result.value;
      var targeted := FilterPharmacies(ps, criteria).value;
      && r.totalAvailable == |ps| && r.targetedCount == |targeted|
      && (targeted == [] <==> r.message == Some(NoMatchMessage))
      && (targeted == [] ==> r.deliveries == [] && r.counts.None? && out.agent == a)
      && (targeted != [] ==>
            && r.counts.Some? && |r.deliveries| == |targeted|
            && r.counts.value.0 == |Filter(IsSent, r.deliveries)|
            && r.counts.value.1 == |Filter(IsFailedDelivery, r.deliveries)|
            && r.counts.value.0 + r.counts.value.1 == |r.deliveries|)
    ensures out.result.Success? ==>
      var receipted := Filter(Receipted(report, criteria), FilterPharmacies(ps, criteria).value);
      && Addressable(report, receipted)
      && out.agent.receipts == a.receipts + FreshReceipts(report, receipted, |a.receipts|, stamp, nowIso, "targeted", Some(criteria))
  {
    match FilterPharmacies(ps, criteria)
    case Failure(e) => AlertOutcome(a, Failure(e))
    case Success(targeted) =>
      match Lookup(report, "drug_name")
      case Failure(e) => AlertOutcome(a, Failure(e))
      case Success(drugName) =>
        if targeted == [] then
          assert a.receipts + FreshReceipts(report, Filter(Receipted(report, criteria), targeted), |a.receipts|, stamp, nowIso, "targeted", Some(criteria))
              == a.receipts;
          AlertOutcome(a, Success(TargetedResult(drugName, criteria, |ps|, 0, [], None, Some(NoMatchMessage))))
        else
          var (a', res) := SendAll(a, report, targeted, criteria, respond, stamp, nowIso);
          match res
          case Failure(e) => AlertOutcome(a', Failure(e))
          case Success(ds) =>
            SendAllDeliveries(a, report, targeted, criteria, respond, stamp, nowIso);
            SendAllReceipts(a, report, targeted, criteria, respond, stamp, nowIso);
            AlertOutcome(a', Success(TargetedResult(drugName, criteria, |ps|, |targeted|, ds, Some(CountDeliveries(ds)), None)))
  }

  /** With None criteria nothing is filtered out and every named pharmacy's
      delivery fails with TypeError; no receipt is written. */
  lemma NoneCriteriaFailEverywhere(a: Agent, report: Fields, ps: seq<Fields>, respond: Fields -> string,
                                   stamp: string, nowIso: string)
    requires ps != [] && "drug_name" in report
    requires forall k :: 0 <= k < |ps| ==> "name" in ps[k]
    ensures var out := SendAlert(a, report, ps, None, respond, stamp, nowIso);
      && out.agent == a
      && out.result.Success?
      && out.result.value.counts == Some((0, |ps|))
  {
    var (a', res) := SendAll(a, report, ps, None, respond, stamp, nowIso);
    SendAllDeliveries(a, report, ps, None, respond, stamp, nowIso);
    FilterNone(Receipted(report, None), ps);
    var ds := res.value;
    FilterNone(IsSent, ds);
    FilterAll(IsFailedDelivery, ds);
  }

  /** Every `sent` delivery has its receipt, and when the matching labels
      cannot fail (string `location` / `region`, `pharmacy_ids` not None)
      the receipts written equal the success count. */
  lemma ReceiptsCoverSuccesses(a: Agent, report: Fields, ps: seq<Fields>, criteria: Criteria, respond: Fields -> string,
                               stamp: string, nowIso: string)
    requires var out := SendAlert(a, report, ps, criteria, respond, stamp, nowIso);
      out.result.Success? && out.result.value.counts.Some?
    ensures var out := SendAlert(a, report, ps, criteria, respond, stamp, nowIso);
      out.result.value.counts.value.0 <= |out.agent.receipts| - |a.receipts|
    ensures var out := SendAlert(a, report, ps, criteria, respond, stamp, nowIso);
      criteria.Some?
      && ("location" in criteria.value ==> criteria.value["location"].CStr?)
      && ("region" in criteria.value ==> criteria.value["region"].CStr?)
      && ("pharmacy_ids" in criteria.value ==> !criteria.value["pharmacy_ids"].CNull?)
      ==> out.result.value.counts.value.0 == |out.agent.receipts| - |a.receipts|
  {
    var targeted := FilterPharmacies(ps, criteria).value;
    var out := SendAlert(a, report, ps, criteria, respond, stamp, nowIso);
    SendAllDeliveries(a, report, targeted, criteria, respond, stamp, nowIso);
    var ds := out.result.value.deliveries;
    SentMatchesDelivered(ds, targeted, report, criteria);
    FilterImplies(Delivered(report, criteria), Receipted(report, criteria), targeted);
    if criteria.Some?
      && ("location" in criteria.value ==> criteria.value["location"].CStr?)
      && ("region" in criteria.value ==> criteria.value["region"].CStr?)
      && ("pharmacy_ids" in criteria.value ==> !criteria.value["pharmacy_ids"].CNull?)
    {
      forall p | Receipted(report, criteria)(p)
        ensures Delivered(report, criteria)(p)
      {
      }
      FilterCongruent(Delivered(report, criteria), Receipted(report, criteria), targeted);
    }
  }

  /** Counting `Sent` deliveries counts the delivered pharmacies. */
  lemma {:induction false} SentMatchesDelivered(ds: seq<Delivery>, ps: seq<Fields>, report: Fields, criteria: Criteria)
    requires |ds| == |ps|
    requires forall k :: 0 <= k < |ps| ==> (ds[k].Sent? <==> Delivered(report, criteria)(ps[k]))
    ensures |Filter(IsSent, ds)| == |Filter(Delivered(report, criteria), ps)|
  {
    if ps != [] {
      assert forall k :: 1 <= k < |ps| ==> ps[k] == ps[1..][k - 1] && ds[k] == ds[1..][k - 1];
      SentMatchesDelivered(ds[1..], ps[1..], report, criteria);
    }
  }

  /** A filter by a stronger predicate keeps no more. */
  lemma {:induction false} FilterImplies(f: Fields -> bool, g: Fields -> bool, ps: seq<Fields>)
    requires forall p :: f(p) ==> g(p)
    ensures |Filter(f, ps)| <= |Filter(g, ps)|
  {
    if ps != [] {
      FilterImplies(f, g, ps[1..]);
    }
  }
}
