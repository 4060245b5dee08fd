/** `DrugReport` (models/drug_report.py): one drug safety alert, its severity
    ranking, its expiry test and its dictionary form. The clock and the ISO
    date parser are parameters: `now` is the current time and `parse` stands
    for `datetime.fromisoformat` (None for a string it rejects). */
module DrugReports {
  import opened Wrappers
  import opened PyValues
  import opened Text

  /** The fields `from_dict` reads with a bare `data.get` may hold None. */
  datatype DrugReport = DrugReport(
    id: Option<string>,
    drugName: Option<string>,
    alertType: Option<string>,
    severity: Option<string>,
    description: Option<string>,
    actionRequired: Option<string>,
    createdAt: string,
    createdBy: Option<string>,
    updatedAt: Option<string>,
    updatedBy: Option<string>,
    expirationDate: Option<string>,
    affectedBatches: Option<seq<Value>>,
    manufacturer: Option<string>,
    regionsAffected: Option<seq<Value>>)

  // ---------------------------------------------------------------------------
  // Severity
  // ---------------------------------------------------------------------------

  /** The ranking table of `get_severity_level`, keyed by lower-case name. */
  const SeverityLevels: map<string, nat> := map["critical" := 4, "high" := 3, "medium" := 2, "low" := 1]

  /** The name ranked `level` in the table. */
  function SeverityName(level: nat): string
    requires 1 <= level <= 4
  {
    if level == 4 then "critical" else if level == 3 then "high" else if level == 2 then "medium" else "low"
  }

  /** `get_severity_level`: the rank of the lower-cased severity, 0 for a name
      the table does not know; a missing severity raises AttributeError
      (`None.lower()`). */
  function GetSeverityLevel(r: DrugReport): (lvl: Result<nat, PyError>)
    ensures r.severity.None? <==> lvl == Failure(AttributeError)
    ensures r.severity.Some? ==> lvl.Success? && lvl.value <= 4
    ensures r.severity.Some? ==> (lvl.value == 0 <==> Lower(r.severity.value) !in SeverityLevels)
  {
    match r.severity
    case None => Failure(AttributeError)
    case Some(s) =>
      var key := Lower(s);
      Success(if key in SeverityLevels then SeverityLevels[key] else 0)
  }

  /** Every ranked name, in any letter case, is ranked at its level. */
  lemma SeverityNameRanks(r: DrugReport, level: nat)
    requires 1 <= level <= 4
    requires r.severity.Some? && Lower(r.severity.value) == SeverityName(level)
    ensures GetSeverityLevel(r) == Success(level)
  {
  }

  /** The ranking ignores letter case: two severities that differ only in the
      case of ASCII letters get the same level. */
  lemma SeverityIgnoresCase(r: DrugReport, s: string)
    requires r.severity.Some? && EqualsIgnoringCase(r.severity.value, s)
    ensures GetSeverityLevel(r.(severity := Some(s))) == GetSeverityLevel(r)
  {
  }

  /** A positive level names exactly one table entry, so the level can be
      turned back into the lower-cased severity. */
  lemma SeverityLevelNamesSeverity(r: DrugReport)
    requires GetSeverityLevel(r).Success? && GetSeverityLevel(r).value > 0
    ensures 1 <= GetSeverityLevel(r).value <= 4
    ensures Lower(r.severity.value) == SeverityName(GetSeverityLevel(r).value)
  {
  }

  // ---------------------------------------------------------------------------
  // Expiry
  // ---------------------------------------------------------------------------

  /** `is_expired`: never without a (non-empty) expiration date; a date the
      parser rejects raises ValueError; otherwise expired exactly when `now`
      lies strictly after it. */
  function IsExpired(r: DrugReport, now: int, parse: string -> Option<int>): (e: Result<bool, PyError>)
    ensures !Truthy(r.expirationDate) ==> e == Success(false)
    ensures Truthy(r.expirationDate) && parse(r.expirationDate.value).None? ==> e == Failure(ValueError)
    ensures e.Success? && e.value <==>
      Truthy(r.expirationDate) && parse(r.expirationDate.value).Some? && now > parse(r.expirationDate.value).value
  {
    if !Truthy(r.expirationDate) then Success(false)
    else match parse(r.expirationDate.value)
      case None => Failure(ValueError)
      case Some(expiry) => Success(now > expiry)
  }

  /** Once expired, a report stays expired as time goes on. */
  lemma ExpiredStaysExpired(r: DrugReport, now: int, later: int, parse: string -> Option<int>)
    requires now <= later
    requires IsExpired(r, now, parse) == Success(true)
    ensures IsExpired(r, later, parse) == Success(true)
  {
  }

  /** Whether the test raises does not depend on the clock. */
  lemma ExpiryErrorIndependentOfClock(r: DrugReport, now: int, other: int, parse: string -> Option<int>)
    ensures IsExpired(r, now, parse).Success? <==> IsExpired(r, other, parse).Success?
  {
  }

  // ---------------------------------------------------------------------------
  // Dictionary form
  // ---------------------------------------------------------------------------

  /** `to_dict`: all fourteen fields under their snake_case keys. */
  function ToDict(r: DrugReport): Dict
  {
    map[
      "id" := OptStrValue(r.id),
      "drug_name" := OptStrValue(r.drugName),
      "alert_type" := OptStrValue(r.alertType),
      "severity" := OptStrValue(r.severity),
      "description" := OptStrValue(r.description),
      "action_required" := OptStrValue(r.actionRequired),
      "created_at" := JStr(r.createdAt),
      "created_by" := OptStrValue(r.createdBy),
      "updated_at" := OptStrValue(r.updatedAt),
      "updated_by" := OptStrValue(r.updatedBy),
      "expiration_date" := OptStrValue(r.expirationDate),
      "affected_batches" := OptListValue(r.affectedBatches),
      "manufacturer" := OptStrValue(r.manufacturer),
      "regions_affected" := OptListValue(r.regionsAffected)]
  }

  /** Every key `from_dict` reads is missing or holds a value of its
      field's kind. */
  predicate Decodable(d: Dict)
  {
    && OptStrOk(d, "id") && OptStrOk(d, "drug_name") && OptStrOk(d, "alert_type")
    && OptStrOk(d, "severity") && OptStrOk(d, "description") && OptStrOk(d, "action_required")
    && StrOk(d, "created_at") && OptStrOk(d, "created_by") && OptStrOk(d, "updated_at")
    && OptStrOk(d, "updated_by") && OptStrOk(d, "expiration_date") && OptListOk(d, "affected_batches")
    && OptStrOk(d, "manufacturer") && OptListOk(d, "regions_affected")
  }

  /** `from_dict`: a missing `created_at` is the current time; every other
      missing field is None; a value of the wrong kind is rejected. */
  function FromDict(d: Dict, nowIso: string): (r: Result<DrugReport, DecodeError>)
    ensures r.Success? && "created_at" !in d ==> r.value.createdAt == nowIso
    ensures r.Success? && "severity" !in d ==> r.value.severity.None?
    ensures r.Success? && "expiration_date" !in d ==> r.value.expirationDate.None?
    ensures r.Success? <==> Decodable(d)
    ensures r.Success? && "created_at" in d ==> d["created_at"] == JStr(r.value.createdAt)
    ensures r.Success? ==> r.value.id == OptStrAt(d, "id")
    ensures r.Success? ==> r.value.drugName == OptStrAt(d, "drug_name")
    ensures r.Success? ==> r.value.alertType == OptStrAt(d, "alert_type")
    ensures r.Success? ==> r.value.severity == OptStrAt(d, "severity")
    ensures r.Success? ==> r.value.description == OptStrAt(d, "description")
    ensures r.Success? ==> r.value.actionRequired == OptStrAt(d, "action_required")
    ensures r.Success? ==> r.value.createdBy == OptStrAt(d, "created_by")
    ensures r.Success? ==> r.value.updatedAt == OptStrAt(d, "updated_at")
    ensures r.Success? ==> r.value.updatedBy == OptStrAt(d, "updated_by")
    ensures r.Success? ==> r.value.expirationDate == OptStrAt(d, "expiration_date")
    ensures r.Success? ==> r.value.manufacturer == OptStrAt(d, "manufacturer")
    ensures r.Success? ==> OptListValue(r.value.affectedBatches) == Get(d, "affected_batches")
    ensures r.Success? ==> OptListValue(r.value.regionsAffected) == Get(d, "regions_affected")
  {
    var id :- ReadOptStr(d, "id");
    var drugName :- ReadOptStr(d, "drug_name");
    var alertType :- ReadOptStr(d, "alert_type");
    var severity :- ReadOptStr(d, "severity");
    var description :- ReadOptStr(d, "description");
    var actionRequired :- ReadOptStr(d, "action_required");
    var createdAt :- ReadStr(d, "created_at", nowIso);
    var createdBy :- ReadOptStr(d, "created_by");
    var updatedAt :- ReadOptStr(d, "updated_at");
    var updatedBy :- ReadOptStr(d, "updated_by");
    var expirationDate :- ReadOptStr(d, "expiration_date");
    var affectedBatches :- ReadOptList(d, "affected_batches");
    var manufacturer :- ReadOptStr(d, "manufacturer");
    var regionsAffected :- ReadOptList(d, "regions_affected");
    Success(DrugReport(id, drugName, alertType, severity, description, actionRequired, createdAt,
                       createdBy, updatedAt, updatedBy, expirationDate, affectedBatches,
                       manufacturer, regionsAffected))
  }

  /** `from_dict(to_dict(r)) == r`, whatever the clock. */
  lemma RoundTrip(r: DrugReport, nowIso: string)
    ensures FromDict(ToDict(r), nowIso) == Success(r)
  {
    var d := ToDict(r);
    ReadOptStrOf(d, "id", r.id);
    ReadOptStrOf(d, "drug_name", r.drugName);
    ReadOptStrOf(d, "alert_type", r.alertType);
    ReadOptStrOf(d, "severity", r.severity);
    ReadOptStrOf(d, "description", r.description);
    ReadOptStrOf(d, "action_required", r.actionRequired);
    ReadStrOf(d, "created_at", nowIso, r.createdAt);
    ReadOptStrOf(d, "created_by", r.createdBy);
    ReadOptStrOf(d, "updated_at", r.updatedAt);
    ReadOptStrOf(d, "updated_by", r.updatedBy);
    ReadOptStrOf(d, "expiration_date", r.expirationDate);
    ReadOptListOf(d, "affected_batches", r.affectedBatches);
    ReadOptStrOf(d, "manufacturer", r.manufacturer);
    ReadOptListOf(d, "regions_affected", r.regionsAffected);
  }
}
