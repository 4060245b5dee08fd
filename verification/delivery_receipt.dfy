/** `DeliveryReceipt` (models/delivery_receipt.py): one delivery of one alert
    to one pharmacy, with its retry state machine and its dictionary form.
    Timestamps are the ISO strings the class stores; the clock is the
    parameter `nowIso`. */
module DeliveryReceipts {
  import opened Wrappers
  import opened PyValues

  /** The fields `from_dict` reads with a bare `data.get` may hold None. */
  datatype DeliveryReceipt = DeliveryReceipt(
    id: Option<string>,
    pharmacyId: Option<string>,
    pharmacyName: Option<string>,
    drugName: Option<string>,
    sentAt: string,
    status: string,
    agentType: Option<string>,
    acknowledgedAt: Option<string>,
    failedAt: Option<string>,
    failureReason: Option<string>,
    attempts: int,
    maxAttempts: int,
    targetCriteria: Option<Dict>,
    responseMessage: Option<string>)

  const DefaultStatus := "pending"
  const DefaultAttempts := 1
  const DefaultMaxAttempts := 3

  // ---------------------------------------------------------------------------
  // Status tests
  // ---------------------------------------------------------------------------

  predicate IsPending(r: DeliveryReceipt) { r.status == "pending" }
  predicate IsAcknowledged(r: DeliveryReceipt) { r.status == "acknowledged" }
  predicate IsFailed(r: DeliveryReceipt) { r.status == "failed" }

  /** `can_retry`: attempts left and a status that asks for a retry. */
  predicate CanRetry(r: DeliveryReceipt)
  {
    r.attempts < r.maxAttempts && (r.status == "retry_pending" || r.status == "failed")
  }

  /** The three status tests are pairwise exclusive, and a `retry_pending`
      receipt satisfies none of them. */
  lemma StatusesExclusive(r: DeliveryReceipt)
    ensures !(IsPending(r) && IsAcknowledged(r))
    ensures !(IsPending(r) && IsFailed(r))
    ensures !(IsAcknowledged(r) && IsFailed(r))
    ensures r.status == "retry_pending" ==> !IsPending(r) && !IsAcknowledged(r) && !IsFailed(r)
  {
  }

  // ---------------------------------------------------------------------------
  // Transitions
  // ---------------------------------------------------------------------------

  /** `mark_acknowledged`: status `acknowledged`, stamped `nowIso`. */
  function MarkAcknowledged(r: DeliveryReceipt, nowIso: string): (r': DeliveryReceipt)
    ensures IsAcknowledged(r') && r'.acknowledgedAt == Some(nowIso)
    ensures r' == r.(status := r'.status, acknowledgedAt := r'.acknowledgedAt)
  {
    r.(status := "acknowledged", acknowledgedAt := Some(nowIso))
  }

  /** `mark_failed`: always records the reason and a failure time; the status
      becomes `failed` once the attempts are used up and `retry_pending`
      otherwise. The attempt count does not change. */
  function MarkFailed(r: DeliveryReceipt, reason: string, nowIso: string): (r': DeliveryReceipt)
    ensures r'.failureReason == Some(reason) && r'.failedAt == Some(nowIso)
    ensures r'.attempts == r.attempts && r'.maxAttempts == r.maxAttempts
    ensures IsFailed(r') <==> r.attempts >= r.maxAttempts
    ensures !IsFailed(r') ==> r'.status == "retry_pending"
    ensures r' == r.(status := r'.status, failedAt := r'.failedAt, failureReason := r'.failureReason)
  {
    var r1 := r.(failedAt := Some(nowIso), failureReason := Some(reason));
    if r1.attempts >= r1.maxAttempts then r1.(status := "failed") else r1.(status := "retry_pending")
  }

  /** `increment_attempts`: one more attempt; the flag says whether another
      retry is still allowed. */
  function IncrementAttempts(r: DeliveryReceipt): (out: (DeliveryReceipt, bool))
    ensures out.0 == r.(attempts := r.attempts + 1)
    ensures out.1 <==> out.0.attempts < r.maxAttempts
  {
    var r' := r.(attempts := r.attempts + 1);
    (r', r'.attempts < r'.maxAttempts)
  }

  /** Right after `mark_failed`, a retry is possible exactly when attempts are
      left (the receipt is then `retry_pending`; a `failed` one has none). */
  lemma CanRetryAfterFailure(r: DeliveryReceipt, reason: string, nowIso: string)
    ensures CanRetry(MarkFailed(r, reason, nowIso)) <==> r.attempts < r.maxAttempts
    ensures IsFailed(MarkFailed(r, reason, nowIso)) ==> !CanRetry(MarkFailed(r, reason, nowIso))
  {
  }

  /** After `mark_acknowledged` the receipt is acknowledged and can no longer
      be retried. */
  lemma AcknowledgedAfterMark(r: DeliveryReceipt, nowIso: string)
    ensures IsAcknowledged(MarkAcknowledged(r, nowIso))
    ensures !IsPending(MarkAcknowledged(r, nowIso)) && !CanRetry(MarkAcknowledged(r, nowIso))
  {
  }

  /** A caller that keeps calling `increment_attempts` while it returns True
      (no such caller is part of the source), starting below the limit, gets
      True exactly `maxAttempts - attempts - 1` times and stops with
      `attempts == maxAttempts`. */
  function RetryRounds(r: DeliveryReceipt): (out: (DeliveryReceipt, nat))
    requires r.attempts < r.maxAttempts
    ensures out.0 == r.(attempts := r.maxAttempts)
    ensures out.1 == r.maxAttempts - r.attempts - 1
    decreases r.maxAttempts - r.attempts
  {
    var (r', again) := IncrementAttempts(r);
    if again then
      var (last, n) := RetryRounds(r');
      (last, n + 1)
    else (r', 0)
  }

  // ---------------------------------------------------------------------------
  // Dictionary form
  // ---------------------------------------------------------------------------

  /** `to_dict`: all fourteen fields under their snake_case keys. */
  function ToDict(r: DeliveryReceipt): Dict
  {
    map[
      "id" := OptStrValue(r.id),
      "pharmacy_id" := OptStrValue(r.pharmacyId),
      "pharmacy_name" := OptStrValue(r.pharmacyName),
      "drug_name" := OptStrValue(r.drugName),
      "sent_at" := JStr(r.sentAt),
      "status" := JStr(r.status),
      "agent_type" := OptStrValue(r.agentType),
      "acknowledged_at" := OptStrValue(r.acknowledgedAt),
      "failed_at" := OptStrValue(r.failedAt),
      "failure_reason" := OptStrValue(r.failureReason),
      "attempts" := JInt(r.attempts),
      "max_attempts" := JInt(r.maxAttempts),
      "target_criteria" := OptDictValue(r.targetCriteria),
      "response_message" := OptStrValue(r.responseMessage)]
  }

  /** Every key `from_dict` reads is missing or holds a value of its
      field's kind. */
  predicate Decodable(d: Dict)
  {
    && OptStrOk(d, "id") && OptStrOk(d, "pharmacy_id") && OptStrOk(d, "pharmacy_name")
    && OptStrOk(d, "drug_name") && StrOk(d, "sent_at") && StrOk(d, "status")
    && OptStrOk(d, "agent_type") && OptStrOk(d, "acknowledged_at") && OptStrOk(d, "failed_at")
    && OptStrOk(d, "failure_reason") && IntOk(d, "attempts") && IntOk(d, "max_attempts")
    && OptDictOk(d, "target_criteria") && OptStrOk(d, "response_message")
  }

  /** `from_dict`: missing keys take the defaults (`sent_at` the current time,
      status `pending`, 1 attempt of 3); a value of the wrong kind is
      rejected. */
  function FromDict(d: Dict, nowIso: string): (r: Result<DeliveryReceipt, DecodeError>)
    ensures r.Success? <==> Decodable(d)
    ensures r.Success? && "status" !in d ==> r.value.status == DefaultStatus
    ensures r.Success? && "attempts" !in d ==> r.value.attempts == DefaultAttempts
    ensures r.Success? && "max_attempts" !in d ==> r.value.maxAttempts == DefaultMaxAttempts
    ensures r.Success? && "sent_at" !in d ==> r.value.sentAt == nowIso
    ensures r.Success? && "status" in d ==> d["status"] == JStr(r.value.status)
    ensures r.Success? && "attempts" in d ==> d["attempts"] == JInt(r.value.attempts)
    ensures r.Success? && "max_attempts" in d ==> d["max_attempts"] == JInt(r.value.maxAttempts)
    ensures r.Success? && "sent_at" in d ==> d["sent_at"] == JStr(r.value.sentAt)
    ensures r.Success? ==> r.value.id == OptStrAt(d, "id")
    ensures r.Success? ==> r.value.pharmacyId == OptStrAt(d, "pharmacy_id")
    ensures r.Success? ==> r.value.pharmacyName == OptStrAt(d, "pharmacy_name")
    ensures r.Success? ==> r.value.drugName == OptStrAt(d, "drug_name")
    ensures r.Success? ==> r.value.agentType == OptStrAt(d, "agent_type")
    ensures r.Success? ==> r.value.acknowledgedAt == OptStrAt(d, "acknowledged_at")
    ensures r.Success? ==> r.value.failedAt == OptStrAt(d, "failed_at")
    ensures r.Success? ==> r.value.failureReason == OptStrAt(d, "failure_reason")
    ensures r.Success? ==> r.value.responseMessage == OptStrAt(d, "response_message")
    ensures r.Success? ==> OptDictValue(r.value.targetCriteria) == Get(d, "target_criteria")
  {
    var id :- ReadOptStr(d, "id");
    var pharmacyId :- ReadOptStr(d, "pharmacy_id");
    var pharmacyName :- ReadOptStr(d, "pharmacy_name");
    var drugName :- ReadOptStr(d, "drug_name");
    var sentAt :- ReadStr(d, "sent_at", nowIso);
    var status :- ReadStr(d, "status", DefaultStatus);
    var agentType :- ReadOptStr(d, "agent_type");
    var acknowledgedAt :- ReadOptStr(d, "acknowledged_at");
    var failedAt :- ReadOptStr(d, "failed_at");
    var failureReason :- ReadOptStr(d, "failure_reason");
    var attempts :- ReadInt(d, "attempts", DefaultAttempts);
    var maxAttempts :- ReadInt(d, "max_attempts", DefaultMaxAttempts);
    var targetCriteria :- ReadOptDict(d, "target_criteria");
    var responseMessage :- ReadOptStr(d, "response_message");
    Success(DeliveryReceipt(id, pharmacyId, pharmacyName, drugName, sentAt, status, agentType,
                            acknowledgedAt, failedAt, failureReason, attempts, maxAttempts,
                            targetCriteria, responseMessage))
  }

  /** `from_dict(to_dict(r)) == r`, whatever the clock. */
  lemma RoundTrip(r: DeliveryReceipt, nowIso: string)
    ensures FromDict(ToDict(r), nowIso) == Success(r)
  {
    var d := ToDict(r);
    ReadOptStrOf(d, "id", r.id);
    ReadOptStrOf(d, "pharmacy_id", r.pharmacyId);
    ReadOptStrOf(d, "pharmacy_name", r.pharmacyName);
    ReadOptStrOf(d, "drug_name", r.drugName);
    ReadStrOf(d, "sent_at", nowIso, r.sentAt);
    ReadStrOf(d, "status", DefaultStatus, r.status);
    ReadOptStrOf(d, "agent_type", r.agentType);
    ReadOptStrOf(d, "acknowledged_at", r.acknowledgedAt);
    ReadOptStrOf(d, "failed_at", r.failedAt);
    ReadOptStrOf(d, "failure_reason", r.failureReason);
    ReadIntOf(d, "attempts", DefaultAttempts, r.attempts);
    ReadIntOf(d, "max_attempts", DefaultMaxAttempts, r.maxAttempts);
    ReadOptDictOf(d, "target_criteria", r.targetCriteria);
    ReadOptStrOf(d, "response_message", r.responseMessage);
  }
}
