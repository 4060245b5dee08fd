# Drug-Reporter delivery tracking, modelled in Dafny

Drug-Reporter sends drug-safety alerts to pharmacies and tracks whether
each pharmacy acknowledged them. This project models the parts of it
that carry rules:

- **The delivery-receipt tracker `DeliveryReceiptManager`** (receipt.py).
  It keeps a log from each report id to an ordered list of receipt
  records, one per pharmacy. Around the log it offers:
  - the upsert `store_receipt`;
  - the mutators `mark_acknowledged` and `mark_failed`;
  - the lookups `get_receipt`, `get_all_receipts`, `retry_failed` and `reset`;
  - the time-driven sweep `check_expirations`;
  - follow-up selection;
  - the per-pharmacy history;
  - the status and statistics aggregates.
- **The `DeliveryReceipt` record** (models/delivery_receipt.py), with its
  retry state machine and its dictionary form.
- **The `Pharmacy` and `DrugReport` entities** (models/pharmacy.py,
  models/drug_report.py):
  - the tag list;
  - the bounded rate update;
  - contact fallback;
  - severity ranking;
  - expiry;
  - their `to_dict`/`from_dict` round trips.
- **The agents' receipt bookkeeping** (agents/base_agent.py):
  - tracking, acknowledgment and the status filters;
  - statistics;
  - receipt ids.
- **The broadcast agent** (agents/broadcast_agent.py): the alert loop
  and the follow-up classification.
- **The targeted agent** (agents/targeted_agent.py): the conjunctive,
  case-insensitive pharmacy filter, the matched-criteria labels and the
  alert loop over the filtered pharmacies.
- **The pure helpers** (utils/helpers.py):
  - the email and phone validators;
  - `sanitize_input`;
  - the count-based statistics;
  - the severity colours.

Every operation is a pure function that returns the new state. Clocks
become parameters:
- receipt.py times are integers (`now`, in seconds);
- the entity and agent timestamps are the ISO strings the source stores,
  passed in as `nowIso`;
- the receipt-id clock stamp is `stamp`;
- `datetime.fromisoformat` is a parameter `parse`.

The language model behind `_call_claude` is a total function `respond`
from a pharmacy to a response string, because `_call_claude` turns every
exception into a string (agents/base_agent.py:108-121).

Python dictionaries appear in two forms:
- the JSON-like `PyValues.Value`, for `to_dict`/`from_dict` and the helpers;
- `map<string, string>`, for the pharmacy and report dictionaries the
  agents index. There, `d[key]` on a missing key is a `KeyError` exactly
  where the source indexes.

Exceptions that escape an operation are a `Failure` of `Wrappers.Result`.

Modules, one per file:
- `Wrappers`, `Seqs`, `Text`: `Result`/`Option`, order-preserving filters
  and subsequences, ASCII lower-casing and decimal digits;
- `PyValues`: dictionary values and typed readers;
- `ReceiptStore`, `ReceiptViews`, `ReceiptSweep`, `ReceiptHistory`: receipt.py;
- `MetadataAliasing`: the shared metadata dictionary of `store_receipt`
  as written (see Findings);
- `DeliveryReceipts`, `Pharmacies`, `DrugReports`: the models;
- `BaseAgent`, `BroadcastAgent`, `TargetedAgent`: the agents;
- `Helpers`: utils/helpers.py.

## Model

| member | source | states |
|---|---|---|
| ReceiptStore.FindReceipt | receipt.py:282-288 | `_find_receipt` finds a record iff the report's list holds one for the pharmacy; the result belongs to that pharmacy and that list |
| ReceiptStore.StoreReceipt | receipt.py:34-74 | one returned record per input id, in input order, each the record the log now holds for it; all other (report, pharmacy) pairs keep their records |
| ReceiptStore.StoreExisting | receipt.py:48-57 | re-storing a known pair adds no record and no key; the record gets the new status, `last_updated = now` and one more attempt; every other field is kept, including the acknowledgment, expiry and metadata |
| ReceiptStore.StoreFresh | receipt.py:59-72 | a new pair is appended at the end of its report's list, opening a new key at the end if needed; it has 1 attempt, no acknowledgment, the given status and `expires_at = now + timeout` |
| ReceiptStore.StoreDuplicateInOneCall | receipt.py:48-72 | an id listed twice in one call leaves a single record with 2 attempts, and both returned entries show that record |
| ReceiptStore.StoreReceiptOrder | receipt.py:48-72 | the report's pharmacy order becomes the old order followed by the call's new ids, first occurrence each; the key order gains the report only when it is new and the call names some pharmacy |
| ReceiptStore.RestoreAddsNothing | receipt.py:50-57 | a call naming only known pairs leaves the length of the report's list unchanged |
| ReceiptStore.StoreReceiptWellFormed | receipt.py:34-74 | the log invariant is kept: distinct report keys, one record per pharmacy in each report, each record carrying its own report id, at least one attempt, and expiry = delivery + timeout |
| ReceiptStore.MarkAcknowledged | receipt.py:76-100 | unknown pair: None, nothing changes. Known pair: status `acknowledged`; the acknowledgment re-stamped to `now` on every call; `acknowledged_by` overwritten even with None; notes stored only when truthy; no other field and no other pair changes |
| ReceiptStore.MarkFailed | receipt.py:102-118 | unknown pair: None, nothing changes. Known pair: status `failed` with no guard on an acknowledged record; the acknowledgment is kept; `failure_reason` is stored only when truthy; no other pair changes |
| ReceiptStore.MarkAcknowledgedWellFormed | receipt.py:87-100 | `mark_acknowledged` keeps the log invariant |
| ReceiptStore.MarkFailedWellFormed | receipt.py:109-118 | `mark_failed` keeps the log invariant |
| ReceiptStore.GetAllReceipts | receipt.py:126-128 | the report's own list, empty for an unknown report; every record `get_receipt` finds is in it, and under the invariant each listed record is the one `get_receipt` finds for its pharmacy, one per pharmacy |
| ReceiptStore.AllReceiptsInInsertionOrder | receipt.py:48-72 | after `store_receipt` the list keeps its pharmacies first and appends each new id once, in the order given; other reports' lists are unchanged |
| ReceiptStore.RetryFailed | receipt.py:257-261 | in the order of the report's list; under the invariant, a pharmacy is listed iff its record for the report has status `failed`, and none is listed twice |
| ReceiptStore.Reset | receipt.py:273-278 | a falsy report id (None or "") clears the whole log; otherwise only that key is dropped, the other keys keep their order and, with distinct keys, their lists |
| ReceiptStore.ResetWellFormed | receipt.py:273-278 | `reset` keeps the log invariant |
| ReceiptViews.Rate | receipt.py:145 | the rate is 0 with nothing sent; otherwise rate × total = part, and it lies in [0, 1] |
| ReceiptViews.GetAcknowledgmentStatus | receipt.py:130-150 | the details are the report's list; the counts are the lengths of the id lists; the rate is acknowledged / total with the zero guard; the three counts sum to the total plus the records that are both acknowledged and failed; each id list is taken in order from the report's pharmacy ids |
| ReceiptViews.BucketListDetermined | receipt.py:134-148 | under the invariant, a list taken in order from the report's pharmacy ids that holds exactly the pharmacies whose record is in a bucket is that bucket's id list |
| ReceiptViews.StatusListsDetermined | receipt.py:134-148 | under the invariant, any lists taken in order from the report's pharmacy ids that hold exactly the pharmacies of each bucket are the three lists returned, so order and multiplicity are fixed |
| ReceiptViews.StatusBuckets | receipt.py:134-148 | under the invariant, a pharmacy is in the acknowledged list iff its record has a timestamp, in the failed list iff it is `failed`, and in the pending list iff neither |
| ReceiptViews.PendingDisjoint | receipt.py:134-137 | under the invariant, no pharmacy is both pending and acknowledged, or both pending and failed |
| ReceiptViews.BucketCounts | receipt.py:134-137 | acknowledged + pending + failed = total + the records that are both acknowledged and failed |
| ReceiptViews.BucketsPartition | receipt.py:134-144 | the three counts sum to `total_sent` iff no record has both an acknowledgment timestamp and status `failed` |
| ReceiptViews.FailAfterAcknowledgeDoubleCounts | receipt.py:92-93 | `mark_failed` after `mark_acknowledged` leaves one record counted both as acknowledged and as failed |
| ReceiptViews.GetFollowupCandidates | receipt.py:152-181 | in list order, exactly the records with no acknowledgment and a status other than `failed`, dropping expired ones when asked; each carries `is_expired = now > expires_at`; the log is an input and is not changed |
| ReceiptViews.FollowupWithoutExpired | receipt.py:173-176 | with `include_expired = False` the result is the full candidate list minus its expired records |
| ReceiptViews.FollowupsArePending | receipt.py:165-169 | with expired records included, the candidates are exactly the report's pending bucket |
| ReceiptViews.StatsLoopTotals | receipt.py:205-214 | the running totals equal the sums over the per-report entries |
| ReceiptViews.GetStatistics | receipt.py:197-233 | one entry per report key in dict order; `total_reports` = number of keys; totals = sums over the entries; overall rate with the zero guard |
| ReceiptViews.StatisticsAgreeWithStatus | receipt.py:206-222 | each per-report entry of the statistics equals the counts and rate of `get_acknowledgment_status` for that report |
| ReceiptSweep.CheckExpirations | receipt.py:237-255 | records with a timestamp or already `expired` are untouched, as are those not yet overdue; every other record with `now > expires_at`, `failed` ones included, becomes `expired` with `last_updated = now`; the marked records are returned in log order |
| ReceiptSweep.SweepLogExpired | receipt.py:240-253 | the list the loops build is the sweepable records of the whole log, report after report, each as marked |
| ReceiptSweep.SweepFind | receipt.py:242-253 | after the sweep, `get_receipt` returns the swept version of what it returned before |
| ReceiptSweep.FailedRecordExpires | receipt.py:244-251 | an overdue, unacknowledged `failed` record becomes `expired` |
| ReceiptSweep.SweepIdempotent | receipt.py:237-255 | a second sweep at the same `now` marks nothing and changes nothing |
| ReceiptSweep.SweepWellFormed | receipt.py:237-255 | the sweep keeps the log invariant |
| ReceiptHistory.SortDesc | receipt.py:192 | the sorted list is a permutation of its input, ordered newest delivery first |
| ReceiptHistory.SortKeepsTies | receipt.py:192 | the sort is stable: records with equal delivery times keep their input order |
| ReceiptHistory.PharmacyHistory | receipt.py:183-193 | the history is a permutation of the pharmacy's records from every report, each tagged with its report key, newest first |
| ReceiptHistory.HistoryStable | receipt.py:186-192 | same-time records appear in log order |
| ReceiptHistory.HistoryComplete | receipt.py:185-189 | whatever `get_receipt` finds for the pharmacy under any report is in its history |
| MetadataAliasing.NotesLeakToSibling | receipt.py:69 | as written: two new pharmacies stored in one call with non-empty metadata share one dictionary, so notes acknowledged on one appear on the other and in the caller's dictionary |
| MetadataAliasing.FreshMetadataStaysPrivate | receipt.py:69 | as written: a call without metadata gives each record a fresh empty dictionary that no other acknowledgment reaches |
| DeliveryReceipts.StatusesExclusive | models/delivery_receipt.py:84-94 | `is_pending`, `is_acknowledged` and `is_failed` are pairwise exclusive, and a `retry_pending` receipt satisfies none |
| DeliveryReceipts.MarkAcknowledged | models/delivery_receipt.py:65-68 | status `acknowledged` and a non-null `acknowledged_at`; no other field changes |
| DeliveryReceipts.MarkFailed | models/delivery_receipt.py:70-77 | the reason and a failure time are always recorded; attempts are unchanged; the status is `failed` iff attempts ≥ max_attempts, otherwise `retry_pending` |
| DeliveryReceipts.IncrementAttempts | models/delivery_receipt.py:79-82 | attempts rise by exactly one; the flag is true iff the new count is below max_attempts |
| DeliveryReceipts.CanRetryAfterFailure | models/delivery_receipt.py:70-98 | right after `mark_failed`, `can_retry` holds iff attempts < max_attempts; a `failed` receipt cannot be retried |
| DeliveryReceipts.AcknowledgedAfterMark | models/delivery_receipt.py:65-98 | after `mark_acknowledged` the receipt is acknowledged, not pending, and not retryable |
| DeliveryReceipts.RetryRounds | models/delivery_receipt.py:79-82 | a caller repeating `increment_attempts` while it returns True, from below the limit, gets True max − attempts − 1 times and stops at attempts = max |
| DeliveryReceipts.FromDict | models/delivery_receipt.py:26-44 | succeeds iff every key read is missing or holds a value of its field's kind; missing keys take the defaults: `sent_at` now, status `pending`, 1 attempt of 3; present keys give their values; every bare `.get` field reads None for a missing key or a null |
| DeliveryReceipts.RoundTrip | models/delivery_receipt.py:26-63 | `from_dict(to_dict(r)) == r`, whatever the clock |
| Pharmacies.AddTag | models/pharmacy.py:98-101 | afterwards the tag is present; an existing tag changes nothing; a new one is appended; a duplicate-free list stays duplicate-free |
| Pharmacies.RemoveTag | models/pharmacy.py:103-106 | an absent tag changes nothing; a present one loses exactly its first occurrence, the rest kept in order; no other field changes |
| Pharmacies.RemoveTagDistinct | models/pharmacy.py:103-110 | on a duplicate-free list, the removed tag is no longer there |
| Pharmacies.AddThenRemove | models/pharmacy.py:98-106 | adding and then removing a new tag gives back the pharmacy |
| Pharmacies.UpdateAcknowledgmentRate | models/pharmacy.py:112-115 | the rate changes iff 0 ≤ rate ≤ 100; otherwise the pharmacy is unchanged |
| Pharmacies.RateStaysInRange | models/pharmacy.py:112-115 | a rate in [0, 100] stays in [0, 100] whatever is passed |
| Pharmacies.IncrementAlertCount | models/pharmacy.py:117-119 | the alert count rises by exactly one and nothing else changes |
| Pharmacies.GetContactInfo | models/pharmacy.py:89-96 | each contact field falls back to its base field when falsy; fax is copied |
| Pharmacies.FromDict | models/pharmacy.py:34-60 | succeeds iff every key read is missing or holds a value of its field's kind; missing keys take the defaults: created now, active, 0 alerts, rate 0.0, no tags; present keys give their values; every bare `.get` field reads None for a missing key or a null |
| Pharmacies.RoundTrip | models/pharmacy.py:34-87 | `from_dict(to_dict(p)) == p`, whatever the clock |
| DrugReports.GetSeverityLevel | models/drug_report.py:72-80 | None severity raises AttributeError; otherwise the level is in 0..4 and is 0 iff the lower-cased severity is none of the four names |
| DrugReports.SeverityNameRanks | models/drug_report.py:73-78 | critical→4, high→3, medium→2, low→1 |
| DrugReports.SeverityIgnoresCase | models/drug_report.py:80 | severities that differ only in ASCII case get the same level |
| DrugReports.SeverityLevelNamesSeverity | models/drug_report.py:73-80 | a positive level names the lower-cased severity |
| DrugReports.IsExpired | models/drug_report.py:65-70 | missing or empty expiry: not expired; unparsable: ValueError; otherwise expired iff `now` is strictly after the parsed expiry |
| DrugReports.ExpiredStaysExpired | models/drug_report.py:69-70 | once expired, a report stays expired at every later time |
| DrugReports.ExpiryErrorIndependentOfClock | models/drug_report.py:65-70 | whether `is_expired` raises does not depend on the clock |
| DrugReports.FromDict | models/drug_report.py:26-44 | succeeds iff every key read is missing or holds a value of its field's kind; `created_at` defaults to now; every other field reads None for a missing key or a null |
| DrugReports.RoundTrip | models/drug_report.py:26-63 | `from_dict(to_dict(r)) == r`, whatever the clock |
| Helpers.ValidateEmail | utils/helpers.py:32-43 | as written: accepts iff the string, or the string minus one trailing newline, has the shape local@domain.tld (local from `[A-Za-z0-9._%+-]`, domain from `[A-Za-z0-9.-]`, at least two letters after the last dot) |
| Helpers.EmailTrailingNewline | utils/helpers.py:42-43 | `"a@b.co\n"` is accepted although it does not have the address shape |
| Helpers.EmailNewlineOnly | utils/helpers.py:42-43 | the newline is the only difference: on strings without one, the as-written and the corrected validators agree |
| Helpers.ValidateEmailStrict | utils/helpers.py:42-43 | corrected: accepts iff the whole string has the address shape |
| Helpers.CleanPhone | utils/helpers.py:57 | the cleaned number has no whitespace, `-`, `(`, `)` or `.`; it keeps every other character as often as the input has it, in order |
| Helpers.PhoneMatchesPattern | utils/helpers.py:57-61 | accepts iff the cleaned string is an optional `+`, an optional `1`, then at least ten digits |
| Helpers.PhoneIgnoresSeparator | utils/helpers.py:57-61 | inserting a separator anywhere does not change the verdict |
| Helpers.RemoveDangerous | utils/helpers.py:107 | none of `<>"'` or backtick remain; every other character is kept as often as the input has it, in order; a clean string is unchanged |
| Helpers.SanitizeInput | utils/helpers.py:96-110 | the output has no dangerous character, no leading or trailing whitespace, words separated by single spaces, and the same words as the input with the dangerous characters removed |
| Helpers.WordsJoin | utils/helpers.py:109 | splitting words joined by single spaces gives the words back |
| Helpers.SanitizeIdempotent | utils/helpers.py:96-110 | sanitizing twice equals sanitizing once |
| Helpers.Percent | utils/helpers.py:210-212 | with the zero guard, rate × total = 100 × part, and the rate is in [0, 100] when part ≤ total |
| Helpers.StatusCounts | utils/helpers.py:201-203 | the three exact-status buckets and the records with any other status partition the list |
| Helpers.CalculateAcknowledgmentRate | utils/helpers.py:178-213 | counts by exact status strings; acknowledged + pending + failed ≤ total; rates are percentages of the total; an empty list gives all zeros |
| Helpers.AckBucketsCoverAll | utils/helpers.py:201-203 | the three counts sum to the total iff every status is one of the three strings |
| Helpers.DeliveryDicts | utils/helpers.py:158-162 | a missing `deliveries` key reads as the empty list; a list of dictionaries is taken element by element |
| Helpers.CreateAlertSummary | utils/helpers.py:147-175 | counts `sent` and `failed` deliveries; successful + failed ≤ total_sent; success rate with the zero guard; `drug_name`, `alert_type` and `severity` copied from the report and `agent_type`, `timestamp` and `target_criteria` from the results, each with `.get` |
| Helpers.GetSeverityColor | utils/helpers.py:216-232 | a case-insensitive lookup of the four colours, gray for anything else |
| Helpers.ColorIgnoresCase | utils/helpers.py:232 | severities differing only in case get the same colour |
| Helpers.ColorAgreesWithRank | utils/helpers.py:226-232 | gray iff the severity has no rank in the drug-report scale; equal non-gray colours mean equal severities |
| BaseAgent.FindById | agents/base_agent.py:53 | the index of the first receipt with the id, or none iff no receipt has it |
| BaseAgent.TrackDelivery | agents/base_agent.py:51-62 | `not_found` iff no receipt has the id; otherwise `found` with the first such receipt; the list is an input and is not changed |
| BaseAgent.ProcessAcknowledgment | agents/base_agent.py:64-80 | success iff some receipt matches both ids; only the first match becomes `acknowledged` with a fresh timestamp, even one already acknowledged; no match leaves the list unchanged |
| BaseAgent.AcknowledgmentKeepsIds | agents/base_agent.py:69-71 | acknowledgment changes no receipt id, no pharmacy id and no field other than `status` and `acknowledged_at` |
| BaseAgent.AcknowledgedIsTracked | agents/base_agent.py:51-71 | when the first receipt with the receipt id is also the first with both ids, a successful acknowledgment makes tracking that id find an acknowledged receipt stamped now |
| BaseAgent.ReceiptsWithStatus | agents/base_agent.py:82-88 | the receipts with one given status form an order-preserving subsequence that holds each of them as often as the list does, and nothing else |
| BaseAgent.GetPendingReceipts | agents/base_agent.py:82-84 | an order-preserving subsequence holding every `pending` receipt as often as the list does, and nothing else |
| BaseAgent.GetAcknowledgedReceipts | agents/base_agent.py:86-88 | an order-preserving subsequence holding every `acknowledged` receipt as often as the list does, and nothing else |
| BaseAgent.PendingAndAcknowledgedDisjoint | agents/base_agent.py:82-88 | no receipt is in both lists |
| BaseAgent.GetDeliveryStatistics | agents/base_agent.py:90-101 | acknowledged + pending ≤ total; the rate is a percentage, 0 when nothing was sent |
| BaseAgent.GenerateReceiptId | agents/base_agent.py:103-106 | the id is `RECEIPT-`, the 14-digit stamp, `-`, then the decimal count of receipts held |
| BaseAgent.ReceiptIdsDiffer | agents/base_agent.py:103-106 | ids generated at different counts differ, whatever the stamps |
| BaseAgent.IndexedIdsDistinct | agents/base_agent.py:103-106 | when every receipt's id carries its position, all ids are distinct |
| BaseAgent.AcknowledgmentKeepsIdsIndexed | agents/base_agent.py:64-80 | acknowledgment keeps ids carrying their positions |
| BaseAgent.CreateMessage | agents/base_agent.py:32-49 | the message fails iff the pharmacy name or one of the five report fields is missing; the name is read first |
| BaseAgent.CountDeliveries | agents/broadcast_agent.py:74-75 | the success and failure counts are the `sent` and `failed` deliveries and sum to the number of deliveries |
| BroadcastAgent.SendOne | agents/broadcast_agent.py:37-72 | a pharmacy without a name raises out of the loop; otherwise one delivery, `sent` iff the message can be built and the pharmacy has an id, with a receipt appended exactly then |
| BroadcastAgent.SendAll | agents/broadcast_agent.py:37-72 | every appended receipt is pending, unacknowledged, broadcast, and carries the id of its position; the loop completes iff every pharmacy has a name |
| BroadcastAgent.SendAllDeliveries | agents/broadcast_agent.py:37-72 | one delivery per pharmacy, in input order, named after it; `sent` exactly for the deliverable ones; one receipt per `sent` delivery |
| BroadcastAgent.SendAllReceipts | agents/broadcast_agent.py:37-58 | a completed loop appends exactly the receipts of the deliverable pharmacies, in list order; the one for the i-th of them carries that pharmacy's `id` and `name`, the report's `drug_name`, and the id numbered by the receipts held before it |
| BroadcastAgent.SendAllReceiptIdAt | agents/broadcast_agent.py:46-63 | a `sent` delivery's `receipt_id` is the id of the receipt that follows those of the deliverable pharmacies before it |
| BroadcastAgent.SentDeliveryNamesItsReceipt | agents/broadcast_agent.py:46-65 | a deliverable pharmacy's delivery is `sent`, and its `receipt_id` names the receipt built for that very pharmacy |
| BroadcastAgent.SendAlert | agents/broadcast_agent.py:14-77 | a missing `drug_name` raises before anything is sent; otherwise success_count + failure_count == number of deliveries, the receipts appended equal success_count, and they are the receipts of the deliverable pharmacies in list order |
| BroadcastAgent.SendAlertPerPharmacy | agents/broadcast_agent.py:37-72 | with every pharmacy named, the result lists each pharmacy in order and `sent` exactly for the deliverable ones |
| BroadcastAgent.SendAlertKeepsIdsIndexed | agents/broadcast_agent.py:46-58 | sending keeps every receipt id carrying its position, so ids stay distinct |
| BroadcastAgent.Classify | agents/broadcast_agent.py:97-115 | `not_found` iff no receipt has the id; `already_acknowledged` iff the first such receipt is acknowledged; a follow-up for any other status |
| BroadcastAgent.SendFollowUp | agents/broadcast_agent.py:79-139 | one detail per id, in order; the three counts are the sizes of the three classes and sum to the number of ids; the receipts are an input and are not changed |
| BroadcastAgent.FailedReceiptGetsFollowUp | agents/broadcast_agent.py:107-137 | a `failed` receipt gets a follow-up |
| TargetedAgent.FilterPharmacies | agents/targeted_agent.py:92-140 | None or empty criteria return the input unchanged |
| TargetedAgent.FilterIds | agents/targeted_agent.py:127-129 | keeps the pharmacies whose id is in the criterion; raises KeyError on the first pharmacy without an id |
| TargetedAgent.FilterIsConjunction | agents/targeted_agent.py:97-140 | on success, the result is exactly the pharmacies that satisfy every set criterion, in input order. It fails, with KeyError on `id`, iff `pharmacy_ids` is set and a pharmacy that passes the first three checks lacks an id. Region and type lists compare case-insensitively, and a bare string counts as one element. `location` and `region` use a list's first element, and an empty list does not filter |
| TargetedAgent.FilterKeepsOrder | agents/targeted_agent.py:97-140 | the result is an order-preserving subsequence of the input, and a pharmacy is in it iff it is in the input and passes every check |
| TargetedAgent.FilterIdempotent | agents/targeted_agent.py:92-140 | filtering the result again with the same criteria changes nothing |
| TargetedAgent.MatchSingle | agents/targeted_agent.py:177-181 | a `location`/`region` criterion that is not a string raises AttributeError; a string one gives its label iff it agrees with the pharmacy's value ignoring case; an absent one gives nothing |
| TargetedAgent.GetMatchingCriteria | agents/targeted_agent.py:159-186 | None criteria raise TypeError; otherwise it raises iff `location` or `region` is not a string, or `pharmacy_ids` is present and the pharmacy has no id or the value is None; a pharmacy without an id under `pharmacy_ids` gives KeyError or the AttributeError of an earlier check. On success: one label per met criterion, in the order region list, type, location, region, ids |
| TargetedAgent.LabelsAreMetCriteria | agents/targeted_agent.py:163-184 | a label is listed iff it names a criterion the pharmacy meets: a truthy region or type list containing its value ignoring case, a string `location`/`region` equal to its value ignoring case, or ids containing its id |
| TargetedAgent.KeptPharmacyIsLabelled | agents/targeted_agent.py:163-184 | a pharmacy that passes the filter gets the label of every set region-list, type and id criterion and of a string `location` |
| TargetedAgent.SendOne | agents/targeted_agent.py:48-85 | a pharmacy without a name raises out of the loop. A receipt (targeted, with the criteria) is appended iff the message builds, the criteria are not None and the pharmacy has an id. `sent` additionally needs the labels to be computable |
| TargetedAgent.SendAll | agents/targeted_agent.py:48-85 | every appended receipt is pending, unacknowledged, targeted, carries the criteria and the id of its position; completes iff every pharmacy has a name |
| TargetedAgent.SendAllDeliveries | agents/targeted_agent.py:48-85 | one delivery per targeted pharmacy, in order; `sent` exactly for the delivered ones; one receipt per receipted pharmacy |
| TargetedAgent.SendAllReceipts | agents/targeted_agent.py:48-70 | a completed loop appends exactly the receipts of the receipted pharmacies, in list order, each with that pharmacy's `id` and `name`, the report's `drug_name`, the criteria, and the id numbered by the receipts held before it |
| TargetedAgent.SendAllReceiptIdAt | agents/targeted_agent.py:57-75 | a `sent` delivery's `receipt_id` is the id of the receipt that follows those of the receipted pharmacies before it |
| TargetedAgent.ReceiptedPharmacyGetsItsReceipt | agents/targeted_agent.py:57-78 | a receipted pharmacy gets the receipt built for it at that position; its delivery is `sent` iff the matching labels could be computed, and then reports that receipt's id |
| TargetedAgent.SendAlert | agents/targeted_agent.py:14-90 | a filter error raises first, then a missing `drug_name`. If nothing matches: the no-match message, no deliveries and no counts. Otherwise one delivery per targeted pharmacy, with success_count + failure_count == number of deliveries. The receipts appended are those of the receipted targeted pharmacies, in order |
| TargetedAgent.NoneCriteriaFailEverywhere | agents/targeted_agent.py:94-150 | with None criteria no pharmacy is filtered out, every delivery fails and no receipt is written |
| TargetedAgent.ReceiptsCoverSuccesses | agents/targeted_agent.py:58-78 | success_count ≤ receipts appended. The two are equal when `location`/`region` are strings and `pharmacy_ids` is not None |

## Left out

- JSON export/import (receipt.py:265-271), CSV export/import, `log_message`, `format_timestamp`, `parse_timestamp`, `get_current_timestamp` and `generate_id`: file I/O, logging, clock and uuid randomness.
- `DeliveryReceipt.get_delivery_time_minutes`: floating-point arithmetic on parsed datetimes.
- The text of the alert messages, `_create_targeted_message` apart from its `in` test on the criteria, `format_delivery_report` and the system prompts: display templates. Only the KeyErrors and TypeErrors they can raise are modelled.
- The Anthropic client and `_call_claude`: the parameter `respond` stands for them. It is total, because the source catches every exception.
- The agents' `send_alert` reads the clock once per receipt. The model uses a single `stamp` and `nowIso` per call.
- app.py, main.py, langchain_*.py, agents/agent_factory.py and interfaces/: user interface, demos and glue.
- Lower-casing and `\d` follow their ASCII behaviour only: Python's Unicode case mapping and Unicode digits are not modelled. `\s`, `str.strip` and `str.split` use the full set of characters `str.isspace` accepts.
- Rates and percentages are exact reals, not IEEE floats.
- DeliveryReceipts.FromDict: rejects a present value of the wrong kind as `WrongType`, where the source stores whatever it is given. A null for a defaulted field (`sent_at`, `status`, `attempts`, `max_attempts`) is rejected too, where the source stores None.
- Pharmacies.FromDict: the same rejection of values of the wrong kind, and of a null for `created_at`, `is_active`, `previous_alerts_count`, `acknowledgment_rate` or `tags`.
- DrugReports.FromDict: the same rejection of values of the wrong kind, and of a null for `created_at`.
- The agents' pharmacy and report dictionaries hold strings. A value that is None, or a number, is not modelled. Criteria values are a string, a list of strings or None.
- Helpers.DeliveryDicts: a `deliveries` value that is a string or a dictionary is modelled only coarsely: empty gives an empty list, non-empty gives AttributeError, anything else TypeError.
- DrugReports.IsExpired: comparing a naive with an aware datetime (a TypeError in Python) is not modelled. `parse` returns comparable integers.
- ReceiptStore: `import_from_json` can load a log that breaks the invariant. The invariant lemmas assume the log was built by the modelled operations.
- BroadcastAgent.SendAll: its own contract says only that the appended receipts are fresh and numbered by position. Which pharmacy each receipt is for is stated by BroadcastAgent.SendAllReceipts, for a loop that completes. When a pharmacy without a `name` stops the loop, the receipts appended before it are covered by the freshness clause only.
- TargetedAgent.SendAll: the same; TargetedAgent.SendAllReceipts states which pharmacy each receipt is for, for a loop that completes.
- MetadataAliasing covers `store_receipt` and `mark_acknowledged` only. `mark_failed` writes into the same shared dictionary in the same way.

## Findings

| source | as written | input that shows it | evidently intended | confidence | as-written member | corrected member |
|---|---|---|---|---|---|---|
| receipt.py:69 | `"metadata": metadata or {}` stores the caller's dictionary itself in every record the call creates, so `mark_acknowledged` (receipt.py:98) and `mark_failed` (receipt.py:116) write into one dictionary shared by all of them | `store_receipt("r", ["p1", "p2"], metadata={"severity": "high"})`, then `mark_acknowledged("r", "p1", notes="called")`: p2's record also shows the notes. The demo at receipt.py:297-315 does this with `mark_failed` | each record has its own copy of the metadata, so a note or reason stays on the record it was made for | medium, not executed | MetadataAliasing.NotesLeakToSibling | ReceiptStore.MarkAcknowledged |
| utils/helpers.py:42-43 | `re.match` with a pattern ending in `$` also matches before a final newline | `validate_email("a@b.co\n")` returns True | only strings that are exactly an address are accepted (`\Z` or `re.fullmatch`) | high, not executed | Helpers.EmailTrailingNewline | Helpers.ValidateEmailStrict |
