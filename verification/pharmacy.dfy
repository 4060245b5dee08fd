/** `Pharmacy` (models/pharmacy.py): the tag list, the bounded acknowledgment
    rate, the alert counter, the contact fallback and the dictionary form. */
module Pharmacies {
  import opened Wrappers
  import opened Seqs
  import opened Text
  import opened PyValues

  /** The fields `from_dict` reads with a bare `data.get` may hold None. */
  datatype Pharmacy = Pharmacy(
    id: Option<string>,
    name: Option<string>,
    location: Option<string>,
    phone: Option<string>,
    email: Option<string>,
    pharmacyType: Option<string>,
    region: Option<string>,
    createdAt: string,
    isActive: bool,
    managerName: Option<string>,
    address: Option<string>,
    city: Option<string>,
    state: Option<string>,
    zipCode: Option<string>,
    fax: Option<string>,
    hoursOfOperation: Option<string>,
    contactPerson: Option<string>,
    contactPersonEmail: Option<string>,
    contactPersonPhone: Option<string>,
    previousAlertsCount: int,
    acknowledgmentRate: real,
    tags: seq<string>)

  // ---------------------------------------------------------------------------
  // Tags
  // ---------------------------------------------------------------------------

  predicate HasTag(p: Pharmacy, tag: string) { tag in p.tags }

  /** `add_tag`: appended only when absent. */
  function AddTag(p: Pharmacy, tag: string): (p': Pharmacy)
    ensures HasTag(p', tag)
    ensures HasTag(p, tag) ==> p' == p
    ensures !HasTag(p, tag) ==> p' == p.(tags := p.tags + [tag])
    ensures Distinct(p.tags) ==> Distinct(p'.tags)
  {
    if tag in p.tags then p
    else
      assert forall i, j :: 0 <= i < j < |p.tags| + 1 && j == |p.tags| ==> (p.tags + [tag])[i] != (p.tags + [tag])[j];
      p.(tags := p.tags + [tag])
  }

  /** Python's `list.remove`: drops the first occurrence only. */
  function RemoveFirst(s: seq<string>, x: string): (r: seq<string>)
    ensures x !in s ==> r == s
    ensures x in s ==> var i := IndexOf(s, x).value; r == s[..i] + s[i + 1..]
  {
    match IndexOf(s, x)
    case None => s
    case Some(i) => s[..i] + s[i + 1..]
  }

  /** `remove_tag`: the first occurrence goes, the other tags keep their
      order; an absent tag is a no-op. */
  function RemoveTag(p: Pharmacy, tag: string): (p': Pharmacy)
    ensures !HasTag(p, tag) ==> p' == p
    ensures HasTag(p, tag) ==> |p'.tags| == |p.tags| - 1 && IsSubsequence(p'.tags, p.tags)
    ensures HasTag(p, tag) ==>
      exists i :: 0 <= i < |p.tags| && p.tags[i] == tag && tag !in p.tags[..i] && p'.tags == p.tags[..i] + p.tags[i + 1..]
    ensures p' == p.(tags := p'.tags)
  {
    match IndexOf(p.tags, tag)
    case None => p
    case Some(i) =>
      DropOneIsSubsequence(p.tags, i);
      assert tag !in p.tags[..i] by {
        assert forall k :: 0 <= k < i ==> p.tags[..i][k] == p.tags[k];
      }
      p.(tags := RemoveFirst(p.tags, tag))
  }

  lemma {:induction false} DropOneIsSubsequence(s: seq<string>, i: nat)
    requires i < |s|
    ensures IsSubsequence(s[..i] + s[i + 1..], s)
  {
    if i == 0 {
      assert s[..0] + s[1..] == s[1..];
      SubsequenceOfSelf(s[1..]);
      SubsequenceOfCons(s[1..], s[0], s[1..]);
      assert [s[0]] + s[1..] == s;
    } else {
      DropOneIsSubsequence(s[1..], i - 1);
      var t := s[1..][..i - 1] + s[1..][i..];
      assert s[..i] + s[i + 1..] == [s[0]] + t;
      assert ([s[0]] + t)[1..] == t;
      assert s[1..] == s[1..];
    }
  }

  /** With distinct tags, removing a tag removes it completely, and adding a
      new tag then removing it restores the pharmacy. */
  lemma RemoveTagDistinct(p: Pharmacy, tag: string)
    requires Distinct(p.tags)
    ensures !HasTag(RemoveTag(p, tag), tag)
  {
    if tag in p.tags {
      var i := IndexOf(p.tags, tag).value;
      var r := RemoveTag(p, tag).tags;
      forall k | 0 <= k < |r|
        ensures r[k] != tag
      {
        if k < i {
          assert r[k] == p.tags[k];
        } else {
          assert r[k] == p.tags[k + 1];
        }
      }
    }
  }

  lemma AddThenRemove(p: Pharmacy, tag: string)
    requires !HasTag(p, tag)
    ensures RemoveTag(AddTag(p, tag), tag) == p
  {
    var t := p.tags + [tag];
    IndexOfAppend(p.tags, tag, tag);
    assert t[..|p.tags|] + t[|p.tags| + 1..] == p.tags;
  }

  // ---------------------------------------------------------------------------
  // Counters and contact details
  // ---------------------------------------------------------------------------

  /** `update_acknowledgment_rate`: only a rate in [0, 100] is taken. */
  function UpdateAcknowledgmentRate(p: Pharmacy, rate: real): (p': Pharmacy)
    ensures 0.0 <= rate <= 100.0 ==> p' == p.(acknowledgmentRate := rate)
    ensures !(0.0 <= rate <= 100.0) ==> p' == p
  {
    if 0.0 <= rate <= 100.0 then p.(acknowledgmentRate := rate) else p
  }

  /** A rate that starts in [0, 100] stays there whatever is offered. */
  lemma RateStaysInRange(p: Pharmacy, rate: real)
    requires 0.0 <= p.acknowledgmentRate <= 100.0
    ensures 0.0 <= UpdateAcknowledgmentRate(p, rate).acknowledgmentRate <= 100.0
  {
  }

  /** `increment_alert_count`. */
  function IncrementAlertCount(p: Pharmacy): (p': Pharmacy)
    ensures p'.previousAlertsCount == p.previousAlertsCount + 1
    ensures p' == p.(previousAlertsCount := p'.previousAlertsCount)
  {
    p.(previousAlertsCount := p.previousAlertsCount + 1)
  }

  datatype ContactInfo = ContactInfo(name: Option<string>, email: Option<string>, phone: Option<string>, fax: Option<string>)

  /** Python's `a or b` on optional strings. */
  function Or(a: Option<string>, b: Option<string>): (r: Option<string>)
    ensures Truthy(a) ==> r == a
    ensures !Truthy(a) ==> r == b
  {
    if Truthy(a) then a else b
  }

  /** `get_contact_info`: each contact field falls back to the base field when
      it is None or empty; the fax is passed through. */
  function GetContactInfo(p: Pharmacy): (c: ContactInfo)
    ensures c.name == (if Truthy(p.contactPerson) then p.contactPerson else p.managerName)
    ensures c.email == (if Truthy(p.contactPersonEmail) then p.contactPersonEmail else p.email)
    ensures c.phone == (if Truthy(p.contactPersonPhone) then p.contactPersonPhone else p.phone)
    ensures c.fax == p.fax
  {
    ContactInfo(Or(p.contactPerson, p.managerName), Or(p.contactPersonEmail, p.email),
                Or(p.contactPersonPhone, p.phone), p.fax)
  }

  // ---------------------------------------------------------------------------
  // Dictionary form
  // ---------------------------------------------------------------------------

  /** `to_dict`: all twenty-two fields under their snake_case keys. */
  function ToDict(p: Pharmacy): Dict
  {
    map[
      "id" := OptStrValue(p.id),
      "name" := OptStrValue(p.name),
      "location" := OptStrValue(p.location),
      "phone" := OptStrValue(p.phone),
      "email" := OptStrValue(p.email),
      "pharmacy_type" := OptStrValue(p.pharmacyType),
      "region" := OptStrValue(p.region),
      "created_at" := JStr(p.createdAt),
      "is_active" := JBool(p.isActive),
      "manager_name" := OptStrValue(p.managerName),
      "address" := OptStrValue(p.address),
      "city" := OptStrValue(p.city),
      "state" := OptStrValue(p.state),
      "zip_code" := OptStrValue(p.zipCode),
      "fax" := OptStrValue(p.fax),
      "hours_of_operation" := OptStrValue(p.hoursOfOperation),
      "contact_person" := OptStrValue(p.contactPerson),
      "contact_person_email" := OptStrValue(p.contactPersonEmail),
      "contact_person_phone" := OptStrValue(p.contactPersonPhone),
      "previous_alerts_count" := JInt(p.previousAlertsCount),
      "acknowledgment_rate" := JReal(p.acknowledgmentRate),
      "tags" := StrListValue(p.tags)]
  }

  /** The first seven keys `from_dict` reads, in its order. */
  function ReadProfile(d: Dict)
    : (r: Result<(Option<string>, Option<string>, Option<string>, Option<string>, Option<string>, Option<string>, Option<string>), DecodeError>)
    ensures r.Success? <==>
      && OptStrOk(d, "id") && OptStrOk(d, "name") && OptStrOk(d, "location") && OptStrOk(d, "phone")
      && OptStrOk(d, "email") && OptStrOk(d, "pharmacy_type") && OptStrOk(d, "region")
    ensures r.Success? ==>
      && r.value.0 == OptStrAt(d, "id") && r.value.1 == OptStrAt(d, "name")
      && r.value.2 == OptStrAt(d, "location") && r.value.3 == OptStrAt(d, "phone")
      && r.value.4 == OptStrAt(d, "email") && r.value.5 == OptStrAt(d, "pharmacy_type")
      && r.value.6 == OptStrAt(d, "region")
  {
    var id :- ReadOptStr(d, "id");
    var name :- ReadOptStr(d, "name");
    var location :- ReadOptStr(d, "location");
    var phone :- ReadOptStr(d, "phone");
    var email :- ReadOptStr(d, "email");
    var pharmacyType :- ReadOptStr(d, "pharmacy_type");
    var region :- ReadOptStr(d, "region");
    Success((id, name, location, phone, email, pharmacyType, region))
  }

  /** The ten address and contact keys `from_dict` reads, in its order. */
  function ReadContact(d: Dict)
    : (r: Result<(Option<string>, Option<string>, Option<string>, Option<string>, Option<string>,
                  Option<string>, Option<string>, Option<string>, Option<string>, Option<string>), DecodeError>)
    ensures r.Success? <==>
      && OptStrOk(d, "manager_name") && OptStrOk(d, "address") && OptStrOk(d, "city") && OptStrOk(d, "state")
      && OptStrOk(d, "zip_code") && OptStrOk(d, "fax") && OptStrOk(d, "hours_of_operation")
      && OptStrOk(d, "contact_person") && OptStrOk(d, "contact_person_email") && OptStrOk(d, "contact_person_phone")
    ensures r.Success? ==>
      && r.value.0 == OptStrAt(d, "manager_name") && r.value.1 == OptStrAt(d, "address")
      && r.value.2 == OptStrAt(d, "city") && r.value.3 == OptStrAt(d, "state")
      && r.value.4 == OptStrAt(d, "zip_code") && r.value.5 == OptStrAt(d, "fax")
      && r.value.6 == OptStrAt(d, "hours_of_operation") && r.value.7 == OptStrAt(d, "contact_person")
      && r.value.8 == OptStrAt(d, "contact_person_email") && r.value.9 == OptStrAt(d, "contact_person_phone")
  {
    var managerName :- ReadOptStr(d, "manager_name");
    var address :- ReadOptStr(d, "address");
    var city :- ReadOptStr(d, "city");
    var state :- ReadOptStr(d, "state");
    var zipCode :- ReadOptStr(d, "zip_code");
    var fax :- ReadOptStr(d, "fax");
    var hours :- ReadOptStr(d, "hours_of_operation");
    var contactPerson :- ReadOptStr(d, "contact_person");
    var contactEmail :- ReadOptStr(d, "contact_person_email");
    var contactPhone :- ReadOptStr(d, "contact_person_phone");
    Success((managerName, address, city, state, zipCode, fax, hours, contactPerson, contactEmail, contactPhone))
  }

  /** Every key `from_dict` reads is missing or holds a value of its
      field's kind. */
  predicate Decodable(d: Dict)
  {
    && OptStrOk(d, "id") && OptStrOk(d, "name") && OptStrOk(d, "location") && OptStrOk(d, "phone")
    && OptStrOk(d, "email") && OptStrOk(d, "pharmacy_type") && OptStrOk(d, "region")
    && StrOk(d, "created_at") && BoolOk(d, "is_active") && OptStrOk(d, "manager_name")
    && OptStrOk(d, "address") && OptStrOk(d, "city") && OptStrOk(d, "state") && OptStrOk(d, "zip_code")
    && OptStrOk(d, "fax") && OptStrOk(d, "hours_of_operation") && OptStrOk(d, "contact_person")
    && OptStrOk(d, "contact_person_email") && OptStrOk(d, "contact_person_phone")
    && IntOk(d, "previous_alerts_count") && RealOk(d, "acknowledgment_rate") && StrListOk(d, "tags")
  }

  /** `from_dict`: missing keys take the defaults (`created_at` the current
      time, active, no alerts, rate 0, no tags); a value of the wrong kind is
      rejected. */
  function FromDict(d: Dict, nowIso: string): (r: Result<Pharmacy, DecodeError>)
    ensures r.Success? && "created_at" !in d ==> r.value.createdAt == nowIso
    ensures r.Success? && "is_active" !in d ==> r.value.isActive
    ensures r.Success? && "previous_alerts_count" !in d ==> r.value.previousAlertsCount == 0
    ensures r.Success? && "acknowledgment_rate" !in d ==> r.value.acknowledgmentRate == 0.0
    ensures r.Success? && "tags" !in d ==> r.value.tags == []
    ensures r.Success? <==> Decodable(d)
    ensures r.Success? && "created_at" in d ==> d["created_at"] == JStr(r.value.createdAt)
    ensures r.Success? && "is_active" in d ==> d["is_active"] == JBool(r.value.isActive)
    ensures r.Success? && "previous_alerts_count" in d ==> d["previous_alerts_count"] == JInt(r.value.previousAlertsCount)
    ensures r.Success? && "acknowledgment_rate" in d ==>
      || d["acknowledgment_rate"] == JReal(r.value.acknowledgmentRate)
      || (d["acknowledgment_rate"].JInt? && r.value.acknowledgmentRate == d["acknowledgment_rate"].i as real)
    ensures r.Success? && "tags" in d ==> d["tags"] == StrListValue(r.value.tags)
    ensures r.Success? ==> r.value.id == OptStrAt(d, "id")
    ensures r.Success? ==> r.value.name == OptStrAt(d, "name")
    ensures r.Success? ==> r.value.location == OptStrAt(d, "location")
    ensures r.Success? ==> r.value.phone == OptStrAt(d, "phone")
    ensures r.Success? ==> r.value.email == OptStrAt(d, "email")
    ensures r.Success? ==> r.value.pharmacyType == OptStrAt(d, "pharmacy_type")
    ensures r.Success? ==> r.value.region == OptStrAt(d, "region")
    ensures r.Success? ==> r.value.managerName == OptStrAt(d, "manager_name")
    ensures r.Success? ==> r.value.address == OptStrAt(d, "address")
    ensures r.Success? ==> r.value.city == OptStrAt(d, "city")
    ensures r.Success? ==> r.value.state == OptStrAt(d, "state")
    ensures r.Success? ==> r.value.zipCode == OptStrAt(d, "zip_code")
    ensures r.Success? ==> r.value.fax == OptStrAt(d, "fax")
    ensures r.Success? ==> r.value.hoursOfOperation == OptStrAt(d, "hours_of_operation")
    ensures r.Success? ==> r.value.contactPerson == OptStrAt(d, "contact_person")
    ensures r.Success? ==> r.value.contactPersonEmail == OptStrAt(d, "contact_person_email")
    ensures r.Success? ==> r.value.contactPersonPhone == OptStrAt(d, "contact_person_phone")
  {
    var profile :- ReadProfile(d);
    var createdAt :- ReadStr(d, "created_at", nowIso);
    var isActive :- ReadBool(d, "is_active", true);
    var contact :- ReadContact(d);
    var alerts :- ReadInt(d, "previous_alerts_count", 0);
    var rate :- ReadReal(d, "acknowledgment_rate", 0.0);
    var tags :- ReadStrList(d, "tags");
    var (id, name, location, phone, email, pharmacyType, region) := profile;
    var (managerName, address, city, state, zipCode, fax, hours, contactPerson, contactEmail, contactPhone) := contact;
    Success(Pharmacy(id, name, location, phone, email, pharmacyType, region, createdAt, isActive,
                     managerName, address, city, state, zipCode, fax, hours, contactPerson,
                     contactEmail, contactPhone, alerts, rate, tags))
  }

  /** `from_dict(to_dict(p)) == p`, whatever the clock. */
  lemma RoundTrip(p: Pharmacy, nowIso: string)
    ensures FromDict(ToDict(p), nowIso) == Success(p)
  {
    var d := ToDict(p);
    IdEntry(p);
    NameEntry(p);
    LocationEntry(p);
    PhoneEntry(p);
    EmailAndTypeEntries(p);
    RegionAndCreatedEntries(p);
    ActiveAndManagerEntries(p);
    AddressAndCityEntries(p);
    StateAndZipEntries(p);
    FaxAndHoursEntries(p);
    ContactPersonEntries(p);
    ContactPhoneAndCountEntries(p);
    RateAndTagsEntries(p);
    ReadOptStrOf(d, "id", p.id);
    ReadOptStrOf(d, "name", p.name);
    ReadOptStrOf(d, "location", p.location);
    ReadOptStrOf(d, "phone", p.phone);
    ReadOptStrOf(d, "email", p.email);
    ReadOptStrOf(d, "pharmacy_type", p.pharmacyType);
    ReadOptStrOf(d, "region", p.region);
    ReadStrOf(d, "created_at", nowIso, p.createdAt);
    ReadBoolOf(d, "is_active", true, p.isActive);
    ReadOptStrOf(d, "manager_name", p.managerName);
    ReadOptStrOf(d, "address", p.address);
    ReadOptStrOf(d, "city", p.city);
    ReadOptStrOf(d, "state", p.state);
    ReadOptStrOf(d, "zip_code", p.zipCode);
    ReadOptStrOf(d, "fax", p.fax);
    ReadOptStrOf(d, "hours_of_operation", p.hoursOfOperation);
    ReadOptStrOf(d, "contact_person", p.contactPerson);
    ReadOptStrOf(d, "contact_person_email", p.contactPersonEmail);
    ReadOptStrOf(d, "contact_person_phone", p.contactPersonPhone);
    ReadIntOf(d, "previous_alerts_count", 0, p.previousAlertsCount);
    ReadRealOf(d, "acknowledgment_rate", 0.0, p.acknowledgmentRate);
    ReadStrListOf(d, "tags", p.tags);
  }

  // Each field sits under its key in the dictionary form; one lemma per one
  // or two fields, named after them, so that each compares few string keys.

  lemma IdEntry(p: Pharmacy)
    ensures var d := ToDict(p);
      && "id" in d && d["id"] == OptStrValue(p.id)
  {
  }

  lemma NameEntry(p: Pharmacy)
    ensures var d := ToDict(p);
      && "name" in d && d["name"] == OptStrValue(p.name)
  {
  }

  lemma LocationEntry(p: Pharmacy)
    ensures var d := ToDict(p);
      && "location" in d && d["location"] == OptStrValue(p.location)
  {
  }

  lemma PhoneEntry(p: Pharmacy)
    ensures var d := ToDict(p);
      && "phone" in d && d["phone"] == OptStrValue(p.phone)
  {
  }

  lemma EmailAndTypeEntries(p: Pharmacy)
    ensures var d := ToDict(p);
      && "email" in d && d["email"] == OptStrValue(p.email)
      && "pharmacy_type" in d && d["pharmacy_type"] == OptStrValue(p.pharmacyType)
  {
  }

  lemma RegionAndCreatedEntries(p: Pharmacy)
    ensures var d := ToDict(p);
      && "region" in d && d["region"] == OptStrValue(p.region)
      && "created_at" in d && d["created_at"] == JStr(p.createdAt)
  {
  }

  lemma ActiveAndManagerEntries(p: Pharmacy)
    ensures var d := ToDict(p);
      && "is_active" in d && d["is_active"] == JBool(p.isActive)
      && "manager_name" in d && d["manager_name"] == OptStrValue(p.managerName)
  {
  }

  lemma AddressAndCityEntries(p: Pharmacy)
    ensures var d := ToDict(p);
      && "address" in d && d["address"] == OptStrValue(p.address)
      && "city" in d && d["city"] == OptStrValue(p.city)
  {
  }

  lemma StateAndZipEntries(p: Pharmacy)
    ensures var d := ToDict(p);
      && "state" in d && d["state"] == OptStrValue(p.state)
      && "zip_code" in d && d["zip_code"] == OptStrValue(p.zipCode)
  {
  }

  lemma FaxAndHoursEntries(p: Pharmacy)
    ensures var d := ToDict(p);
      && "fax" in d && d["fax"] == OptStrValue(p.fax)
      && "hours_of_operation" in d && d["hours_of_operation"] == OptStrValue(p.hoursOfOperation)
  {
  }

  lemma ContactPersonEntries(p: Pharmacy)
    ensures var d := ToDict(p);
      && "contact_person" in d && d["contact_person"] == OptStrValue(p.contactPerson)
      && "contact_person_email" in d && d["contact_person_email"] == OptStrValue(p.contactPersonEmail)
  {
  }

  lemma ContactPhoneAndCountEntries(p: Pharmacy)
    ensures var d := ToDict(p);
      && "contact_person_phone" in d && d["contact_person_phone"] == OptStrValue(p.contactPersonPhone)
      && "previous_alerts_count" in d && d["previous_alerts_count"] == JInt(p.previousAlertsCount)
  {
  }

  lemma RateAndTagsEntries(p: Pharmacy)
    ensures var d := ToDict(p);
      && "acknowledgment_rate" in d && d["acknowledgment_rate"] == JReal(p.acknowledgmentRate)
      && "tags" in d && d["tags"] == StrListValue(p.tags)
  {
  }
}
