// redactCanonicalRecord: which fields of a stored record are removed, and what is left.
module Redaction {
  import opened Wrappers
  import opened Records

  // A setting that is not given has its default.
  datatype RedactionOptions = RedactionOptions(
    removePhone: Option<bool>, removeEmail: Option<bool>, removeWebsite: Option<bool>,
    removeAddressLines: Option<bool>, removePersonnel: Option<bool>)

  datatype Settings = Settings(phone: bool, email: bool, website: bool, addressLines: bool, personnel: bool)

  function Or(given: Option<bool>, default: bool): bool {
    if given.Some? then given.value else default
  }

  function SettingsOf(o: RedactionOptions): Settings {
    Settings(Or(o.removePhone, true), Or(o.removeEmail, true), Or(o.removeWebsite, false),
             Or(o.removeAddressLines, true), Or(o.removePersonnel, false))
  }

  predicate RemovesAnything(s: Settings) {
    s.phone || s.email || s.website || s.addressLines || s.personnel
  }

  function WithoutLines(address: Address): Address {
    address.(line1 := None, line2 := None, raw := None)
  }

  function RedactAddresses(addresses: seq<Address>): (r: seq<Address>) {
    seq(|addresses|, i requires 0 <= i < |addresses| => WithoutLines(addresses[i]))
  }

  function RedactContact(contact: Contact, s: Settings): Contact {
    Contact(
      if s.phone then None else contact.phone,
      if s.email then None else contact.email,
      if s.website then None else contact.website,
      if s.addressLines && contact.addresses.Some? then Some(RedactAddresses(contact.addresses.value))
      else contact.addresses)
  }

  function RedactBy(record: Record, s: Settings): Record {
    record.(contact := RedactContact(record.contact, s),
            personnel := if s.personnel then Some([]) else record.personnel,
            raw := if RemovesAnything(s) then Redacted else record.raw)
  }

  function RedactCanonicalRecord(record: Record, o: RedactionOptions): Record {
    RedactBy(record, SettingsOf(o))
  }

  // What each option does. Phone, email and address lines go unless they are to stay, website and personnel
  // stay unless they are to go; the raw content goes with whatever goes, and nothing else changes.
  lemma RedactionRemoves(record: Record, o: RedactionOptions)
    ensures var r, was := RedactCanonicalRecord(record, o), record.contact;
            var phone, email := o.removePhone != Some(false), o.removeEmail != Some(false);
            var lines := o.removeAddressLines != Some(false);
            var website, personnel := o.removeWebsite == Some(true), o.removePersonnel == Some(true);
            && r.contact.phone == (if phone then None else was.phone)
            && r.contact.email == (if email then None else was.email)
            && r.contact.website == (if website then None else was.website)
            && (was.addresses.None? || !lines ==> r.contact.addresses == was.addresses)
            && (was.addresses.Some? && lines ==>
                  && r.contact.addresses.Some? && |r.contact.addresses.value| == |was.addresses.value|
                  && forall i :: 0 <= i < |was.addresses.value| ==>
                       r.contact.addresses.value[i] == Address(None, None, was.addresses.value[i].locality, None))
            && r.personnel == (if personnel then Some([]) else record.personnel)
            && r.raw == (if phone || email || lines || website || personnel then Redacted else record.raw)
            && r == record.(contact := r.contact, personnel := r.personnel, raw := r.raw)
  {
  }

  function Union(a: Settings, b: Settings): Settings {
    Settings(a.phone || b.phone, a.email || b.email, a.website || b.website,
             a.addressLines || b.addressLines, a.personnel || b.personnel)
  }

  // Redacting twice removes what either redaction removes; so order does not matter, and
  // repeating a redaction changes nothing.
  lemma RedactionsUnite(record: Record, a: RedactionOptions, b: RedactionOptions)
    ensures RedactCanonicalRecord(RedactCanonicalRecord(record, a), b)
            == RedactBy(record, Union(SettingsOf(a), SettingsOf(b)))
    ensures RedactCanonicalRecord(RedactCanonicalRecord(record, a), b)
            == RedactCanonicalRecord(RedactCanonicalRecord(record, b), a)
    ensures RedactCanonicalRecord(RedactCanonicalRecord(record, a), a) == RedactCanonicalRecord(record, a)
  {
    if record.contact.addresses.Some? {
      var once := RedactAddresses(record.contact.addresses.value);
      assert RedactAddresses(once) == once;
    }
    assert Union(SettingsOf(a), SettingsOf(a)) == SettingsOf(a);
  }

  // ----- what a redacted record still tells -----

  ghost predicate SameLocalities(a: seq<Address>, b: seq<Address>) {
    |a| == |b| && forall i :: 0 <= i < |a| ==> a[i].locality == b[i].locality
  }

  // The two records differ in fields that s removes, and nowhere else.
  ghost predicate AgreeOutside(s: Settings, a: Record, b: Record) {
    && a.sourceId == b.sourceId && a.licenseNumber == b.licenseNumber
    && a.licenseNumberNormalized == b.licenseNumberNormalized
    && a.alternateLicenseNumbers == b.alternateLicenseNumbers
    && a.fingerprint == b.fingerprint && a.importRunId == b.importRunId
    && (!s.phone ==> a.contact.phone == b.contact.phone)
    && (!s.email ==> a.contact.email == b.contact.email)
    && (!s.website ==> a.contact.website == b.contact.website)
    && (if s.addressLines then
          && (a.contact.addresses.Some? <==> b.contact.addresses.Some?)
          && (a.contact.addresses.Some? ==> SameLocalities(a.contact.addresses.value, b.contact.addresses.value))
        else a.contact.addresses == b.contact.addresses)
    && (!s.personnel ==> a.personnel == b.personnel)
    && (!RemovesAnything(s) ==> a.raw == b.raw)
  }

  lemma RedactedAddressesTell(a: seq<Address>, b: seq<Address>)
    ensures RedactAddresses(a) == RedactAddresses(b) <==> SameLocalities(a, b)
  {
    var x, y := RedactAddresses(a), RedactAddresses(b);
    if x == y {
      forall i | 0 <= i < |a| ensures a[i].locality == b[i].locality {
        assert x[i].locality == y[i].locality;
      }
    }
    if SameLocalities(a, b) {
      forall i | 0 <= i < |a| ensures x[i] == y[i] {
      }
    }
  }

  // A redacted record tells the fields that stay, and nothing about the ones that go.
  lemma RedactionHidesExactly(o: RedactionOptions, a: Record, b: Record)
    ensures RedactCanonicalRecord(a, o) == RedactCanonicalRecord(b, o) <==> AgreeOutside(SettingsOf(o), a, b)
  {
    if a.contact.addresses.Some? && b.contact.addresses.Some? {
      RedactedAddressesTell(a.contact.addresses.value, b.contact.addresses.value);
    }
  }
}
