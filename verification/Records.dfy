// Canonical license records, as far as the import, lookup and redaction code reads or writes them.
module Records {
  import opened Wrappers

  datatype Address = Address(line1: Option<string>, line2: Option<string>, locality: string, raw: Option<string>)

  datatype Contact = Contact(
    phone: Option<string>, email: Option<string>, website: Option<string>, addresses: Option<seq<Address>>)

  datatype RawContent = Original(text: string) | Redacted

  datatype Record = Record(
    sourceId: string,
    licenseNumber: string,
    licenseNumberNormalized: string,
    alternateLicenseNumbers: Option<seq<string>>,
    personnel: Option<seq<string>>,
    contact: Contact,
    raw: RawContent,
    fingerprint: string,
    importRunId: Option<string>)
}
