/**
 The JSON bodies createContact posts and updateContact puts, without the
 "Last Modified" stamp that both add to the embedded data from the clock.
 */
module Payloads {
  import opened Values
  import opened Source

  /** Top-level fields are `str()`-converted; the embedded Title, Site and
      Description are sent as the raw values. */
  datatype Payload = Payload(
    firstName: string, lastName: string, email: string, phone: string, extRef: string,
    title: Value, site: Value, description: Value,
    language: string, unsubscribed: string)

  /** createContact's body: staff columns 2, 1, 4, 6, 7 become firstName,
      lastName, email, phone, extRef, and 5, 3, 0 the embedded Title, Site
      and Description. The contact is created under the employee id the
      reconciliation compares, blank only for an empty-string id, and a row of
      strings is sent without any conversion. */
  function CreatePayload(staffDetails: seq<Value>): (r: Payload)
    requires |staffDetails| >= 8
    ensures r.extRef == ExtRef(staffDetails)
    ensures r.extRef == "" <==> staffDetails[7] == Text("")
    ensures AllText(staffDetails) ==>
      [Text(r.firstName), Text(r.lastName), Text(r.email), Text(r.phone), Text(r.extRef), r.title, r.site, r.description]
      == [staffDetails[2], staffDetails[1], staffDetails[4], staffDetails[6], staffDetails[7],
          staffDetails[5], staffDetails[3], staffDetails[0]]
  {
    Payload(Str(staffDetails[2]), Str(staffDetails[1]), Str(staffDetails[4]), Str(staffDetails[6]),
            Str(staffDetails[7]), staffDetails[5], staffDetails[3], staffDetails[0], "", "False")
  }

  /** updateContact's body: positions 0 to 7 of the details list in order,
      so a details list of strings is sent exactly as it is. */
  function UpdatePayload(staffDetails: seq<Value>): (r: Payload)
    requires |staffDetails| >= 8
    ensures r.extRef == "" <==> staffDetails[4] == Text("")
    ensures AllText(staffDetails) ==>
      [Text(r.firstName), Text(r.lastName), Text(r.email), Text(r.phone), Text(r.extRef), r.title, r.site, r.description]
      == staffDetails[..8]
  {
    Payload(Str(staffDetails[0]), Str(staffDetails[1]), Str(staffDetails[2]), Str(staffDetails[3]),
            Str(staffDetails[4]), staffDetails[5], staffDetails[6], staffDetails[7], "", "False")
  }
}
