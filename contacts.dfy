/**
  The contact record as the contact card reads it, and the card's fallbacks
  for missing or non-text fields.
 */
module Contacts {
  import opened Wrappers
  import ProfilePicture

  /**
    The value of one field of a contact. The record is untyped, so a field
    may be absent, a string, or some other value; for the latter only its
    truthiness and what `String(v)` renders matter.
   */
  datatype Field = Missing | Text(text: string) | Other(truthy: bool, rendered: string)

  /** The fields the card reads. */
  datatype Contact = Contact(
    fileAs: Field,
    fullName: Field,
    email1Address: Field,
    telephoneNumber1Normalized: Field,
    businessAddressCity: Field,
    profilePicture: Field)

  const NoName: string := "No Name"
  const NoEmail: string := "N/A"

  /** Truthiness: an absent field is false, a string is true when it is non-empty. */
  predicate Truthy(f: Field) {
    match f
    case Missing => false
    case Text(s) => s != ""
    case Other(t, _) => t
  }

  /** `String(v)` */
  function Rendered(f: Field): string {
    match f
    case Missing => "undefined"
    case Text(s) => s
    case Other(_, t) => t
  }

  /** `a || b` */
  function Or(a: Field, b: Field): Field {
    if Truthy(a) then a else b
  }

  /** A non-empty string field. */
  predicate IsNonEmptyText(f: Field) {
    f.Text? && f.text != ""
  }

  /** `String(contact.FileAs || contact.FullName || 'No Name')` */
  function DisplayName(c: Contact): (r: string)
    ensures Truthy(c.fileAs) ==> r == Rendered(c.fileAs)
    ensures !Truthy(c.fileAs) && Truthy(c.fullName) ==> r == Rendered(c.fullName)
    ensures !Truthy(c.fileAs) && !Truthy(c.fullName) ==> r == NoName
    ensures !c.fileAs.Other? && !c.fullName.Other? ==> r != ""
  {
    Rendered(Or(Or(c.fileAs, c.fullName), Text(NoName)))
  }

  /** `String(contact.Email1Address || 'N/A')` */
  function DisplayEmail(c: Contact): (r: string)
    ensures Truthy(c.email1Address) ==> r == Rendered(c.email1Address)
    ensures !Truthy(c.email1Address) ==> r == NoEmail
    ensures !c.email1Address.Other? ==> r != ""
  {
    Rendered(Or(c.email1Address, Text(NoEmail)))
  }

  /**
    The phone and city lines: shown, with the field's text, only when the
    field is a non-empty string; omitted otherwise.
   */
  function OptionalLine(f: Field): (r: Option<string>)
    ensures r.Some? <==> IsNonEmptyText(f)
    ensures r.Some? ==> r.value == f.text && r.value != ""
  {
    if f.Text? && Truthy(f) then Some(Rendered(f)) else None
  }

  function PhoneLine(c: Contact): Option<string> {
    OptionalLine(c.telephoneNumber1Normalized)
  }

  function CityLine(c: Contact): Option<string> {
    OptionalLine(c.businessAddressCity)
  }

  /**
    The card's image source: resolved from the picture field only when that
    is a non-empty string; any other value shows the placeholder.
   */
  function PictureSrc(c: Contact): (r: Option<string>)
    ensures !IsNonEmptyText(c.profilePicture) ==> r == None
    ensures IsNonEmptyText(c.profilePicture) ==>
      r == ProfilePicture.ProfilePictureSrc(c.profilePicture.text)
  {
    if Truthy(c.profilePicture) && c.profilePicture.Text? then
      ProfilePicture.ProfilePictureSrc(c.profilePicture.text)
    else None
  }
}
