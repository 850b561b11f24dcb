/** `formatBookingPurpose` (formatters.ts): the display label of a booking
    purpose, or the purpose itself when it has no label. */
module Formatters {
  import opened Common

  /** The five purposes the booking form offers, and their labels. */
  const Keys: seq<string> := ["educational", "business", "leisure", "workshop", "other"]
  const Labels: seq<string> := ["Educational Tour", "Business Visit", "Leisure Visit", "Workshop Participation", "Other"]

  /** The label of `purpose`, looked up among the table's own keys only. */
  function PurposeLabel(purpose: string): (r: Option<string>)
    ensures r.Some? <==> purpose in Keys
    ensures forall i :: 0 <= i < |Keys| && Keys[i] == purpose ==> r == Some(Labels[i])
  {
    if purpose == "educational" then Some("Educational Tour")
    else if purpose == "business" then Some("Business Visit")
    else if purpose == "leisure" then Some("Leisure Visit")
    else if purpose == "workshop" then Some("Workshop Participation")
    else if purpose == "other" then Some("Other")
    else None
  }

  /** The display text: the label, or the purpose unchanged. */
  function FormatBookingPurpose(purpose: string): string
  {
    var l := PurposeLabel(purpose);
    if l.Some? then l.value else purpose
  }

  /** The names every plain JavaScript object inherits from
      `Object.prototype`; indexing the label table with one of them yields
      that member, which is truthy. */
  const PrototypeNames: seq<string> := [
    "constructor", "hasOwnProperty", "isPrototypeOf", "propertyIsEnumerable",
    "toLocaleString", "toString", "valueOf", "__defineGetter__", "__defineSetter__",
    "__lookupGetter__", "__lookupSetter__", "__proto__"]

  /** What `purposeMap[purpose] || purpose` yields: a string, or an
      inherited member of the table object. */
  datatype Lookup = Text(text: string) | InheritedMember(name: string)

  /** The lookup as written: the table is an object literal, so the index
      also reaches the inherited members. */
  function FormatBookingPurposeAsWritten(purpose: string): Lookup
  {
    var l := PurposeLabel(purpose);
    if l.Some? then Text(l.value)
    else if purpose in PrototypeNames then InheritedMember(purpose)
    else Text(purpose)
  }

  // -----------------------------------------------------------------------
  // Properties

  /** Each of the five keys maps to its label; any other text is returned
      unchanged. */
  lemma FormatLabels(purpose: string)
    ensures forall i :: 0 <= i < 5 ==> FormatBookingPurpose(Keys[i]) == Labels[i]
    ensures purpose !in Keys ==> FormatBookingPurpose(purpose) == purpose
  {
  }

  /** No label is itself a key, so formatting twice is formatting once. */
  lemma FormatIdempotent(purpose: string)
    ensures FormatBookingPurpose(FormatBookingPurpose(purpose)) == FormatBookingPurpose(purpose)
  {
  }

  /** The labels are pairwise distinct, so the mapping is injective on the
      keys. */
  lemma FormatInjective(a: string, b: string)
    requires a in Keys && b in Keys && a != b
    ensures FormatBookingPurpose(a) != FormatBookingPurpose(b)
  {
  }

  /** As written, the purpose "constructor" is not shown as itself: the
      lookup returns the inherited `Object` constructor instead. */
  lemma InheritedMemberLeaks()
    ensures FormatBookingPurposeAsWritten("constructor") == InheritedMember("constructor")
    ensures FormatBookingPurpose("constructor") == "constructor"
  {
  }

  /** The own-key lookup agrees with the object lookup on every purpose
      that is not an inherited name. */
  lemma AsWrittenAgreesElsewhere(purpose: string)
    requires purpose !in PrototypeNames
    ensures FormatBookingPurposeAsWritten(purpose) == Text(FormatBookingPurpose(purpose))
  {
  }
}
