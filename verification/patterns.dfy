/** The scrambler's pattern table: the closed set of categories, their
    names as the table's keys, and the language each one recognises. */
module Patterns {
  import opened Wrappers
  import PhonePattern
  import CardPattern
  import EmailPattern
  import Ipv4Pattern

  datatype Category = PhoneNumber | CreditCard | Email | IpAddress

  /** The category's key in the pattern table. */
  function Name(c: Category): string {
    match c
    case PhoneNumber => "phone_number"
    case CreditCard => "credit_card"
    case Email => "email"
    case IpAddress => "ip_address"
  }

  /** The table's keys in insertion order: the order used when no names are given. */
  const DefaultOrder: seq<Category> := [PhoneNumber, CreditCard, Email, IpAddress]

  function DefaultNames(): (r: seq<string>)
    ensures |r| == |DefaultOrder|
    ensures forall k :: 0 <= k < |r| ==> r[k] == Name(DefaultOrder[k])
  {
    ["phone_number", "credit_card", "email", "ip_address"]
  }

  /** The table entry for `name`, if it is one of the four keys. */
  function Lookup(name: string): (r: Option<Category>)
    ensures r.Some? ==> Name(r.value) == name
    ensures r.None? ==> forall c: Category :: Name(c) != name
  {
    if name == "phone_number" then Some(PhoneNumber)
    else if name == "credit_card" then Some(CreditCard)
    else if name == "email" then Some(Email)
    else if name == "ip_address" then Some(IpAddress)
    else None
  }

  /** The table holds one entry per category, under the category's own name. */
  lemma LookupName(c: Category)
    ensures Lookup(Name(c)) == Some(c)
    ensures c in DefaultOrder
  {
  }

  /** Whether `s`, as a whole, is matched by the pattern of category `c`. */
  predicate Matches(c: Category, s: string) {
    match c
    case PhoneNumber => PhonePattern.PhoneMatch(s)
    case CreditCard => CardPattern.CardMatch(s)
    case Email => EmailPattern.EmailMatch(s)
    case IpAddress => Ipv4Pattern.IpMatch(s)
  }

  /** No pattern matches the empty string, so every match consumes text. */
  lemma NoEmptyMatch(c: Category)
    ensures !Matches(c, "")
  {
    if c == IpAddress {
      Ipv4Pattern.IpMatchQuad("");
    }
  }
}
