/**
 * Value types of the contact and wedding model: tags, persons and weddings.
 *
 * A person is an immutable record; a wedding carries a participant set that the
 * model manager replaces whenever it edits memberships. Full structural equality
 * (Dafny's `==`) is the "exact" match; the identity keys below give the "weak"
 * match that the books use to reject duplicates.
 */
module Entities {

  /** A label on a person; only its text matters to the model. */
  datatype Tag = Tag(tagName: string)

  /** A contact. Two persons are exactly equal only when every field matches. */
  datatype Person = Person(
    name: string,
    phone: string,
    email: string,
    address: string,
    job: string,
    tags: set<Tag>)

  /** A wedding: its name and the persons taking part in it. */
  datatype Wedding = Wedding(name: string, participants: set<Person>)

  /** The identity of a person: name and contact fields, ignoring job and tags. */
  function PersonKey(p: Person): (string, string, string, string)
  {
    (p.name, p.phone, p.email, p.address)
  }

  /** The identity of a wedding: its name. */
  function WeddingKey(w: Wedding): string
  {
    w.name
  }

  /** The texts of a set of tags. */
  function TagNameSet(tags: set<Tag>): (names: set<string>)
    ensures forall t :: t in tags ==> t.tagName in names
    ensures forall n :: n in names ==> Tag(n) in tags
  {
    set t | t in tags :: t.tagName
  }
}
