/**
 * Serialization of structured values to text, as the quote store uses it.
 * A `Codec` stands for the pair JSON.stringify / JSON.parse applied to one
 * value type; the store never looks inside the values, only at their text.
 */
module Serialization {

  /** A textual encoding of the values of `T` and its decoding. */
  datatype Codec<!T> = Codec(stringify: T -> string, parse: string -> T)

  /** Parsing the text of any value gives that value back. */
  ghost predicate RoundTrips<T(!new)>(c: Codec<T>) {
    forall x :: c.parse(c.stringify(x)) == x
  }

  /** `s` is the text of some value: parsing it and writing it out again changes nothing. */
  predicate IsSerialized<T>(c: Codec<T>, s: string) {
    c.stringify(c.parse(s)) == s
  }

  /** The text a round-tripping codec writes is always serialized text. */
  lemma StringifyIsSerialized<T(!new)>(c: Codec<T>, x: T)
    requires RoundTrips(c)
    ensures IsSerialized(c, c.stringify(x))
  {
  }
}
