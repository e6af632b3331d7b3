/** The text-to-token transform used for every URL field (`encode`/`decode` of
    the js-base64 package, which is not part of this model). It is taken as a
    parameter, and what the round trip needs of it is stated as predicates that
    lemmas require. */
module Codec {
  import opened Wrappers

  /** `decode` answers `None` where the package would throw. */
  datatype Codec = Codec(encode: string -> string, decode: string -> Option<string>)

  /** `decode` is a left inverse of `encode`. */
  ghost predicate RoundTrips(c: Codec) {
    forall s :: c.decode(c.encode(s)) == Some(s)
  }

  /** Tokens hold neither the written field separator `|` nor `%`, so neither
      the browser's escaping nor the reader's split can cut through a token. */
  ghost predicate PathSafe(c: Codec) {
    forall s :: '|' !in c.encode(s) && '%' !in c.encode(s)
  }

  /** Only the empty string encodes to the empty token. */
  ghost predicate EmptyExactly(c: Codec) {
    forall s :: c.encode(s) == "" <==> s == ""
  }

  /** What the URL round trip needs of the codec (standard base64 over UTF-8 has all three). */
  ghost predicate UrlCodec(c: Codec) {
    RoundTrips(c) && PathSafe(c) && EmptyExactly(c)
  }
}
