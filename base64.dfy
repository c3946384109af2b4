/**
 * Base64 with the standard alphabet (section 4 of RFC 4648), taken as given: the model only
 * uses that it is a bijection between byte strings and canonical Base64 text.
 */
module Base64 {
  import opened Wire

  datatype Codec = Codec(encode: seq<bv8> -> string, decode: string -> Option<seq<bv8>>)

  /** Decoding inverts encoding, decoding accepts only canonical text, and "" encodes no bytes. */
  ghost predicate Valid(c: Codec) {
    && c.encode([]) == ""
    && (forall b :: c.decode(c.encode(b)) == Some(b))
    && (forall s :: c.decode(s).Some? ==> c.encode(c.decode(s).value) == s)
  }

  /** Decoding the encoding of any bytes gives them back. */
  lemma RoundTrip(c: Codec, b: seq<bv8>)
    requires Valid(c)
    ensures c.decode(c.encode(b)) == Some(b)
  {
  }
}
