/**
 * The geohash codec the library calls into, taken as a parameter: `encode`
 * maps (latitude, longitude, precision) to a cell id, `cellBox` maps a cell id
 * to its box.  Nothing is assumed of them beyond what a caller states.
 */
module Geohash {
  import opened Geometry

  datatype Codec = Codec(encode: (real, real, nat) -> string, cellBox: string -> Box)

  /** The encoder returns exactly as many symbols as the precision asks for. */
  ghost predicate WellFormed(codec: Codec)
  {
    forall lat, lon, p :: |codec.encode(lat, lon, p)| == p
  }

  /** `h` is the cell of its own length containing the point: the point encodes to `h`. */
  predicate Matches(codec: Codec, lon: real, lat: real, h: string)
  {
    h == codec.encode(lat, lon, |h|)
  }

  /**
   * Under a well-formed encoder, the cell a point encodes to matches the point,
   * and at each length exactly one cell does.
   */
  lemma MatchesEncoded(codec: Codec, lon: real, lat: real, p: nat, h: string)
    requires WellFormed(codec)
    ensures Matches(codec, lon, lat, codec.encode(lat, lon, p))
    ensures Matches(codec, lon, lat, h) && |h| == p ==> h == codec.encode(lat, lon, p)
  {
    assert |codec.encode(lat, lon, p)| == p;
  }
}
