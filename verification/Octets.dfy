/** Octet strings, for the hash functions. */
module Octets {

  type octets = seq<bv8>

  const TWO32: int := 0x1_0000_0000
  const TWO64: int := 0x1_0000_0000_0000_0000

  function Zeros(n: nat): (r: octets)
    ensures |r| == n && forall i :: 0 <= i < n ==> r[i] == 0
  {
    seq(n, _ => 0)
  }

  /** The buffer starts with `tail`. */
  ghost predicate Starts(data: array<bv8>, tail: octets)
    reads data
  {
    |tail| <= data.Length && forall i :: 0 <= i < |tail| ==> data[i] == tail[i]
  }

  function Concatenated(chunks: seq<octets>): octets {
    if chunks == [] then [] else chunks[0] + Concatenated(chunks[1..])
  }
}
