/** What literal and glob matching share. */
module Matching {
  import opened Bytes

  const USIZE_MAX: nat := 0xFFFF_FFFF_FFFF_FFFF

  function Min(a: nat, b: nat): nat {
    if a < b then a else b
  }

  function SaturatingSub(a: nat, b: nat): nat {
    if a < b then 0 else a - b
  }

  datatype MatchResult = NoMatch | Found(index: nat)

  /** What one bounded push carries: the bytes and the cap it is called with. */
  datatype Chunk = Chunk(bytes: seq<byte>, cap: nat)
}
