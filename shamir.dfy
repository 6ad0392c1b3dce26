/** Secret sharing glue (internal/shamir/shamir.go). The splitting and combining
    over GF(256) happen in a library outside this model, passed in as Library. */
module Shamir {
  import opened Errors
  import opened Bytes

  /** shamir.Split(secret, parts, threshold) and shamir.Combine(shares...). */
  datatype Library = Library(
    split: (seq<byte>, int, int) -> Result<seq<seq<byte>>>,
    combine: seq<seq<byte>> -> Result<seq<byte>>)

  const TooFewShares: Error := Message("at least 2 shares required")

  /** SplitSecret: the library's split of exactly these arguments; checking the
      bounds is left to the caller. */
  function SplitSecret(lib: Library, secret: seq<byte>, parts: int, threshold: int): (r: Result<seq<seq<byte>>>)
    ensures r == lib.split(secret, parts, threshold)
  {
    lib.split(secret, parts, threshold)
  }

  /** The byte contents of a list of share buffers. */
  function Contents(shares: seq<array<byte>>): (r: seq<seq<byte>>)
    reads set i | 0 <= i < |shares| :: shares[i]
    ensures |r| == |shares|
    ensures forall i :: 0 <= i < |shares| ==> r[i] == shares[i][..]
  {
    if |shares| == 0 then [] else Contents(shares[..|shares| - 1]) + [shares[|shares| - 1][..]]
  }

  /** CombineShares: fewer than two shares are refused without calling the library;
      otherwise the shares go to the library in their order and unmodified. */
  method CombineShares(lib: Library, shares: seq<array<byte>>) returns (r: Result<seq<byte>>)
    ensures |shares| < 2 ==> r == Err(TooFewShares)
    ensures |shares| >= 2 ==> r == lib.combine(Contents(shares))
  {
    if |shares| < 2 {
      return Err(TooFewShares);
    }
    var none := new byte[0];
    var shareSlice := new array<byte>[|shares|](_ => none);
    for i := 0 to |shares|
      invariant shareSlice[..i] == shares[..i]
    {
      shareSlice[i] := shares[i];
    }
    assert shareSlice[..] == shares;
    r := lib.combine(Contents(shareSlice[..]));
  }

  /** ZeroShares: every byte of every share is overwritten with zero. */
  method ZeroShares(shares: seq<array<byte>>)
    modifies set i | 0 <= i < |shares| :: shares[i]
    ensures forall i :: 0 <= i < |shares| ==> AllZero(shares[i][..])
  {
    for i := 0 to |shares|
      invariant forall j :: 0 <= j < i ==> AllZero(shares[j][..])
    {
      ZeroBytes(shares[i]);
    }
  }
}
