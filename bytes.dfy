/** Byte buffers and the zeroing helper that every package holding key
    material, plaintext or shares uses before releasing a buffer. */
module Bytes {

  newtype byte = b: int | 0 <= b < 256

  predicate AllZero(s: seq<byte>)
  {
    forall i :: 0 <= i < |s| ==> s[i] == 0
  }

  /** zeroBytes: overwrites every byte of the buffer with 0, in place. */
  method ZeroBytes(b: array<byte>)
    modifies b
    ensures AllZero(b[..])
  {
    for i := 0 to b.Length
      invariant forall j :: 0 <= j < i ==> b[j] == 0
    {
      b[i] := 0;
    }
  }

  /** A fresh buffer holding a copy of the bytes. */
  method NewBuffer(s: seq<byte>) returns (b: array<byte>)
    ensures fresh(b) && b[..] == s
  {
    b := new byte[|s|](i requires 0 <= i < |s| => s[i]);
  }
}
