/** Bytes, and numbers written in them. */
module Bytes {

  newtype byte = x: int | 0 <= x < 256

  /** The little-endian bytes of the low `width` bytes of a number. */
  function Stored(x: nat, width: nat): (bytes: seq<byte>)
    ensures |bytes| == width
  {
    if width == 0 then [] else [(x % 256) as byte] + Stored(x / 256, width - 1)
  }

  function Loaded(bytes: seq<byte>): nat {
    if bytes == [] then 0 else bytes[0] as nat + 256 * Loaded(bytes[1..])
  }

  /** The numbers that fit in `width` bytes. */
  function Capacity(width: nat): (c: nat)
    ensures c > 0
  {
    if width == 0 then 1 else 256 * Capacity(width - 1)
  }

  lemma {:induction false} StoredIsLoaded(x: nat, width: nat)
    requires x < Capacity(width)
    ensures Loaded(Stored(x, width)) == x
  {
    if width > 0 {
      StoredIsLoaded(x / 256, width - 1);
      assert Stored(x, width)[1..] == Stored(x / 256, width - 1);
    }
  }

  /** The bytes weighted by their places: byte `k` counts 256 to the power of `k`. */
  function Weighted(bytes: seq<byte>, n: nat): nat
    requires n <= |bytes|
  {
    if n == 0 then 0 else Weighted(bytes, n - 1) + bytes[n - 1] as nat * Capacity(n - 1)
  }

  /** The lowest byte comes first. */
  lemma {:induction false} LittleEndian(bytes: seq<byte>)
    ensures Loaded(bytes) == Weighted(bytes, |bytes|)
  {
    if bytes != [] {
      LittleEndian(bytes[1..]);
      ShiftedPlaces(bytes, |bytes|);
    }
  }

  lemma {:induction false} ShiftedPlaces(bytes: seq<byte>, n: nat)
    requires 0 < n <= |bytes|
    ensures Weighted(bytes, n) == bytes[0] as nat + 256 * Weighted(bytes[1..], n - 1)
  {
    if n > 1 {
      ShiftedPlaces(bytes, n - 1);
      OnePlaceUp(bytes[n - 1] as nat, Capacity(n - 2));
    } else {
      assert Weighted(bytes, 0) == 0 && Capacity(0) == 1;
    }
  }

  lemma {:induction false} OnePlaceUp(b: nat, c: nat)
    ensures b * (256 * c) == 256 * (b * c)
  {
  }
}
