/** Machine-level value types shared by the whole model: bytes, 32-bit
    unsigned integers, 32-byte digests, an option type, and the one SCALE
    layout the hasher spells out itself (a `u32` as four little-endian bytes). */
module Basics {

  newtype uint8 = x: int | 0 <= x < 0x100

  newtype u32 = x: int | 0 <= x < 0x1_0000_0000

  /** The output of the 256-bit hash: always exactly 32 bytes. */
  type Digest = s: seq<uint8> | |s| == 32 witness seq(32, _ => 0 as uint8)

  datatype Option<+T> = None | Some(value: T)

  /** SCALE encoding of a `u32`: four bytes, least significant first. */
  function EncodeU32(n: u32): (b: seq<uint8>)
    ensures |b| == 4
    ensures DecodeU32(b) == n
  {
    var x := n as int;
    var b0, b1, b2, b3 := x % 0x100, x / 0x100 % 0x100, x / 0x1_0000 % 0x100, x / 0x100_0000;
    assert x == b0 + 0x100 * (b1 + 0x100 * (b2 + 0x100 * b3));
    [b0 as uint8, b1 as uint8, b2 as uint8, b3 as uint8]
  }

  /** Reads four little-endian bytes back as a `u32`. */
  function DecodeU32(b: seq<uint8>): (n: u32)
    requires |b| == 4
  {
    var x := b[0] as int + 0x100 * (b[1] as int + 0x100 * (b[2] as int + 0x100 * b[3] as int));
    assert x < 0x1_0000_0000 by {
      assert b[1] as int + 0x100 * (b[2] as int + 0x100 * b[3] as int) <= 0xFF_FFFF;
    }
    x as u32
  }

  /** Decoding is also a left inverse: four bytes survive a decode-encode cycle. */
  lemma DecodeEncodeU32(b: seq<uint8>)
    requires |b| == 4
    ensures EncodeU32(DecodeU32(b)) == b
  {
    var x := DecodeU32(b) as int;
    var hi := b[1] as int + 0x100 * (b[2] as int + 0x100 * b[3] as int);
    assert x == b[0] as int + 0x100 * hi;
    assert x % 0x100 == b[0] as int && x / 0x100 == hi;
    var hi2 := b[2] as int + 0x100 * b[3] as int;
    assert hi % 0x100 == b[1] as int && hi / 0x100 == hi2;
    assert x / 0x1_0000 == hi2 by { assert x / 0x1_0000 == (x / 0x100) / 0x100; }
    assert hi2 % 0x100 == b[2] as int && hi2 / 0x100 == b[3] as int;
    assert x / 0x100_0000 == b[3] as int by { assert x / 0x100_0000 == (x / 0x1_0000) / 0x100; }
  }

  /** Bytes viewed as integers, the form in which byte strings are ordered. */
  function ByteKey(b: seq<uint8>): (k: seq<int>)
    ensures |k| == |b|
    ensures forall i :: 0 <= i < |b| ==> k[i] == b[i] as int
  {
    seq(|b|, i requires 0 <= i < |b| => b[i] as int)
  }

  /** Characters viewed as integers (their code points), the order Rust uses
      for `String`: comparing UTF-8 bytes orders code points the same way.
      It has the shape of `ByteKey` but is kept apart from it: a generic key
      would take the conversion as a function argument, and each of the two
      sorts (names at lib.rs:106, digests at lib.rs:290) would then carry a
      lambda in its key instead of a named first-order function. */
  function CharKey(s: string): (k: seq<int>)
    ensures |k| == |s|
    ensures forall i :: 0 <= i < |s| ==> k[i] == s[i] as int
  {
    seq(|s|, i requires 0 <= i < |s| => s[i] as int)
  }

  lemma ByteKeyInjective(a: seq<uint8>, b: seq<uint8>)
    requires ByteKey(a) == ByteKey(b)
    ensures a == b
  {
    assert |a| == |ByteKey(a)| == |b|;
    forall i | 0 <= i < |a| ensures a[i] == b[i] {
      assert ByteKey(a)[i] == ByteKey(b)[i];
    }
  }

  lemma CharKeyInjective(a: string, b: string)
    requires CharKey(a) == CharKey(b)
    ensures a == b
  {
    assert |a| == |CharKey(a)| == |b|;
    forall i | 0 <= i < |a| ensures a[i] == b[i] {
      assert CharKey(a)[i] == CharKey(b)[i];
    }
  }

  /** Byte strings that agree around a differing middle differ. */
  lemma MiddleDiffers(x: seq<uint8>, d: seq<uint8>, d': seq<uint8>, z: seq<uint8>)
    requires d != d'
    ensures x + d + z != x + d' + z
  {
    if |d| == |d'| {
      var j :| 0 <= j < |d| && d[j] != d'[j];
      assert (x + d + z)[|x| + j] == d[j];
      assert (x + d' + z)[|x| + j] == d'[j];
    }
  }

  /** Moves the parentheses of a five-part concatenation so that its fourth
      part stands alone; proved here, away from any larger context, because
      the regrouping is costly for the solver inside a big proof. */
  lemma Regroup(f: seq<uint8>, u: seq<uint8>, x: seq<uint8>, t: seq<uint8>, z: seq<uint8>)
    ensures f + (u + (x + t + z)) == (f + u + x) + t + z
  {
  }
}
