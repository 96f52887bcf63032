/** Bytes, big-endian integers and the few sequence facts every other module needs. */
module Bytes {
  type Byte = b: int | 0 <= b < 0x100
  type U16 = n: int | 0 <= n < 0x1_0000
  type U32 = n: int | 0 <= n < 0x1_0000_0000

  datatype Option<+T> = None | Some(value: T)
  datatype Result<+T, +E> = Ok(value: T) | Err(error: E)

  /** How many numbers `width` bytes can represent. */
  function Range(width: nat): (p: nat)
    ensures p > 0
  {
    if width == 0 then 1 else 0x100 * Range(width - 1)
  }

  function BigEndian(n: nat, width: nat): (s: seq<Byte>)
    ensures |s| == width
  {
    if width == 0 then [] else BigEndian(n / 0x100, width - 1) + [n % 0x100]
  }

  function FromBigEndian(s: seq<Byte>): nat {
    if s == [] then 0 else FromBigEndian(s[..|s| - 1]) * 0x100 + s[|s| - 1]
  }

  lemma {:induction false} BigEndianRoundTrip(n: nat, width: nat)
    requires n < Range(width)
    ensures FromBigEndian(BigEndian(n, width)) == n
  {
    if width == 0 {
    } else {
      BigEndianRoundTrip(n / 0x100, width - 1);
      assert BigEndian(n, width)[..width - 1] == BigEndian(n / 0x100, width - 1);
    }
  }

  lemma {:induction false} BigEndianUnique(s: seq<Byte>)
    ensures BigEndian(FromBigEndian(s), |s|) == s
  {
    if s == [] {
    } else {
      BigEndianUnique(s[..|s| - 1]);
    }
  }

  /** The first byte counts most. */
  lemma BigEndianValue(s: seq<Byte>)
    ensures |s| == 2 ==> FromBigEndian(s) == s[0] as int * 0x100 + s[1]
    ensures |s| == 4 ==>
              FromBigEndian(s) == s[0] as int * 0x100_0000 + s[1] as int * 0x1_0000 + s[2] as int * 0x100 + s[3]
  {
    if |s| == 2 {
      var front := s[..1];
      assert front[..0] == [] && FromBigEndian(front) == front[0];
    }
    if |s| == 4 {
      var front := s[..3];
      BigEndianValue(s[..2]);
      assert front[..2] == s[..2] && FromBigEndian(front) == FromBigEndian(s[..2]) * 0x100 + s[2];
    }
  }

  /** The first `n` elements, or all of them when there are fewer. */
  function Take<T>(s: seq<T>, n: nat): (r: seq<T>)
    ensures r <= s && |r| == if n <= |s| then n else |s|
  {
    if n <= |s| then s[..n] else s
  }

  /** The last `n` elements, or all of them when there are fewer. */
  function LastN<T>(s: seq<T>, n: nat): (r: seq<T>)
    ensures |r| <= n
  {
    if n <= |s| then s[|s| - n..] else s
  }

  /** The rest of `s` comes before them, and there is none unless they are `n`. */
  lemma LastNIs<T>(s: seq<T>, n: nat)
    ensures exists k | 0 <= k <= |s| :: s == s[..k] + LastN(s, n) && (k > 0 ==> |LastN(s, n)| == n)
  {
    var k := if n <= |s| then |s| - n else 0;
    assert s == s[..k] + LastN(s, n);
  }

  /** The bytes of an ASCII text. */
  function Ascii(text: string): (bytes: seq<Byte>)
    ensures |bytes| == |text|
  {
    seq(|text|, i requires 0 <= i < |text| => text[i] as int % 0x100)
  }

  function Flatten(ss: seq<seq<Byte>>): seq<Byte> {
    if ss == [] then [] else ss[0] + Flatten(ss[1..])
  }

  /** Walking a sequence by index is walking it by its tails. */
  lemma DropStep<T>(s: seq<T>, i: nat)
    requires i < |s|
    ensures s[i..][0] == s[i] && s[i..][1..] == s[i + 1..]
  {
  }
}
