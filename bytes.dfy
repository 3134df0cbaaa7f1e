/**
 * Bytes, results and the 4-byte length prefix shared by every generation of
 * the library.
 *
 * The C++ code sends the length of a frame as the raw bytes of an `int` in
 * host byte order.  The model fixes that order to little-endian (the order of
 * every platform the project builds for) and stores negative values in two's
 * complement, as the hardware does.
 */
module Bytes {

  newtype byte = x: int | 0 <= x < 256

  const TWO_31: int := 0x8000_0000
  const TWO_32: int := 0x1_0000_0000

  /** The value `std::char_traits<char>::eof()` and `SOCKET_ERROR`. */
  const EOF: int := -1

  /**
   * What a C++ call does: return normally with a value, throw a
   * `WebException`, or do something the language leaves undefined (or throw
   * an exception no caller in the library handles, such as the
   * `std::length_error` of a resize to a negative length).
   */
  datatype Outcome<T> = Done(value: T) | Thrown | Fault

  predicate IsInt32(n: int) {
    -TWO_31 <= n < TWO_31
  }

  function Min(a: int, b: int): (m: int)
    ensures m <= a && m <= b && (m == a || m == b)
  {
    if a <= b then a else b
  }

  function Max(a: int, b: int): (m: int)
    ensures a <= m && b <= m && (m == a || m == b)
  {
    if a <= b then b else a
  }

  /** The four bytes of a 32-bit `int` in little-endian two's complement. */
  function EncodeInt32(n: int): (b: seq<byte>)
    requires IsInt32(n)
    ensures |b| == 4
  {
    var u := if n < 0 then n + 0x1_0000_0000 else n;
    [(u % 256) as byte, ((u / 256) % 256) as byte, ((u / 0x1_0000) % 256) as byte, (u / 0x100_0000) as byte]
  }

  /** The 32-bit `int` whose little-endian bytes are `b`. */
  function DecodeInt32(b: seq<byte>): (n: int)
    requires |b| == 4
    ensures IsInt32(n)
    ensures (n < 0) == (b[3] >= 128)
  {
    var u := b[0] as int + 256 * b[1] as int + 0x1_0000 * b[2] as int + 0x100_0000 * b[3] as int;
    if u >= 0x8000_0000 then u - 0x1_0000_0000 else u
  }

  lemma DecodeEncode(n: int)
    requires IsInt32(n)
    ensures DecodeInt32(EncodeInt32(n)) == n
  {
    var u := if n < 0 then n + 0x1_0000_0000 else n;
    var q1 := u / 256;
    var q2 := q1 / 256;
    assert u == u % 256 + 256 * q1;
    assert q1 == q1 % 256 + 256 * q2;
    assert u / 0x1_0000 == q2;
    assert q2 == q2 % 256 + 256 * (u / 0x100_0000);
  }

  lemma EncodeDecode(b: seq<byte>)
    requires |b| == 4
    ensures EncodeInt32(DecodeInt32(b)) == b
  {
    var u := b[0] as int + 256 * b[1] as int + 0x1_0000 * b[2] as int + 0x100_0000 * b[3] as int;
    var q1 := b[1] as int + 256 * b[2] as int + 0x1_0000 * b[3] as int;
    var q2 := b[2] as int + 256 * b[3] as int;
    assert u == b[0] as int + 256 * q1;
    assert u / 256 == q1 && u % 256 == b[0] as int;
    assert q1 == b[1] as int + 256 * q2;
    assert q1 / 256 == q2 && q1 % 256 == b[1] as int;
    assert u / 0x1_0000 == q2;
    assert q2 / 256 == b[3] as int && q2 % 256 == b[2] as int;
    assert u / 0x100_0000 == b[3] as int;
  }

  /** Two lengths with the same prefix bytes are the same length. */
  lemma EncodeInjective(m: int, n: int)
    requires IsInt32(m) && IsInt32(n)
    requires EncodeInt32(m) == EncodeInt32(n)
    ensures m == n
  {
    DecodeEncode(m);
    DecodeEncode(n);
  }

  lemma AppendAssoc(a: seq<byte>, b: seq<byte>, c: seq<byte>)
    ensures a + (b + c) == (a + b) + c
  {
  }

  function Zeros(n: nat): (z: seq<byte>)
    ensures |z| == n && forall i :: 0 <= i < n ==> z[i] == 0
  {
    seq(n, _ => 0)
  }

  /**
   * `std::vector<char>::resize(n)`: truncate, or extend with value-initialised
   * (zero) elements.
   */
  function Resize(data: seq<byte>, n: nat): (r: seq<byte>)
    ensures |r| == n
    ensures forall i :: 0 <= i < n && i < |data| ==> r[i] == data[i]
    ensures forall i :: |data| <= i < n ==> r[i] == 0
  {
    if n <= |data| then data[..n] else data + Zeros(n - |data|)
  }

  /** The container `data` after the bytes `bytes` were copied to its start. */
  function Overwrite(data: seq<byte>, bytes: seq<byte>): (r: seq<byte>)
    requires |bytes| <= |data|
    ensures |r| == |data| && r[..|bytes|] == bytes && r[|bytes|..] == data[|bytes|..]
  {
    bytes + data[|bytes|..]
  }

  /** A `char` (signed on the supported platforms) widened to `int`. */
  function SignedChar(b: byte): (c: int)
    ensures -128 <= c < 128
    ensures (c < 0) == (b >= 128) && (c - b as int) % 256 == 0
  {
    if b < 128 then b as int else b as int - 256
  }

  /** An `int` narrowed to `char` by keeping its low eight bits. */
  function Truncate(ch: int): (b: byte)
    ensures (b as int - ch) % 256 == 0
  {
    (ch % 256) as byte
  }

  lemma TruncateSignedChar(b: byte)
    ensures Truncate(SignedChar(b)) == b
  {
  }

  function Concat(q: seq<seq<byte>>): (r: seq<byte>)
    ensures q == [] ==> r == []
  {
    if q == [] then [] else q[0] + Concat(q[1..])
  }

  function TotalLength(q: seq<seq<byte>>): (n: nat)
  {
    if q == [] then 0 else |q[0]| + TotalLength(q[1..])
  }

  lemma {:induction false} ConcatLength(q: seq<seq<byte>>)
    ensures |Concat(q)| == TotalLength(q)
  {
    if q != [] {
      ConcatLength(q[1..]);
    }
  }

  lemma {:induction false} ConcatAppend(q: seq<seq<byte>>, x: seq<byte>)
    ensures Concat(q + [x]) == Concat(q) + x
  {
    if q == [] {
      assert q + [x] == [x];
    } else {
      assert (q + [x])[1..] == q[1..] + [x];
      ConcatAppend(q[1..], x);
    }
  }
}
