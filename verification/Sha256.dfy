/**
 * The streaming SHA-256 of the runner. The compression function and the padding follow sections 4.1.2,
 * 5.1.1 and 6.2.2 of FIPS 180-4; the stream holds them over any split of the message.
 */
module Sha256 {

  import opened Octets

  type Word = bv32

  datatype Registers = Registers(a: Word, b: Word, c: Word, d: Word, e: Word, f: Word, g: Word, h: Word)

  const INITIAL: Registers := Registers(0x6a09e667, 0xbb67ae85, 0x3c6ef372, 0xa54ff53a,
                                        0x510e527f, 0x9b05688c, 0x1f83d9ab, 0x5be0cd19)

  const K: seq<Word> :=
    [0x428a2f98, 0x71374491, 0xb5c0fbcf, 0xe9b5dba5, 0x3956c25b, 0x59f111f1, 0x923f82a4, 0xab1c5ed5] +
    [0xd807aa98, 0x12835b01, 0x243185be, 0x550c7dc3, 0x72be5d74, 0x80deb1fe, 0x9bdc06a7, 0xc19bf174] +
    [0xe49b69c1, 0xefbe4786, 0x0fc19dc6, 0x240ca1cc, 0x2de92c6f, 0x4a7484aa, 0x5cb0a9dc, 0x76f988da] +
    [0x983e5152, 0xa831c66d, 0xb00327c8, 0xbf597fc7, 0xc6e00bf3, 0xd5a79147, 0x06ca6351, 0x14292967] +
    [0x27b70a85, 0x2e1b2138, 0x4d2c6dfc, 0x53380d13, 0x650a7354, 0x766a0abb, 0x81c2c92e, 0x92722c85] +
    [0xa2bfe8a1, 0xa81a664b, 0xc24b8b70, 0xc76c51a3, 0xd192e819, 0xd6990624, 0xf40e3585, 0x106aa070] +
    [0x19a4c116, 0x1e376c08, 0x2748774c, 0x34b0bcb5, 0x391c0cb3, 0x4ed8aa4a, 0x5b9cca4f, 0x682e6ff3] +
    [0x748f82ee, 0x78a5636f, 0x84c87814, 0x8cc70208, 0x90befffa, 0xa4506ceb, 0xbef9a3f7, 0xc67178f2]

  // ---------------------------------------------------------------- section 4.1.2: functions on words

  function RotateRight(w: Word, n: bv6): Word
    requires 0 < n < 32
  {
    (w >> n) | (w << (32 - n))
  }

  function Choose(e: Word, f: Word, g: Word): Word {
    (e & f) ^ (!e & g)
  }

  function Majority(a: Word, b: Word, c: Word): Word {
    (a & b) ^ (a & c) ^ (b & c)
  }

  function BigSigma0(a: Word): Word {
    RotateRight(a, 2) ^ RotateRight(a, 13) ^ RotateRight(a, 22)
  }

  function BigSigma1(e: Word): Word {
    RotateRight(e, 6) ^ RotateRight(e, 11) ^ RotateRight(e, 25)
  }

  function SmallSigma0(w: Word): Word {
    RotateRight(w, 7) ^ RotateRight(w, 18) ^ (w >> 3)
  }

  function SmallSigma1(w: Word): Word {
    RotateRight(w, 17) ^ RotateRight(w, 19) ^ (w >> 10)
  }

  /** Addition modulo 2^32. */
  function Add(x: Word, y: Word): Word {
    x + y
  }

  // ---------------------------------------------------------------- section 6.2.2: one block

  function BigEndianWord(block: seq<byte>, i: nat): Word
    requires |block| == 64 && i < 16
  {
    (block[4 * i] as Word << 24) | (block[4 * i + 1] as Word << 16) | (block[4 * i + 2] as Word << 8)
      | (block[4 * i + 3] as Word)
  }

  /** The message schedule; the standard writes the same sum from its last term to its first. */
  function W(block: seq<byte>, t: nat): Word
    requires |block| == 64
  {
    if t < 16 then BigEndianWord(block, t)
    else Add(Add(Add(W(block, t - 16), SmallSigma0(W(block, t - 15))), W(block, t - 7)), SmallSigma1(W(block, t - 2)))
  }

  function Round(r: Registers, k: Word, w: Word): Registers {
    var t1 := r.h + BigSigma1(r.e) + Choose(r.e, r.f, r.g) + k + w;
    var t2 := BigSigma0(r.a) + Majority(r.a, r.b, r.c);
    Registers(t1 + t2, r.a, r.b, r.c, r.d + t1, r.e, r.f, r.g)
  }

  function Rounds(start: Registers, block: seq<byte>, t: nat): Registers
    requires |block| == 64 && t <= 64
  {
    if t == 0 then start else Round(Rounds(start, block, t - 1), K[t - 1], W(block, t - 1))
  }

  function AddRegisters(x: Registers, y: Registers): Registers {
    Registers(x.a + y.a, x.b + y.b, x.c + y.c, x.d + y.d, x.e + y.e, x.f + y.f, x.g + y.g, x.h + y.h)
  }

  function Compress(state: Registers, block: seq<byte>): Registers
    requires |block| == 64
  {
    AddRegisters(state, Rounds(state, block, 64))
  }

  /** The compression function folded over the blocks of a whole number of blocks. */
  function Fold(state: Registers, bytes: seq<byte>): Registers
    requires |bytes| % 64 == 0
    decreases |bytes|
  {
    if bytes == [] then state else Fold(Compress(state, bytes[..64]), bytes[64..])
  }

  lemma {:induction false} FoldAppend(state: Registers, bytes: seq<byte>, block: seq<byte>)
    requires |bytes| % 64 == 0 && |block| == 64
    ensures Fold(state, bytes + block) == Compress(Fold(state, bytes), block)
    decreases |bytes|
  {
    hide Compress;
    if bytes == [] {
      assert bytes + block == block && block[..64] == block && block[64..] == [];
      assert Fold(Compress(state, block), []) == Compress(state, block);
    } else {
      assert (bytes + block)[..64] == bytes[..64] && (bytes + block)[64..] == bytes[64..] + block;
      FoldAppend(Compress(state, bytes[..64]), bytes[64..], block);
    }
  }

  // ---------------------------------------------------------------- section 5.1.1: padding

  /** Zero bytes between the 0x80 byte and the length: the fewest that leave room for eight in the last block. */
  function ZeroCount(length: nat): (k: nat)
    ensures (length + 1 + k) % 64 == 56 && k < 64
  {
    (119 - length % 64) % 64
  }

  lemma ZeroCountLeast(length: nat, k: nat)
    requires (length + 1 + k) % 64 == 56
    ensures ZeroCount(length) <= k
  {
  }

  function Zeros(n: nat): (r: seq<byte>)
    ensures |r| == n
  {
    if n == 0 then [] else Zeros(n - 1) + [0]
  }

  function Shift(i: nat): (r: nat)
    ensures r > 0
  {
    if i == 0 then 1 else 256 * Shift(i - 1)
  }

  /** The low n bytes of v, highest first. */
  function BigEndian(v: nat, n: nat): (r: seq<byte>)
    ensures |r| == n
  {
    if n == 0 then [] else [(v / Shift(n - 1) % 256) as byte] + BigEndian(v, n - 1)
  }

  /** The number that bytes stand for, the last one counting ones. */
  function BigEndianNumber(bytes: seq<byte>): nat {
    if bytes == [] then 0 else 256 * BigEndianNumber(bytes[..|bytes| - 1]) + bytes[|bytes| - 1] as nat
  }

  lemma {:induction false} FirstByteCounts(b: byte, rest: seq<byte>)
    ensures BigEndianNumber([b] + rest) == b as nat * Shift(|rest|) + BigEndianNumber(rest)
  {
    if rest == [] {
      assert [b] + rest == [b] && [b][..0] == [];
      assert BigEndianNumber([b]) == 256 * BigEndianNumber([]) + b as nat;
    } else {
      var n := |rest| - 1;
      FirstByteCounts(b, rest[..n]);
      assert ([b] + rest)[..n + 1] == [b] + rest[..n];
      assert 256 * (b as nat * Shift(n)) == b as nat * Shift(n + 1);
    }
  }

  lemma Regrouped(v: nat, s: nat, q: nat, r: nat, m: nat)
    requires v == s * (256 * q + r) + m && r < 256 && m < s
    ensures v == 256 * s * q + (r * s + m) && r * s + m < 256 * s
  {
    assert s * (256 * q + r) == s * (256 * q) + s * r;
    assert s * (256 * q) == 256 * s * q;
    ProductsOrdered(s, r, 256);
  }

  lemma SplitRemainder(v: nat, s: nat)
    requires s > 0
    ensures v % (256 * s) == v / s % 256 * s + v % s
  {
    var e, m := v / s, v % s;
    var q, r := e / 256, e % 256;
    assert e == 256 * q + r;
    Regrouped(v, s, q, r, m);
    QuotientIs(v, 256 * s, q, r * s + m);
  }

  /** The length field stands for the number of bits. */
  lemma {:induction false} BigEndianReads(v: nat, n: nat)
    ensures BigEndianNumber(BigEndian(v, n)) == v % Shift(n)
  {
    if n == 0 {
    } else {
      BigEndianReads(v, n - 1);
      FirstByteCounts((v / Shift(n - 1) % 256) as byte, BigEndian(v, n - 1));
      SplitRemainder(v, Shift(n - 1));
    }
  }

  lemma EightBytes()
    ensures Shift(8) == U64
  {
    assert Shift(4) == 0x1_0000_0000;
    assert Shift(6) == 256 * 256 * Shift(4);
  }

  /** The padded message ends in its length in bits, modulo 2^64, in eight bytes. */
  lemma PadEnds(message: seq<byte>)
    ensures |Pad(message)| > |message| + 8
    ensures BigEndianNumber(Pad(message)[|Pad(message)| - 8..]) == 8 * |message| % U64
  {
    hide BigEndian; hide BigEndianNumber; hide Shift; hide Zeros;
    var bits := 8 * |message| % U64;
    BigEndianReads(bits, 8);
    EightBytes();
    assert Pad(message)[|Pad(message)| - 8..] == BigEndian(bits, 8);
  }

  lemma PadLength(length: nat)
    ensures (length + 1 + ZeroCount(length) + 8) % 64 == 0
  {
  }

  function Pad(message: seq<byte>): (r: seq<byte>)
    ensures |r| % 64 == 0
  {
    PadLength(|message|);
    message + [0x80] + Zeros(ZeroCount(|message|)) + BigEndian(8 * |message| % U64, 8)
  }

  /** The hash of a message: the initial registers folded over its padded blocks. */
  function Digest(message: seq<byte>): Registers {
    Fold(INITIAL, Pad(message))
  }

  // ---------------------------------------------------------------- the stream

  class Stream {
    var state: Registers
    var buffer: array<byte>
    var bufferSize: nat
    var totalBytes: nat

    /** The part of the message that is folded into the state. */
    ghost var folded: seq<byte>

    /** The whole blocks fed in so far are folded into the state, and less than a block lies in the buffer. */
    ghost predicate Absorbed()
      reads this`state, this`buffer, this`bufferSize, this`folded, buffer
    {
      && buffer.Length == 64 && bufferSize < 64 && |folded| % 64 == 0
      && state == Fold(INITIAL, folded)
    }

    /** Everything fed in so far. */
    ghost function Message(): seq<byte>
      requires Absorbed()
      reads this`state, this`buffer, this`bufferSize, this`folded, buffer
    {
      folded + buffer[..bufferSize]
    }

    ghost predicate Valid()
      reads this, buffer
    {
      Absorbed() && totalBytes == |Message()| % U64
    }

    constructor ()
      ensures Valid() && Message() == [] && fresh(buffer)
    {
      state := INITIAL;
      buffer := new byte[64](_ => 0);
      bufferSize, totalBytes, folded := 0, 0, [];
    }

    /** The message schedule of the buffered block. */
    method Schedule() returns (words: seq<Word>)
      requires buffer.Length == 64
      ensures |words| == 64 && forall t :: 0 <= t < 64 ==> words[t] == W(buffer[..], t)
    {
      hide SmallSigma0; hide SmallSigma1; hide BigEndianWord; hide Add;
      ghost var block := buffer[..];
      words := [];
      for i := 0 to 16
        invariant |words| == i && forall t :: 0 <= t < i ==> words[t] == W(block, t)
      {
        words := words + [BigEndianWord(buffer[..], i)];
      }
      for i := 16 to 64
        invariant |words| == i && forall t :: 0 <= t < i ==> words[t] == W(block, t)
      {
        var s0 := SmallSigma0(words[i - 15]);
        var s1 := SmallSigma1(words[i - 2]);
        words := words + [Add(Add(Add(words[i - 16], s0), words[i - 7]), s1)];
      }
    }

    /** Fold the full buffer into the state. */
    method Transform()
      requires buffer.Length == 64
      modifies this`state
      ensures state == Compress(old(state), buffer[..])
    {
      hide Round; hide AddRegisters; hide W;
      var words := Schedule();
      var r := state;
      for i := 0 to 64
        invariant r == Rounds(state, buffer[..], i)
      {
        r := Round(r, K[i], words[i]);
      }
      state := AddRegisters(state, r);
    }

    /** Copy bytes behind the buffered ones. */
    method Copy(bytes: seq<byte>)
      requires buffer.Length == 64 && bufferSize + |bytes| <= 64
      modifies this`bufferSize, buffer
      ensures bufferSize == old(bufferSize) + |bytes|
      ensures buffer[..bufferSize] == old(buffer[..bufferSize]) + bytes
    {
      ghost var held := buffer[..bufferSize];
      for i := 0 to |bytes|
        invariant bufferSize == old(bufferSize) && buffer[..bufferSize + i] == held + bytes[..i]
      {
        buffer[bufferSize + i] := bytes[i];
      }
      bufferSize := bufferSize + |bytes|;
    }

    /** One turn of the update loop: as many bytes as fit, and a full buffer is folded away. */
    method Absorb(bytes: seq<byte>)
      requires Absorbed() && 0 < |bytes| <= 64 - bufferSize
      modifies this`state, this`bufferSize, this`folded, buffer
      ensures Absorbed() && Message() == old(Message()) + bytes
    {
      hide Fold; hide Compress;
      Copy(bytes);
      assert folded + buffer[..bufferSize] == old(Message()) + bytes;
      if bufferSize == buffer.Length {
        assert buffer[..] == buffer[..bufferSize];
        FoldAppend(INITIAL, folded, buffer[..]);
        Transform();
        folded := folded + buffer[..];
        bufferSize := 0;
        assert folded + buffer[..0] == folded;
      }
    }

    /** Feed bytes in: the state depends on the whole message only, however it is split over calls. */
    method Update(bytes: seq<byte>)
      requires Valid()
      modifies this, buffer
      ensures Valid() && buffer == old(buffer)
      ensures Message() == old(Message()) + bytes
    {
      hide Fold; hide Message;
      WrapEarly(|Message()|, |bytes|);
      totalBytes := (totalBytes + |bytes|) % U64;
      ghost var total := totalBytes;
      ghost var before := Message();
      var done := 0;
      while done < |bytes|
        invariant done <= |bytes| && buffer == old(buffer) && totalBytes == total
        invariant Absorbed() && Message() == before + bytes[..done]
      {
        var copied := if |bytes| - done < 64 - bufferSize then |bytes| - done else 64 - bufferSize;
        assert bytes[..done + copied] == bytes[..done] + bytes[done..done + copied];
        Absorb(bytes[done..done + copied]);
        done := done + copied;
      }
      assert bytes[..done] == bytes;
    }

    /** Feed zeros until the length fits: the loop ends, with exactly the zeros that the standard asks for. */
    method PadWithZeros(ghost length: nat)
      requires Valid() && |Message()| == length + 1
      modifies this, buffer
      ensures Valid() && buffer == old(buffer)
      ensures Message() == old(Message()) + Zeros(ZeroCount(length))
    {
      hide Fold; hide ZeroCount;
      ghost var before := Message();
      ghost var zeros := 0;
      while bufferSize != 56
        invariant Valid() && buffer == old(buffer)
        invariant Message() == before + Zeros(zeros)
        invariant zeros <= ZeroCount(length)
        decreases ZeroCount(length) - zeros
      {
        Turns(bufferSize, 64, |folded| / 64);
        ZerosRemain(length, zeros);
        Update([0]);
        zeros := zeros + 1;
      }
      Turns(bufferSize, 64, |folded| / 64);
      ZeroCountLeast(length, zeros);
    }

    /** Pad and fold the rest: the registers that the digest prints. The stream is left on a block boundary. */
    method Finish() returns (digest: Registers)
      requires Valid()
      modifies this, buffer
      ensures digest == Digest(old(Message())) == state
    {
      hide Fold; hide ZeroCount; hide BigEndian; hide Zeros; hide Message;
      ghost var given := Message();
      WrapEarly(|given|, 0);
      var bits := totalBytes * 8 % U64;
      Update([0x80]);
      PadWithZeros(|given|);
      var length := LengthField(bits);
      Update(length);
      assert Message() == Pad(given);
      OnBoundary();
      digest := state;
    }

    /** A message of whole blocks is folded completely. */
    lemma OnBoundary()
      requires Absorbed() && |Message()| % 64 == 0
      ensures state == Fold(INITIAL, Message())
    {
      Turns(bufferSize, 64, |folded| / 64);
      assert Message() == folded;
    }
  }

  lemma BigEndianFirst(v: nat, n: nat)
    requires n > 0
    ensures BigEndian(v, n) == [(v / Shift(n - 1) % 256) as byte] + BigEndian(v, n - 1)
  {
  }

  /** The eight bytes of the bit length, highest first. */
  method LengthField(bits: nat) returns (r: seq<byte>)
    ensures r == BigEndian(bits, 8)
  {
    assert BigEndian(bits, 0) == [];
    hide BigEndian; hide Shift;
    r := [];
    var i := 8;
    while i > 0
      invariant 0 <= i <= 8
      invariant r + BigEndian(bits, i) == BigEndian(bits, 8)
    {
      BigEndianFirst(bits, i);
      r := r + [(bits / Shift(i - 1) % 256) as byte];
      i := i - 1;
    }
  }

  /** While the buffer has not reached 56 bytes, zeros are left to be fed. */
  lemma ZerosRemain(length: nat, zeros: nat)
    requires zeros <= ZeroCount(length) && (length + 1 + zeros) % 64 != 56
    ensures zeros < ZeroCount(length)
  {
  }
}
