/** SHA-256: the chunked implementation, and the standard it refines (FIPS 180-4, sections 4.1.2, 5.1.1 and 6.2.2). */
module Sha256 {

  import opened Octets

  // ----- the standard

  function RotateRight(x: bv32, n: nat): bv32
    requires 0 < n < 32
  {
    (x >> n) | (x << (32 - n))
  }

  function Ch(x: bv32, y: bv32, z: bv32): bv32 { (x & y) ^ (!x & z) }
  function Maj(x: bv32, y: bv32, z: bv32): bv32 { (x & y) ^ (x & z) ^ (y & z) }
  function Sum0(x: bv32): bv32 { RotateRight(x, 2) ^ RotateRight(x, 13) ^ RotateRight(x, 22) }
  function Sum1(x: bv32): bv32 { RotateRight(x, 6) ^ RotateRight(x, 11) ^ RotateRight(x, 25) }
  function Sigma0(x: bv32): bv32 { RotateRight(x, 7) ^ RotateRight(x, 18) ^ (x >> 3) }
  function Sigma1(x: bv32): bv32 { RotateRight(x, 17) ^ RotateRight(x, 19) ^ (x >> 10) }

  // the round constants, sixteen to a part
  const CONSTANTS1: seq<bv32> := [
    0x428a2f98, 0x71374491, 0xb5c0fbcf, 0xe9b5dba5, 0x3956c25b, 0x59f111f1, 0x923f82a4, 0xab1c5ed5,
    0xd807aa98, 0x12835b01, 0x243185be, 0x550c7dc3, 0x72be5d74, 0x80deb1fe, 0x9bdc06a7, 0xc19bf174]
  const CONSTANTS2: seq<bv32> := [
    0xe49b69c1, 0xefbe4786, 0x0fc19dc6, 0x240ca1cc, 0x2de92c6f, 0x4a7484aa, 0x5cb0a9dc, 0x76f988da,
    0x983e5152, 0xa831c66d, 0xb00327c8, 0xbf597fc7, 0xc6e00bf3, 0xd5a79147, 0x06ca6351, 0x14292967]
  const CONSTANTS3: seq<bv32> := [
    0x27b70a85, 0x2e1b2138, 0x4d2c6dfc, 0x53380d13, 0x650a7354, 0x766a0abb, 0x81c2c92e, 0x92722c85,
    0xa2bfe8a1, 0xa81a664b, 0xc24b8b70, 0xc76c51a3, 0xd192e819, 0xd6990624, 0xf40e3585, 0x106aa070]
  const CONSTANTS4: seq<bv32> := [
    0x19a4c116, 0x1e376c08, 0x2748774c, 0x34b0bcb5, 0x391c0cb3, 0x4ed8aa4a, 0x5b9cca4f, 0x682e6ff3,
    0x748f82ee, 0x78a5636f, 0x84c87814, 0x8cc70208, 0x90befffa, 0xa4506ceb, 0xbef9a3f7, 0xc67178f2]

  /** The round constant for step `t`. */
  function K(t: nat): bv32
    requires t < 64
  {
    if t < 16 then CONSTANTS1[t] else if t < 32 then CONSTANTS2[t - 16]
    else if t < 48 then CONSTANTS3[t - 32] else CONSTANTS4[t - 48]
  }

  /** The eight words of the hash value, or the eight working variables. */
  datatype State = State(a: bv32, b: bv32, c: bv32, d: bv32, e: bv32, f: bv32, g: bv32, h: bv32)

  const INITIAL: State := State(0x6a09e667, 0xbb67ae85, 0x3c6ef372, 0xa54ff53a, 0x510e527f, 0x9b05688c, 0x1f83d9ab, 0x5be0cd19)

  function BigEndian(w: bv8, x: bv8, y: bv8, z: bv8): bv32 {
    ((w as bv32) << 24) | ((x as bv32) << 16) | ((y as bv32) << 8) | (z as bv32)
  }

  /** The message schedule: word `t` of a block. */
  function Schedule(block: octets, t: nat): bv32
    requires |block| == 64
  {
    if t < 16 then BigEndian(block[4 * t], block[4 * t + 1], block[4 * t + 2], block[4 * t + 3])
    else Expanded(Schedule(block, t - 2), Schedule(block, t - 7), Schedule(block, t - 15), Schedule(block, t - 16))
  }

  function Expanded(w2: bv32, w7: bv32, w15: bv32, w16: bv32): bv32 { Sigma1(w2) + w7 + Sigma0(w15) + w16 }

  /** Addition modulo 2^32. */
  function Plus(x: bv32, y: bv32): bv32 { x + y }

  function Temp1(e: bv32, f: bv32, g: bv32, h: bv32, k: bv32, w: bv32): bv32 { h + Sum1(e) + Ch(e, f, g) + k + w }

  function Temp2(a: bv32, b: bv32, c: bv32): bv32 { Sum0(a) + Maj(a, b, c) }

  function Round(s: State, k: bv32, w: bv32): State {
    var t1, t2 := Temp1(s.e, s.f, s.g, s.h, k, w), Temp2(s.a, s.b, s.c);
    State(Plus(t1, t2), s.a, s.b, s.c, Plus(s.d, t1), s.e, s.f, s.g)
  }

  function Rounds(s: State, block: octets, n: nat): State
    requires |block| == 64 && n <= 64
  {
    if n == 0 then s else Round(Rounds(s, block, n - 1), K(n - 1), Schedule(block, n - 1))
  }

  function AddStates(s: State, t: State): State {
    State(Plus(s.a, t.a), Plus(s.b, t.b), Plus(s.c, t.c), Plus(s.d, t.d),
      Plus(s.e, t.e), Plus(s.f, t.f), Plus(s.g, t.g), Plus(s.h, t.h))
  }

  function Compress(s: State, block: octets): State
    requires |block| == 64
  {
    AddStates(s, Rounds(s, block, 64))
  }

  /** The hash value after all whole blocks of `m`. */
  function Hashed(m: octets): State {
    if |m| < 64 then INITIAL else Compress(Hashed(m[..|m| - 64]), m[|m| - 64..])
  }

  function LengthOctet(bits: nat, unit: nat): bv8
    requires unit > 0
  {
    (bits / unit % 256) as bv8
  }

  /** The length in bits, as eight octets with the highest first. */
  function LengthOctets(bits: nat): (r: octets)
    ensures |r| == 8
  {
    [LengthOctet(bits, 0x100_0000_0000_0000), LengthOctet(bits, 0x1_0000_0000_0000),
     LengthOctet(bits, 0x100_0000_0000), LengthOctet(bits, 0x1_0000_0000),
     LengthOctet(bits, 0x100_0000), LengthOctet(bits, 0x1_0000), LengthOctet(bits, 0x100), LengthOctet(bits, 1)]
  }

  /** What padding puts behind a message of `n` octets: a one bit, the fewest zero bits that leave room for the
      length in the last 64 bits of a block, and the length. */
  function Padding(n: nat): octets {
    [0x80] + Zeros((119 - n % 64) % 64) + LengthOctets(8 * n % TWO64)
  }

  function Word(s: State, j: nat): bv32
    requires j < 8
  {
    [s.a, s.b, s.c, s.d, s.e, s.f, s.g, s.h][j]
  }

  function Octet(x: bv32, shift: nat): bv8
    requires shift <= 24
  {
    ((x >> shift) & 0xff) as bv8
  }

  /** The eight words, each with its highest octet first. */
  function Output(s: State): (r: octets)
    ensures |r| == 32 && forall i :: 0 <= i < 32 ==> r[i] == Octet(Word(s, i / 4), 24 - i % 4 * 8)
  {
    seq(32, i requires 0 <= i < 32 => Octet(Word(s, i / 4), 24 - i % 4 * 8))
  }

  /** The digest of a whole message. */
  function Digest(m: octets): octets { Output(Hashed(m + Padding(|m|))) }

  lemma FewestZeros(n: nat, zeros: nat)
    requires (n + 1 + zeros + 8) % 64 == 0
    ensures |Padding(n)| <= 1 + zeros + 8
  {
    hide LengthOctets;
    ZerosNeeded(n - n % 64, n % 64);
    ZerosEnough(n / 64, n % 64, zeros);
  }

  lemma ZerosEnough(q: nat, r: nat, zeros: nat)
    requires r < 64 && (64 * q + r + 1 + zeros + 8) % 64 == 0
    ensures zeros >= if r < 56 then 56 - r - 1 else 119 - r
  {
  }

  lemma HashedMore(m: octets, block: octets)
    requires |block| == 64
    ensures Hashed(m + block) == Compress(Hashed(m), block)
  {
    assert (m + block)[..|m|] == m && (m + block)[|m|..] == block;
  }

  // ----- the implementation

  ghost function StateOf(s: array<bv32>): State
    requires s.Length == 8
    reads s
  {
    State(s[0], s[1], s[2], s[3], s[4], s[5], s[6], s[7])
  }

  /** The first loops of `sha256_transform`. */
  method ExpandWords(data: array<bv8>, ghost block: octets) returns (m: array<bv32>)
    requires data.Length == |block| == 64 && Starts(data, block)
    ensures fresh(m) && m.Length == 64 && forall t :: 0 <= t < 64 ==> m[t] == Schedule(block, t)
  {
    hide Expanded, BigEndian;
    m := new bv32[64];
    var i, j := 0, 0;
    while i < 16
      invariant 0 <= i <= 16 && j == 4 * i
      invariant forall t :: 0 <= t < i ==> m[t] == Schedule(block, t)
    {
      m[i] := BigEndian(data[j], data[j + 1], data[j + 2], data[j + 3]);
      i, j := i + 1, j + 4;
    }
    while i < 64
      invariant 16 <= i <= 64
      invariant forall t :: 0 <= t < i ==> m[t] == Schedule(block, t)
    {
      m[i] := Expanded(m[i - 2], m[i - 7], m[i - 15], m[i - 16]);
      i := i + 1;
    }
  }

  /** `sha256_transform` */
  method Transform(state: array<bv32>, data: array<bv8>, ghost block: octets)
    requires state.Length == 8 && data.Length == |block| == 64 && Starts(data, block)
    modifies state
    ensures StateOf(state) == Compress(old(StateOf(state)), block)
  {
    hide Temp1, Temp2, Plus, Schedule, Starts, K;
    var m := ExpandWords(data, block);
    var a, b, c, d := state[0], state[1], state[2], state[3];
    var e, f, g, h := state[4], state[5], state[6], state[7];
    ghost var start := StateOf(state);
    var i := 0;
    while i < 64
      invariant 0 <= i <= 64 && State(a, b, c, d, e, f, g, h) == Rounds(start, block, i)
    {
      var t1 := Temp1(e, f, g, h, K(i), m[i]);
      var t2 := Temp2(a, b, c);
      h := g;
      g := f;
      f := e;
      e := Plus(d, t1);
      d := c;
      c := b;
      b := a;
      a := Plus(t1, t2);
      i := i + 1;
    }
    AddTo(state, a, b, c, d, e, f, g, h);
  }

  /** The end of a block: its result is added to the state. */
  method AddTo(state: array<bv32>, a: bv32, b: bv32, c: bv32, d: bv32, e: bv32, f: bv32, g: bv32, h: bv32)
    requires state.Length == 8
    modifies state
    ensures StateOf(state) == AddStates(old(StateOf(state)), State(a, b, c, d, e, f, g, h))
  {
    hide Plus;
    state[0] := Plus(state[0], a);
    state[1] := Plus(state[1], b);
    state[2] := Plus(state[2], c);
    state[3] := Plus(state[3], d);
    state[4] := Plus(state[4], e);
    state[5] := Plus(state[5], f);
    state[6] := Plus(state[6], g);
    state[7] := Plus(state[7], h);
  }

  /** `SHA256_CTX` */
  class Context {
    const data: array<bv8>
    const state: array<bv32>
    var datalen: nat
    var bitlen: nat
    ghost var whole: octets // the octets hashed so far: whole blocks
    ghost var tail: octets  // the octets waiting in the buffer

    ghost predicate Valid()
      reads this, data, state
    {
      data.Length == 64 && state.Length == 8 &&
      |whole| % 64 == 0 && |tail| == datalen < 64 && Starts(data, tail) &&
      bitlen == 8 * |whole| % TWO64 && StateOf(state) == Hashed(whole)
    }

    /** `sha256_init` */
    constructor ()
      ensures Valid() && fresh(data) && fresh(state) && whole + tail == []
    {
      data := new bv8[64];
      var s := new bv32[8];
      s[0], s[1], s[2], s[3] := 0x6a09e667, 0xbb67ae85, 0x3c6ef372, 0xa54ff53a;
      s[4], s[5], s[6], s[7] := 0x510e527f, 0x9b05688c, 0x1f83d9ab, 0x5be0cd19;
      state := s;
      datalen, bitlen, whole, tail := 0, 0, [], [];
    }

    /** One octet of `sha256_update`. */
    method Put(x: bv8)
      requires Valid()
      modifies this, data, state
      ensures Valid() && whole + tail == old(whole + tail) + [x]
    {
      data[datalen] := x;
      datalen := datalen + 1;
      tail := tail + [x];
      if datalen == 64 {
        FlushBlock();
      }
    }

    /** A full buffer is hashed. */
    method FlushBlock()
      requires data.Length == 64 && state.Length == 8 && Starts(data, tail) && datalen == |tail| == 64
      requires |whole| % 64 == 0 && bitlen == 8 * |whole| % TWO64 && StateOf(state) == Hashed(whole)
      modifies this, state
      ensures Valid() && whole + tail == old(whole + tail)
    {
      hide Hashed, Compress, StateOf, Context.Valid;
      HashedMore(whole, tail);
      Transform(state, data, tail);
      NextBlock(|whole|, bitlen);
      bitlen := (bitlen + 512) % TWO64;
      datalen := 0;
      whole, tail := whole + tail, [];
      assert whole + tail == whole;
      Flushed();
    }

    lemma Flushed()
      requires data.Length == 64 && state.Length == 8 && tail == [] && datalen == 0
      requires |whole| % 64 == 0 && bitlen == 8 * |whole| % TWO64 && StateOf(state) == Hashed(whole)
      ensures Valid()
    {
      hide Hashed, StateOf;
    }

    /** `sha256_update`; its loop counter has 32 bits. */
    method Update(input: octets)
      requires Valid() && |input| < TWO32
      modifies this, data, state
      ensures Valid() && whole + tail == old(whole + tail) + input
    {
      hide Context.Valid;
      var i := 0;
      while i < |input|
        invariant i <= |input| && Valid() && whole + tail == old(whole + tail) + input[..i]
      {
        Put(input[i]);
        i := i + 1;
      }
      assert input[..i] == input;
    }
  
    /** The padding loops: a one bit and zero octets up to `limit`. */
    method Pad(limit: nat)
      requires Valid() && datalen < limit <= 64
      modifies data
      ensures Starts(data, tail + [0x80] + Zeros(limit - datalen - 1))
    {
      var i := datalen;
      data[i] := 0x80;
      i := i + 1;
      while i < limit
        invariant datalen < i <= limit && Starts(data, tail + [0x80])
        invariant forall j :: datalen < j < i ==> data[j] == 0
      {
        data[i] := 0x00;
        i := i + 1;
      }
    }

    /** The length in the last eight octets of the block. */
    method PutLength(ghost block: octets)
      requires data.Length == 64 && |block| == 56 && Starts(data, block)
      modifies data
      ensures Starts(data, block + LengthOctets(bitlen))
    {
      hide LengthOctet, LengthOctets;
      WriteLength(bitlen);
      LengthOctetsAre(bitlen);
    }

    method WriteLength(bits: nat)
      requires data.Length == 64
      modifies data
      ensures forall i :: 0 <= i < 56 ==> data[i] == old(data[i])
      ensures data[56] == LengthOctet(bits, 0x100_0000_0000_0000) && data[57] == LengthOctet(bits, 0x1_0000_0000_0000)
      ensures data[58] == LengthOctet(bits, 0x100_0000_0000) && data[59] == LengthOctet(bits, 0x1_0000_0000)
      ensures data[60] == LengthOctet(bits, 0x100_0000) && data[61] == LengthOctet(bits, 0x1_0000)
      ensures data[62] == LengthOctet(bits, 0x100) && data[63] == LengthOctet(bits, 1)
    {
      hide LengthOctet;
      data[63] := LengthOctet(bits, 1);
      data[62] := LengthOctet(bits, 0x100);
      data[61] := LengthOctet(bits, 0x1_0000);
      data[60] := LengthOctet(bits, 0x100_0000);
      data[59] := LengthOctet(bits, 0x1_0000_0000);
      data[58] := LengthOctet(bits, 0x100_0000_0000);
      data[57] := LengthOctet(bits, 0x1_0000_0000_0000);
      data[56] := LengthOctet(bits, 0x100_0000_0000_0000);
    }

    /** The second part of the padding, when the length does not fit behind the message. */
    method ClearBlock()
      requires data.Length == 64
      modifies data
      ensures Starts(data, Zeros(56))
    {
      forall i | 0 <= i < 56 { data[i] := 0x00; }
    }

    /** `sha256_final`, up to the copying of the result. */
    method Finish()
      requires Valid()
      modifies this`bitlen, data, state
      ensures state.Length == 8 && Output(StateOf(state)) == Digest(whole + tail)
    {
      hide Hashed, Compress, Output, Zeros, StateOf, Digest;
      if datalen < 56 {
        Pad(56);
      } else {
        Pad(64);
        Transform(state, data, tail + [0x80] + Zeros(64 - datalen - 1));
        ClearBlock();
      }
      BitLength(|whole|, datalen);
      bitlen := (bitlen + datalen * 8) % TWO64;
      LastBlock(if datalen < 56 then tail + [0x80] + Zeros(56 - datalen - 1) else Zeros(56));
    }

    /** The block that ends with the length. */
    method LastBlock(ghost block: octets)
      requires data.Length == 64 && state.Length == 8 && Starts(data, block) && |whole| % 64 == 0
      requires bitlen == 8 * |whole + tail| % TWO64 && |tail| < 64
      requires block == if |tail| < 56 then tail + [0x80] + Zeros(56 - |tail| - 1) else Zeros(56)
      requires StateOf(state) == if |tail| < 56 then Hashed(whole)
                                 else Compress(Hashed(whole), tail + [0x80] + Zeros(64 - |tail| - 1))
      modifies data, state
      ensures Output(StateOf(state)) == Digest(whole + tail)
    {
      hide Hashed, Compress, Output, LengthOctets, Zeros, Starts, StateOf, Digest;
      if |tail| < 56 { OneBlock(whole, tail); } else { TwoBlocks(whole, tail); }
      PutLength(block);
      Transform(state, data, block + LengthOctets(bitlen));
    }
  }

  lemma LengthOctetsAre(bits: nat)
    ensures var l := LengthOctets(bits);
      l[0] == LengthOctet(bits, 0x100_0000_0000_0000) && l[1] == LengthOctet(bits, 0x1_0000_0000_0000) &&
      l[2] == LengthOctet(bits, 0x100_0000_0000) && l[3] == LengthOctet(bits, 0x1_0000_0000) &&
      l[4] == LengthOctet(bits, 0x100_0000) && l[5] == LengthOctet(bits, 0x1_0000) &&
      l[6] == LengthOctet(bits, 0x100) && l[7] == LengthOctet(bits, 1)
  {
    hide LengthOctet;
  }

  lemma BitLength(w: nat, n: nat)
    ensures (8 * w % TWO64 + n * 8) % TWO64 == 8 * (w + n) % TWO64
  {
  }

  lemma ZerosSplit(m: nat, n: nat)
    ensures Zeros(m + n) == Zeros(m) + Zeros(n)
  {
  }

  /** The length counted, a block further. */
  lemma NextBlock(n: nat, bits: nat)
    requires n % 64 == 0 && bits == 8 * n % TWO64
    ensures (n + 64) % 64 == 0 && (bits + 512) % TWO64 == 8 * (n + 64) % TWO64
  {
  }

  lemma Together(whole: octets, tail: octets, zeros: octets, zeros': octets, bits: octets)
    ensures whole + (tail + [0x80] + zeros + bits) == whole + tail + ([0x80] + zeros + bits)
    ensures whole + (tail + [0x80] + zeros) + (zeros' + bits) == whole + tail + ([0x80] + (zeros + zeros') + bits)
  {
    var one: octets := [0x80];
    assert whole + (tail + one + zeros + bits) == whole + tail + (one + zeros + bits);
    assert whole + (tail + one + zeros) + (zeros' + bits) == whole + tail + (one + (zeros + zeros') + bits);
  }

  lemma OneBlock(whole: octets, tail: octets)
    requires |whole| % 64 == 0 && |tail| < 56
    ensures var block := tail + [0x80] + Zeros(56 - |tail| - 1) + LengthOctets(8 * |whole + tail| % TWO64);
      |block| == 64 && Output(Compress(Hashed(whole), block)) == Digest(whole + tail)
  {
    hide Hashed, Compress, Output, LengthOctets;
    var bits := LengthOctets(8 * |whole + tail| % TWO64);
    ZerosNeeded(|whole|, |tail|);
    HashedMore(whole, tail + [0x80] + Zeros(56 - |tail| - 1) + bits);
    Together(whole, tail, Zeros(56 - |tail| - 1), [], bits);
  }

  lemma ZerosNeeded(w: nat, n: nat)
    requires w % 64 == 0 && n < 64
    ensures (119 - (w + n) % 64) % 64 == if n < 56 then 56 - n - 1 else 119 - n
  {
    assert (w + n) % 64 == n;
  }

  lemma TwoBlocks(whole: octets, tail: octets)
    requires |whole| % 64 == 0 && 56 <= |tail| < 64
    ensures var first := tail + [0x80] + Zeros(64 - |tail| - 1);
      var second := Zeros(56) + LengthOctets(8 * |whole + tail| % TWO64);
      |first| == |second| == 64 && Output(Compress(Compress(Hashed(whole), first), second)) == Digest(whole + tail)
  {
    hide Hashed, Compress, Output, LengthOctets, Zeros;
    var bits := LengthOctets(8 * |whole + tail| % TWO64);
    ZerosNeeded(|whole|, |tail|);
    ZerosSplit(64 - |tail| - 1, 56);
    HashedMore(whole, tail + [0x80] + Zeros(64 - |tail| - 1));
    HashedMore(whole + (tail + [0x80] + Zeros(64 - |tail| - 1)), Zeros(56) + bits);
    Together(whole, tail, Zeros(64 - |tail| - 1), Zeros(56), bits);
  }

  lemma WordsAre(state: array<bv32>)
    requires state.Length == 8
    ensures forall j :: 0 <= j < 8 ==> Word(StateOf(state), j) == state[j]
  {
    forall j | 0 <= j < 8 ensures Word(StateOf(state), j) == state[j] { assert j in [0, 1, 2, 3, 4, 5, 6, 7]; }
  }

  /** The last loop of `sha256_final`: the words, highest octet first. */
  method CopyOut(state: array<bv32>, hash: array<bv8>)
    requires state.Length == 8 && hash.Length >= 32
    modifies hash
    ensures Starts(hash, Output(StateOf(state)))
  {
    hide Octet, Word, StateOf, Output;
    ghost var out := Output(StateOf(state));
    var i := 0;
    while i < 4
      invariant 0 <= i <= 4
      invariant forall x :: 0 <= x < i ==> hash[x] == out[x]
      invariant forall x :: 4 <= x < 4 + i ==> hash[x] == out[x]
      invariant forall x :: 8 <= x < 8 + i ==> hash[x] == out[x]
      invariant forall x :: 12 <= x < 12 + i ==> hash[x] == out[x]
      invariant forall x :: 16 <= x < 16 + i ==> hash[x] == out[x]
      invariant forall x :: 20 <= x < 20 + i ==> hash[x] == out[x]
      invariant forall x :: 24 <= x < 24 + i ==> hash[x] == out[x]
      invariant forall x :: 28 <= x < 28 + i ==> hash[x] == out[x]
    {
      OutputOf(state, i);
      PutOctets(state, hash, i);
      i := i + 1;
    }
  }

  /** The loop's body: one octet of each word. */
  method PutOctets(state: array<bv32>, hash: array<bv8>, i: nat)
    requires state.Length == 8 && hash.Length >= 32 && i < 4
    modifies hash
    ensures hash[i] == Octet(state[0], 24 - i * 8)
    ensures hash[i + 4] == Octet(state[1], 24 - i * 8)
    ensures hash[i + 8] == Octet(state[2], 24 - i * 8)
    ensures hash[i + 12] == Octet(state[3], 24 - i * 8)
    ensures hash[i + 16] == Octet(state[4], 24 - i * 8)
    ensures hash[i + 20] == Octet(state[5], 24 - i * 8)
    ensures hash[i + 24] == Octet(state[6], 24 - i * 8)
    ensures hash[i + 28] == Octet(state[7], 24 - i * 8)
    ensures forall y :: 0 <= y < hash.Length && y !in {i, i + 4, i + 8, i + 12, i + 16, i + 20, i + 24, i + 28} ==>
      hash[y] == old(hash[y])
  {
    hide Octet;
    hash[i] := Octet(state[0], 24 - i * 8);
    hash[i + 4] := Octet(state[1], 24 - i * 8);
    hash[i + 8] := Octet(state[2], 24 - i * 8);
    hash[i + 12] := Octet(state[3], 24 - i * 8);
    hash[i + 16] := Octet(state[4], 24 - i * 8);
    hash[i + 20] := Octet(state[5], 24 - i * 8);
    hash[i + 24] := Octet(state[6], 24 - i * 8);
    hash[i + 28] := Octet(state[7], 24 - i * 8);
  }

  /** The octets at one place of the eight words. */
  lemma OutputOf(state: array<bv32>, i: nat)
    requires state.Length == 8 && i < 4
    ensures var out := Output(StateOf(state));
      out[i] == Octet(state[0], 24 - i * 8) && out[i + 4] == Octet(state[1], 24 - i * 8) &&
      out[i + 8] == Octet(state[2], 24 - i * 8) && out[i + 12] == Octet(state[3], 24 - i * 8) &&
      out[i + 16] == Octet(state[4], 24 - i * 8) && out[i + 20] == Octet(state[5], 24 - i * 8) &&
      out[i + 24] == Octet(state[6], 24 - i * 8) && out[i + 28] == Octet(state[7], 24 - i * 8)
  {
    hide Octet, Word, StateOf;
    WordsAre(state);
    assert i / 4 == 0 && (i + 4) / 4 == 1 && (i + 8) / 4 == 2 && (i + 12) / 4 == 3;
    assert (i + 16) / 4 == 4 && (i + 20) / 4 == 5 && (i + 24) / 4 == 6 && (i + 28) / 4 == 7;
  }

  /** However a message is cut into chunks, the digest is that of the message. */
  method HashChunks(chunks: seq<octets>) returns (hash: octets)
    requires forall i :: 0 <= i < |chunks| ==> |chunks[i]| < TWO32
    ensures hash == Digest(Concatenated(chunks))
  {
    hide Digest, Hashed, Compress, Output;
    var ctx := new Context();
    var i := 0;
    while i < |chunks|
      invariant i <= |chunks| && ctx.Valid() && fresh(ctx) && fresh(ctx.data) && fresh(ctx.state)
      invariant ctx.whole + ctx.tail + Concatenated(chunks[i..]) == Concatenated(chunks)
    {
      ctx.Update(chunks[i]);
      assert chunks[i..][1..] == chunks[i + 1..];
      i := i + 1;
    }
    assert ctx.whole + ctx.tail + [] == ctx.whole + ctx.tail;
    ctx.Finish();
    var out := new bv8[32];
    CopyOut(ctx.state, out);
    hash := out[..];
    assert hash == Digest(Concatenated(chunks));
  }
}
