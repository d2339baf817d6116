// Little-endian words in byte strings.
module Bytes {
  import opened Basics

  type Data = seq<u8>

  const NEWLINE: u8 := 10

  function LittleEndian(bytes: Data): nat {
    if bytes == [] then 0 else bytes[0] + TWO_8 * LittleEndian(bytes[1..])
  }

  function Power256(n: nat): nat {
    if n == 0 then 1 else TWO_8 * Power256(n - 1)
  }

  lemma {:induction false} LittleEndianBound(bytes: Data)
    ensures LittleEndian(bytes) < Power256(|bytes|)
  {
    if bytes != [] {
      LittleEndianBound(bytes[1..]);
      assert Power256(|bytes|) == TWO_8 * Power256(|bytes| - 1);
    }
  }

  lemma Powers()
    ensures Power256(2) == TWO_16 && Power256(4) == TWO_32 && Power256(8) == TWO_64
  {
    assert Power256(2) == TWO_16;
    assert Power256(4) == TWO_8 * (TWO_8 * Power256(2));
    assert Power256(6) == TWO_8 * (TWO_8 * Power256(4));
    assert Power256(8) == TWO_8 * (TWO_8 * Power256(6));
  }

  // A slice of a slice is a slice of the whole.
  lemma Subslice(bytes: Data, from: nat, to: nat, i: nat, j: nat)
    requires from <= to <= |bytes| && i <= j <= to - from
    ensures bytes[from..to][i..j] == bytes[from + i..from + j]
  {
    var part := bytes[from..to];
    var a, b := part[i..j], bytes[from + i..from + j];
    assert |a| == |b|;
    forall k | 0 <= k < |a| ensures a[k] == b[k] {
      assert part[i + k] == bytes[from + i + k];
    }
  }

  lemma Adjoin(bytes: Data, from: nat, mid: nat, to: nat)
    requires from <= mid <= to <= |bytes|
    ensures bytes[from..mid] + bytes[mid..to] == bytes[from..to]
  {
  }

  // The word at the offset, or nothing past the end.
  function ReadU16(bytes: Data, offset: nat): (r: Option<u16>) {
    Powers();
    if offset + 2 <= |bytes| then
      LittleEndianBound(bytes[offset..offset + 2]);
      Some(LittleEndian(bytes[offset..offset + 2]))
    else None
  }

  function ReadU32(bytes: Data, offset: nat): (r: Option<u32>) {
    Powers();
    if offset + 4 <= |bytes| then
      LittleEndianBound(bytes[offset..offset + 4]);
      Some(LittleEndian(bytes[offset..offset + 4]))
    else None
  }

  function ReadU64(bytes: Data, offset: nat): (r: Option<u64>) {
    Powers();
    if offset + 8 <= |bytes| then
      LittleEndianBound(bytes[offset..offset + 8]);
      Some(LittleEndian(bytes[offset..offset + 8]))
    else None
  }

  function ByteAt(bytes: Data, at: nat): int
    requires at < |bytes|
  {
    bytes[at]
  }

  // A word is there exactly when its bytes are, the lowest first.
  predicate WordIs(bytes: Data, at: nat, word: Option<u64>) {
    if at + 8 <= |bytes| then
      && word.Some?
      && word.value == ByteAt(bytes, at) + 0x100 * ByteAt(bytes, at + 1) + 0x1_0000 * ByteAt(bytes, at + 2)
                       + 0x100_0000 * ByteAt(bytes, at + 3) + 0x1_0000_0000 * ByteAt(bytes, at + 4)
                       + 0x100_0000_0000 * ByteAt(bytes, at + 5) + 0x1_0000_0000_0000 * ByteAt(bytes, at + 6)
                       + 0x100_0000_0000_0000 * ByteAt(bytes, at + 7)
    else word == None
  }

  predicate HalfWordIs(bytes: Data, at: nat, word: Option<u32>) {
    if at + 4 <= |bytes| then
      && word.Some?
      && word.value == ByteAt(bytes, at) + 0x100 * ByteAt(bytes, at + 1) + 0x1_0000 * ByteAt(bytes, at + 2)
                       + 0x100_0000 * ByteAt(bytes, at + 3)
    else word == None
  }

  predicate ShortIs(bytes: Data, at: nat, word: Option<u16>) {
    if at + 2 <= |bytes| then word.Some? && word.value == ByteAt(bytes, at) + 0x100 * ByteAt(bytes, at + 1)
    else word == None
  }

  lemma FourBytes(bytes: Data)
    requires |bytes| == 4
    ensures LittleEndian(bytes) == ByteAt(bytes, 0) + 0x100 * ByteAt(bytes, 1) + 0x1_0000 * ByteAt(bytes, 2)
                                   + 0x100_0000 * ByteAt(bytes, 3)
  {
    var a, b, c := bytes[1..], bytes[2..], bytes[3..];
    assert a[1..] == b && b[1..] == c && c[1..] == [];
    assert LittleEndian(c) == bytes[3];
    assert LittleEndian(b) == bytes[2] + TWO_8 * LittleEndian(c);
    assert LittleEndian(a) == bytes[1] + TWO_8 * LittleEndian(b);
  }

  // The low half of a word, then its high half.
  lemma {:induction false} LittleEndianConcat(a: Data, b: Data)
    ensures LittleEndian(a + b) == LittleEndian(a) + Power256(|a|) * LittleEndian(b)
  {
    if a == [] {
      assert a + b == b;
    } else {
      assert (a + b)[1..] == a[1..] + b;
      LittleEndianConcat(a[1..], b);
      calc {
        TWO_8 * (Power256(|a| - 1) * LittleEndian(b));
        (TWO_8 * Power256(|a| - 1)) * LittleEndian(b);
        Power256(|a|) * LittleEndian(b);
      }
    }
  }

  lemma ReadU16Is(bytes: Data, at: nat)
    ensures ShortIs(bytes, at, ReadU16(bytes, at))
  {
    if at + 2 <= |bytes| {
      var high := bytes[at..at + 2][1..];
      assert high[1..] == [];
      assert LittleEndian(high) == bytes[at + 1];
    }
  }

  lemma ReadU32Is(bytes: Data, at: nat)
    ensures HalfWordIs(bytes, at, ReadU32(bytes, at))
  {
    if at + 4 <= |bytes| { FourBytes(bytes[at..at + 4]); }
  }

  lemma ReadU64Is(bytes: Data, at: nat)
    ensures WordIs(bytes, at, ReadU64(bytes, at))
  {
    if at + 8 <= |bytes| {
      Adjoin(bytes, at, at + 4, at + 8);
      LittleEndianConcat(bytes[at..at + 4], bytes[at + 4..at + 8]);
      FourBytes(bytes[at..at + 4]);
      FourBytes(bytes[at + 4..at + 8]);
      Powers();
    }
  }

  // Words at offsets known to hold them; zero stands for a word past the end.
  function U16At(bytes: Data, at: nat): u16 { match ReadU16(bytes, at) case Some(v) => v case None => 0 }

  function U32At(bytes: Data, at: nat): u32 { match ReadU32(bytes, at) case Some(v) => v case None => 0 }

  function U64At(bytes: Data, at: nat): u64 { match ReadU64(bytes, at) case Some(v) => v case None => 0 }

  // ----- Little-endian encoding --------------------------------------------

  function Encode(n: nat, width: nat): (r: Data)
    ensures |r| == width
    decreases width, n
  {
    if width == 0 then [] else [n % TWO_8] + Encode(n / TWO_8, width - 1)
  }

  lemma {:induction false} DecodeEncode(n: nat, width: nat)
    requires n < Power256(width)
    ensures LittleEndian(Encode(n, width)) == n
  {
    if width > 0 {
      DecodeEncode(n / TWO_8, width - 1);
      assert Encode(n, width)[1..] == Encode(n / TWO_8, width - 1);
    }
  }

  lemma {:induction false} EncodeDecode(bytes: Data)
    ensures Encode(LittleEndian(bytes), |bytes|) == bytes
  {
    if bytes != [] {
      EncodeDecode(bytes[1..]);
      assert LittleEndian(bytes) % TWO_8 == bytes[0] && LittleEndian(bytes) / TWO_8 == LittleEndian(bytes[1..]);
    }
  }

  // ----- Written words -----------------------------------------------------

  function Word(v: u64): (r: Data)
    ensures |r| == 8
  {
    Encode(v, 8)
  }

  function Half(v: u32): (r: Data)
    ensures |r| == 4
  {
    Encode(v, 4)
  }

  // One word after the other: eight bytes of each.
  function WordsOf(words: seq<u64>): (r: Data)
    ensures |r| == 8 * |words|
  {
    seq(8 * |words|, i requires 0 <= i < 8 * |words| => Word(words[i / 8])[i % 8])
  }

  // A count; no payload is long enough for one that does not fit in a word.
  function Word64(n: nat): (r: Data)
    ensures |r| == 8
  {
    Encode(n, 8)
  }

  // These bytes stand here.
  ghost predicate Stands(p: Data, at: nat, bytes: Data) { at + |bytes| <= |p| && p[at..at + |bytes|] == bytes }

  lemma StandsSplit(p: Data, at: nat, a: Data, b: Data)
    requires Stands(p, at, a + b)
    ensures Stands(p, at, a) && Stands(p, at + |a|, b)
  {
    Subslice(p, at, at + |a + b|, 0, |a|);
    Subslice(p, at, at + |a + b|, |a|, |a + b|);
    assert (a + b)[0..|a|] == a && (a + b)[|a|..|a + b|] == b;
  }

  lemma WordStands(p: Data, at: nat, n: nat)
    requires Stands(p, at, Encode(n, 8)) && n < TWO_64
    ensures U64At(p, at) == n
  {
    Powers();
    DecodeEncode(n, 8);
  }

  lemma HalfStands(p: Data, at: nat, n: nat)
    requires Stands(p, at, Encode(n, 4)) && n < TWO_32
    ensures U32At(p, at) == n
  {
    Powers();
    DecodeEncode(n, 4);
  }

  lemma WordsAt(words: seq<u64>, i: nat)
    requires i < |words|
    ensures WordsOf(words)[8 * i..8 * i + 8] == Word(words[i])
  {
    var a, b := WordsOf(words)[8 * i..8 * i + 8], Word(words[i]);
    forall k | 0 <= k < 8 ensures a[k] == b[k] { }
  }

  // ----- Bits --------------------------------------------------------------

  function Power2(n: nat): (r: nat)
    ensures r > 0
  {
    if n == 0 then 1 else 2 * Power2(n - 1)
  }

  predicate BitSet(word: nat, bit: nat) { word / Power2(bit) % 2 == 1 }

  // The word that has just these bits, the lowest first.
  function FlagsWord(flags: seq<bool>): nat {
    if flags == [] then 0 else (if flags[0] then 1 else 0) + 2 * FlagsWord(flags[1..])
  }

  lemma Scales(a: nat, b: nat, d: nat)
    ensures a <= b ==> a * d <= b * d
  {
  }

  lemma Quotient(n: nat, d: nat, q: nat, r: nat)
    requires r < d && n == q * d + r
    ensures n / d == q
  {
    assert n == n / d * d + n % d;
    Scales(n / d + 1, q, d);
    Scales(q + 1, n / d, d);
  }

  lemma HalfFirst(w: nat, b: nat, d: nat)
    requires b < 2 && d > 0
    ensures (b + 2 * w) / (2 * d) == w / d
  {
    assert w == w / d * d + w % d;
    assert b + 2 * w == w / d * (2 * d) + (b + 2 * (w % d));
    Quotient(b + 2 * w, 2 * d, w / d, b + 2 * (w % d));
  }

  lemma FirstBit(flags: seq<bool>)
    requires flags != []
    ensures BitSet(FlagsWord(flags), 0) <==> flags[0]
  {
    assert Power2(0) == 1;
  }

  lemma LaterBit(flags: seq<bool>, bit: nat)
    requires flags != [] && bit > 0
    ensures BitSet(FlagsWord(flags), bit) <==> BitSet(FlagsWord(flags[1..]), bit - 1)
  {
    HalfFirst(FlagsWord(flags[1..]), if flags[0] then 1 else 0, Power2(bit - 1));
    assert Power2(bit) == 2 * Power2(bit - 1);
  }

  lemma {:induction false} BitsReadBack(flags: seq<bool>, bit: nat)
    ensures BitSet(FlagsWord(flags), bit) <==> bit < |flags| && flags[bit]
    decreases |flags|
  {
    if flags == [] {
      Quotient(0, Power2(bit), 0, 0);
    } else if bit == 0 {
      FirstBit(flags);
    } else {
      LaterBit(flags, bit);
      BitsReadBack(flags[1..], bit - 1);
    }
  }
}
