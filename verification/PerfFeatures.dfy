// The feature table of a perf.data file, read from the whole file or through a reader.
module PerfFeatures {
  import opened Basics
  import opened Bytes
  import opened PerfRecords

  const BITMAP: nat := 72
  const FEATURE_BITS: nat := 256
  const ENTRY: nat := 16

  datatype Section = Section(feature: nat, offset: u64, size: u64)

  function Bitmap(bytes: Data): seq<u64> {
    [U64At(bytes, BITMAP), U64At(bytes, BITMAP + 8), U64At(bytes, BITMAP + 16), U64At(bytes, BITMAP + 24)]
  }

  predicate HasFeature(words: seq<nat>, n: nat) { n / 64 < |words| && BitSet(words[n / 64], n % 64) }

  function FeaturesBelow(words: seq<u64>, n: nat): seq<nat> {
    if n == 0 then [] else FeaturesBelow(words, n - 1) + if HasFeature(words, n - 1) then [n - 1] else []
  }

  function Features(bytes: Data): seq<nat> { FeaturesBelow(Bitmap(bytes), FEATURE_BITS) }

  // The features are exactly the set bits, in ascending order and so each once.
  lemma {:induction false} FeaturesAre(words: seq<u64>, n: nat, f: nat)
    ensures f in FeaturesBelow(words, n) <==> f < n && HasFeature(words, f)
  {
    if n > 0 { FeaturesAre(words, n - 1, f); }
  }

  // A bitmap of four words read back: the features are those flagged.
  lemma FlagsReadBack(flags: seq<seq<bool>>, f: nat)
    requires |flags| == 4 && forall k :: 0 <= k < 4 ==> |flags[k]| <= 64
    ensures var words := [FlagsWord(flags[0]), FlagsWord(flags[1]), FlagsWord(flags[2]), FlagsWord(flags[3])];
            HasFeature(words, f) <==> f < 256 && f % 64 < |flags[f / 64]| && flags[f / 64][f % 64]
  {
    if f < 256 { BitsReadBack(flags[f / 64], f % 64); }
  }

  // A file can have any of 256 features.
  lemma FileFeaturesAre(bytes: Data, f: nat)
    ensures f in Features(bytes) <==> f < 256 && HasFeature(Bitmap(bytes), f)
  {
    FeaturesAre(Bitmap(bytes), 256, f);
  }

  lemma {:induction false} FeaturesAscend(words: seq<u64>, n: nat)
    ensures forall i, j ::
              0 <= i < j < |FeaturesBelow(words, n)| ==> FeaturesBelow(words, n)[i] < FeaturesBelow(words, n)[j]
    ensures forall i :: 0 <= i < |FeaturesBelow(words, n)| ==> FeaturesBelow(words, n)[i] < n
  {
    if n > 0 { FeaturesAscend(words, n - 1); }
  }

  method SetFeatureBits(bytes: File) returns (r: Option<seq<nat>>)
    ensures r == if |bytes| < HEADER_SIZE then None else Some(Features(bytes))
  {
    var features := [];
    ghost var words := Bitmap(bytes);
    var w := 0;
    while w < 4
      invariant 0 <= w <= 4 && features == FeaturesBelow(words, 64 * w)
      invariant w > 0 ==> |bytes| >= BITMAP + 8 * w
    {
      var word := ReadU64(bytes, BITMAP + 8 * w);
      if word.None? { return None; }
      assert words[w] == word.value;
      features := AddWordBits(words, w, word.value, features);
      w := w + 1;
    }
    return Some(features);
  }

  method AddWordBits(ghost words: seq<u64>, w: nat, word: u64, features: seq<nat>) returns (r: seq<nat>)
    requires w < |words| && word == words[w] && features == FeaturesBelow(words, 64 * w)
    ensures r == FeaturesBelow(words, 64 * (w + 1))
  {
    r := features;
    var n := 64 * w;
    var bit := 0;
    while bit < 64
      invariant 0 <= bit <= 64 && n == 64 * w + bit && r == FeaturesBelow(words, n)
    {
      WordOfBit(w, bit, n);
      if BitSet(word, bit) { r := r + [n]; }
      bit, n := bit + 1, n + 1;
    }
  }

  lemma WordOfBit(w: nat, bit: nat, n: nat)
    requires bit < 64 && n == 64 * w + bit
    ensures n / 64 == w && n % 64 == bit
  {
  }

  // One table entry for each feature, in order.
  function SectionsAt(bytes: Data, features: seq<nat>, at: nat): Option<seq<Section>> {
    if features == [] then Some([])
    else if at + ENTRY > |bytes| then None
    else Prepend(Section(features[0], U64At(bytes, at), U64At(bytes, at + 8)),
                 SectionsAt(bytes, features[1..], at + ENTRY))
  }

  function TableOffset(h: PerfHeader): Option<nat> {
    if h.dataOffset + h.dataSize > U64_MAX then None else Some(h.dataOffset + h.dataSize)
  }

  function FileSections(bytes: Data, h: PerfHeader): Option<seq<Section>> {
    match TableOffset(h) case None => None case Some(at) => SectionsAt(bytes, Features(bytes), at)
  }

  // A reader looks for the table only when some feature is set.
  function ReaderSections(bytes: Data, h: PerfHeader): Option<seq<Section>> {
    if Features(bytes) == [] then Some([]) else FileSections(bytes, h)
  }

  // The two disagree exactly when no feature is set and the table would lie past the last
  // machine word: the whole-file parser refuses such a file.
  lemma SectionsAgree(bytes: Data, h: PerfHeader)
    ensures ReaderSections(bytes, h) == FileSections(bytes, h) <==> !(Features(bytes) == [] && TableOffset(h).None?)
    ensures FileSections(bytes, h).Some? ==> ReaderSections(bytes, h) == FileSections(bytes, h)
  {
  }

  lemma {:induction false} NoneSet(n: nat)
    ensures FeaturesBelow([0, 0, 0, 0], n) == []
  {
    if n > 0 {
      NoneSet(n - 1);
      assert 0 / Power2((n - 1) % 64) == 0;
    }
  }

  method ParseFeatureSections(bytes: File, h: PerfHeader) returns (r: Option<seq<Section>>)
    requires |bytes| >= HEADER_SIZE
    ensures r == FileSections(bytes, h)
  {
    if h.dataOffset + h.dataSize > U64_MAX { return None; }
    var table: nat, sections := h.dataOffset + h.dataSize, [];
    var features := SetFeatureBits(bytes);
    var n := 0;
    JoinedEnds(SectionsAt(bytes, features.value, table), sections);
    while n < |features.value|
      invariant 0 <= n <= |features.value|
      invariant FileSections(bytes, h) == Joined(sections, SectionsAt(bytes, features.value[n..], table))
    {
      var offset, size := ReadU64(bytes, table), ReadU64(bytes, table + 8);
      if offset.None? || size.None? { return None; }
      var section := Section(features.value[n], offset.value, size.value);
      JoinedMore(sections, section, SectionsAt(bytes, features.value[n + 1..], table + ENTRY));
      assert features.value[n..][1..] == features.value[n + 1..];
      sections, table, n := sections + [section], table + ENTRY, n + 1;
    }
    JoinedEnds(None, sections);
    return Some(sections);
  }

  // ----- A header written out ----------------------------------------------

  // The magic, eight words of which two are not looked at, and the feature bits.
  function HeaderBytes(h: PerfHeader, attrEntry: u64, typesOffset: u64, typesSize: u64, bits: seq<u64>): Data {
    [0x50, 0x45, 0x52, 0x46, 0x49, 0x4c, 0x45, 0x32]
    + WordsOf([h.headerSize, attrEntry, h.attrOffset, h.attrSize] + [h.dataOffset, h.dataSize, typesOffset, typesSize]
              + bits)
  }

  lemma HeaderReadsBack(h: PerfHeader, attrEntry: u64, typesOffset: u64, typesSize: u64, bits: seq<u64>, rest: Data)
    requires |bits| == 4
    ensures var bytes := HeaderBytes(h, attrEntry, typesOffset, typesSize, bits) + rest;
            ParseHeader(bytes) == (if h.headerSize >= 104 then Some(h) else None) && Bitmap(bytes) == bits
  {
    var words := [h.headerSize, attrEntry, h.attrOffset, h.attrSize]
                 + [h.dataOffset, h.dataSize, typesOffset, typesSize] + bits;
    var bytes := HeaderBytes(h, attrEntry, typesOffset, typesSize, bits) + rest;
    assert bytes[..8] == [0x50, 0x45, 0x52, 0x46, 0x49, 0x4c, 0x45, 0x32];
    assert bytes[8..8 + |WordsOf(words)|] == WordsOf(words);
    WordReads(bytes, words, 0);
    WordReads(bytes, words, 2);
    WordReads(bytes, words, 3);
    WordReads(bytes, words, 4);
    WordReads(bytes, words, 5);
    WordReads(bytes, words, 8);
    WordReads(bytes, words, 9);
    WordReads(bytes, words, 10);
    WordReads(bytes, words, 11);
  }

  lemma WordReads(bytes: Data, words: seq<u64>, i: nat)
    requires Stands(bytes, 8, WordsOf(words)) && i < |words|
    ensures U64At(bytes, 8 + 8 * i) == words[i]
  {
    WordsAt(words, i);
    Subslice(bytes, 8, 8 + 8 * |words|, 8 * i, 8 * i + 8);
    WordStands(bytes, 8 + 8 * i, words[i]);
  }

  // ----- A table written out -----------------------------------------------

  // Two words to an entry, where its section lies and how long it is.
  function TableBytes(sections: seq<Section>): (r: Data)
    ensures |r| == 16 * |sections|
  {
    if sections == [] then []
    else WordsOf([sections[0].offset, sections[0].size]) + TableBytes(sections[1..])
  }

  function FeaturesOf(sections: seq<Section>): (r: seq<nat>)
    ensures |r| == |sections|
  {
    seq(|sections|, i requires 0 <= i < |sections| => sections[i].feature)
  }

  lemma EntryReads(bytes: Data, at: nat, offset: u64, size: u64)
    requires Stands(bytes, at, WordsOf([offset, size]))
    ensures U64At(bytes, at) == offset && U64At(bytes, at + 8) == size
  {
    WordsAt([offset, size], 0);
    WordsAt([offset, size], 1);
    Subslice(bytes, at, at + 16, 0, 8);
    Subslice(bytes, at, at + 16, 8, 16);
    WordStands(bytes, at, offset);
    WordStands(bytes, at + 8, size);
  }

  // A table written out is read back for its features, and a table is refused exactly when
  // the file ends before its last entry does.
  lemma {:induction false} TableReadsBack(bytes: Data, sections: seq<Section>, at: nat)
    requires Stands(bytes, at, TableBytes(sections))
    ensures SectionsAt(bytes, FeaturesOf(sections), at) == Some(sections)
    decreases |sections|
  {
    if sections != [] {
      var s := sections[0];
      StandsSplit(bytes, at, WordsOf([s.offset, s.size]), TableBytes(sections[1..]));
      EntryReads(bytes, at, s.offset, s.size);
      TableReadsBack(bytes, sections[1..], at + 16);
      assert FeaturesOf(sections)[1..] == FeaturesOf(sections[1..]);
      assert [s] + sections[1..] == sections;
    }
  }

  lemma {:induction false} TableRefused(bytes: Data, features: seq<nat>, at: nat)
    ensures SectionsAt(bytes, features, at).None? <==> features != [] && at + 16 * |features| > |bytes|
    decreases |features|
  {
    if features != [] { TableRefused(bytes, features[1..], at + 16); }
  }

  // ----- Reading -----------------------------------------------------------

  class FileReader {
    const bytes: File
    var position: nat

    constructor (bytes: File)
      ensures this.bytes == bytes && position == 0
    {
      this.bytes, this.position := bytes, 0;
    }

    method Seek(at: nat)
      modifies this
      ensures position == at
    {
      position := at;
    }

    method SeekRelative(count: nat)
      modifies this
      ensures position == old(position) + count
    {
      position := position + count;
    }

    method ReadExact(count: nat) returns (r: Option<Data>)
      modifies this
      ensures r.Some? <==> old(position) + count <= |bytes|
      ensures r.Some? ==> position == old(position) + count && r.value == bytes[old(position)..position]
    {
      if position + count > |bytes| { return None; }
      r := Some(bytes[position..position + count]);
      position := position + count;
    }
  }

  lemma WordOfPrefix(bytes: Data, n: nat, at: nat)
    requires at + 8 <= n <= |bytes|
    ensures U64At(bytes[..n], at) == U64At(bytes, at)
  {
    Subslice(bytes, 0, n, at, at + 8);
    assert bytes[0..n] == bytes[..n];
  }

  // The first bytes hold the whole fixed header, feature bits included.
  lemma HeaderPrefix(bytes: Data)
    requires |bytes| >= HEADER_SIZE
    ensures ParseHeader(bytes[..HEADER_SIZE]) == ParseHeader(bytes)
    ensures Features(bytes[..HEADER_SIZE]) == Features(bytes)
  {
    WordOfPrefix(bytes, HEADER_SIZE, 8);
    WordOfPrefix(bytes, HEADER_SIZE, 24);
    WordOfPrefix(bytes, HEADER_SIZE, 32);
    WordOfPrefix(bytes, HEADER_SIZE, 40);
    WordOfPrefix(bytes, HEADER_SIZE, 48);
    WordOfPrefix(bytes, HEADER_SIZE, BITMAP);
    WordOfPrefix(bytes, HEADER_SIZE, BITMAP + 8);
    WordOfPrefix(bytes, HEADER_SIZE, BITMAP + 16);
    WordOfPrefix(bytes, HEADER_SIZE, BITMAP + 24);
    assert bytes[..HEADER_SIZE][..8] == bytes[..8];
  }

  method FeatureSectionsFromReader(reader: FileReader, h: PerfHeader, header: File) returns (r: Option<seq<Section>>)
    requires |reader.bytes| >= HEADER_SIZE && header == reader.bytes[..HEADER_SIZE]
    modifies reader
    ensures r == ReaderSections(reader.bytes, h)
  {
    HeaderPrefix(reader.bytes);
    var bits := SetFeatureBits(header);
    var features := bits.value;
    if features == [] { return Some([]); }
    if h.dataOffset + h.dataSize > U64_MAX { return None; }
    reader.Seek(h.dataOffset + h.dataSize);
    r := ReadTable(reader, features);
  }

  method ReadTable(reader: FileReader, features: seq<nat>) returns (r: Option<seq<Section>>)
    modifies reader
    ensures r == SectionsAt(reader.bytes, features, old(reader.position))
  {
    var sections, n := [], 0;
    ghost var whole := SectionsAt(reader.bytes, features, reader.position);
    JoinedEnds(whole, sections);
    while n < |features|
      invariant 0 <= n <= |features|
      invariant whole == Joined(sections, SectionsAt(reader.bytes, features[n..], reader.position))
    {
      SectionsStep(reader.bytes, features, n, reader.position, sections);
      var entry := reader.ReadExact(ENTRY);
      if entry.None? { return None; }
      var section := Section(features[n], U64At(entry.value, 0), U64At(entry.value, 8));
      sections, n := sections + [section], n + 1;
    }
    JoinedEnds(None, sections);
    return Some(sections);
  }

  // What one table entry adds.
  lemma SectionsStep(bytes: Data, features: seq<nat>, n: nat, at: nat, done: seq<Section>)
    requires n < |features|
    ensures Joined(done, SectionsAt(bytes, features[n..], at)) ==
            if at + ENTRY > |bytes| then None
            else
              var entry := bytes[at..at + ENTRY];
              Joined(done + [Section(features[n], U64At(entry, 0), U64At(entry, 8))],
                     SectionsAt(bytes, features[n + 1..], at + ENTRY))
  {
    if at + ENTRY <= |bytes| {
      var entry := bytes[at..at + ENTRY];
      assert entry[0..8] == bytes[at..at + 8] && entry[8..16] == bytes[at + 8..at + 16];
      assert features[n..][1..] == features[n + 1..];
      JoinedMore(done, Section(features[n], U64At(bytes, at), U64At(bytes, at + 8)),
                 SectionsAt(bytes, features[n + 1..], at + ENTRY));
    }
  }
}
