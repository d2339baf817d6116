// The perf.data header, its feature table, and the framing of the data section.
module PerfRecords {
  import opened Basics
  import opened Bytes

  // Files are byte slices, which are shorter than half the address space.
  const FILE_LIMIT: nat := 0x8000_0000_0000_0000
  type File = f: Data | |f| < FILE_LIMIT witness []

  const HEADER_SIZE: nat := 104
  const MAGIC: Data := [80, 69, 82, 70, 73, 76, 69, 50]

  datatype PerfHeader = PerfHeader(headerSize: u64, attrOffset: u64, attrSize: u64, dataOffset: u64, dataSize: u64)

  function ParseHeader(bytes: Data): Option<PerfHeader> {
    if |bytes| < HEADER_SIZE || bytes[..8] != MAGIC || U64At(bytes, 8) < HEADER_SIZE then None
    else Some(PerfHeader(U64At(bytes, 8), U64At(bytes, 24), U64At(bytes, 32), U64At(bytes, 40), U64At(bytes, 48)))
  }

  // ----- Records -----------------------------------------------------------

  const RECORD_HEADER: nat := 8

  datatype RecordHeader = RecordHeader(kind: u32, misc: u16, size: u16)

  datatype Record = Record(offset: nat, header: RecordHeader, payload: Data)

  function ParseRecordHeader(bytes: Data): Option<RecordHeader> {
    if |bytes| < RECORD_HEADER then None
    else Some(RecordHeader(U32At(bytes, 0), U16At(bytes, 4), U16At(bytes, 6)))
  }

  // The record that begins here and ends within the section.
  function RecordAt(bytes: Data, at: nat, end: nat): Option<Record> {
    if at + RECORD_HEADER > |bytes| then None
    else
      match ParseRecordHeader(bytes[at..at + RECORD_HEADER])
      case None => None
      case Some(h) =>
        if h.size < RECORD_HEADER || at + h.size > end || end > |bytes| then None
        else Some(Record(at, h, bytes[at + RECORD_HEADER..at + h.size]))
  }

  function RecordsFrom(bytes: Data, at: nat, end: nat): Option<seq<Record>>
    decreases end - at
  {
    if at >= end then Some([])
    else
      match RecordAt(bytes, at, end)
      case None => None
      case Some(r) => Prepend(r, RecordsFrom(bytes, at + r.header.size, end))
  }

  function Prepend<T>(x: T, rest: Option<seq<T>>): Option<seq<T>> {
    match rest case None => None case Some(xs) => Some([x] + xs)
  }

  // An offset sum that does not fit in a machine word is an error like a section past the end.
  function RecordsOf(bytes: Data, h: PerfHeader): Option<seq<Record>> {
    var end := h.dataOffset + h.dataSize;
    if end > U64_MAX || end > |bytes| then None else RecordsFrom(bytes, h.dataOffset, end)
  }

  function Joined<T>(done: seq<T>, rest: Option<seq<T>>): Option<seq<T>> {
    match rest case None => None case Some(xs) => Some(done + xs)
  }

  method IterRecords(bytes: File, h: PerfHeader) returns (r: Option<seq<Record>>)
    ensures r == RecordsOf(bytes, h)
  {
    var offset, end := h.dataOffset, h.dataOffset + h.dataSize;
    if end > U64_MAX || end > |bytes| { return None; }
    var records := [];
    JoinedEnds(RecordsFrom(bytes, offset, end), records);
    while offset < end
      invariant h.dataOffset <= offset <= end
      invariant RecordsOf(bytes, h) == Joined(records, RecordsFrom(bytes, offset, end))
      decreases end - offset
    {
      if offset + RECORD_HEADER > |bytes| { return None; }
      var header := ParseRecordHeader(bytes[offset..offset + RECORD_HEADER]);
      if header.None? || header.value.size < RECORD_HEADER { return None; }
      var next := offset + header.value.size;
      if next > end { return None; }
      JoinedMore(records, Record(offset, header.value, bytes[offset + RECORD_HEADER..next]),
                 RecordsFrom(bytes, next, end));
      records := records + [Record(offset, header.value, bytes[offset + RECORD_HEADER..next])];
      offset := next;
    }
    JoinedEnds(None, records);
    return Some(records);
  }

  lemma JoinedEnds<T>(rest: Option<seq<T>>, done: seq<T>)
    ensures Joined([], rest) == rest && Joined(done, Some([])) == Some(done)
  {
    assert done + [] == done;
    if rest.Some? { assert [] + rest.value == rest.value; }
  }

  lemma JoinedMore<T>(done: seq<T>, x: T, rest: Option<seq<T>>)
    ensures Joined(done, Prepend(x, rest)) == Joined(done + [x], rest)
  {
    if rest.Some? { assert done + ([x] + rest.value) == done + [x] + rest.value; }
  }

  // ----- Records tile the section ------------------------------------------

  function EncodeRecord(r: Record): (e: Data)
    ensures |e| == RECORD_HEADER + |r.payload|
  {
    Encode(r.header.kind, 4) + Encode(r.header.misc, 2) + Encode(r.header.size, 2) + r.payload
  }

  function EncodeAll(records: seq<Record>): Data {
    if records == [] then [] else EncodeRecord(records[0]) + EncodeAll(records[1..])
  }

  // Each record begins where the one before it ends, and its size is its own.
  ghost predicate Framed(records: seq<Record>, at: nat, end: nat) {
    if records == [] then at == end
    else
      && records[0].offset == at
      && records[0].header.size == RECORD_HEADER + |records[0].payload|
      && Framed(records[1..], at + records[0].header.size, end)
  }

  lemma HeaderRoundTrip(bytes: Data)
    requires |bytes| == RECORD_HEADER
    ensures var h := ParseRecordHeader(bytes);
            h.Some? && Encode(h.value.kind, 4) + Encode(h.value.misc, 2) + Encode(h.value.size, 2) == bytes
  {
    EncodeDecode(bytes[0..4]);
    EncodeDecode(bytes[4..6]);
    EncodeDecode(bytes[6..8]);
    assert bytes == bytes[0..4] + bytes[4..6] + bytes[6..8];
  }

  lemma HeaderDecodes(h: RecordHeader)
    ensures var e := Encode(h.kind, 4) + Encode(h.misc, 2) + Encode(h.size, 2);
            |e| == RECORD_HEADER && ParseRecordHeader(e) == Some(h)
  {
    Powers();
    var e := Encode(h.kind, 4) + Encode(h.misc, 2) + Encode(h.size, 2);
    assert e[0..4] == Encode(h.kind, 4) && e[4..6] == Encode(h.misc, 2) && e[6..8] == Encode(h.size, 2);
    DecodeEncode(h.kind, 4);
    DecodeEncode(h.misc, 2);
    DecodeEncode(h.size, 2);
  }

  // An accepted walk tiles the section: its records, written out again, are the section's
  // bytes, each at its own offset.
  lemma {:induction false} WalkTiles(bytes: Data, at: nat, end: nat)
    requires at <= end <= |bytes| && RecordsFrom(bytes, at, end).Some?
    ensures Framed(RecordsFrom(bytes, at, end).value, at, end)
    ensures EncodeAll(RecordsFrom(bytes, at, end).value) == bytes[at..end]
    decreases end - at
  {
    if at < end {
      var r := RecordAt(bytes, at, end).value;
      var next := at + r.header.size;
      RecordTiles(bytes, at, end);
      WalkTiles(bytes, next, end);
      var rest := RecordsFrom(bytes, next, end).value;
      assert ([r] + rest)[1..] == rest;
      Adjoin(bytes, at, next, end);
    }
  }

  // One record is the bytes up to the next.
  lemma RecordTiles(bytes: Data, at: nat, end: nat)
    requires RecordAt(bytes, at, end).Some?
    ensures var r := RecordAt(bytes, at, end).value;
            && r.offset == at && r.header.size == RECORD_HEADER + |r.payload| && at + r.header.size <= end <= |bytes|
            && EncodeRecord(r) == bytes[at..at + r.header.size]
  {
    var next := at + RecordAt(bytes, at, end).value.header.size;
    HeaderRoundTrip(bytes[at..at + RECORD_HEADER]);
    Adjoin(bytes, at, at + RECORD_HEADER, next);
  }

  // A record written out in a file is read back from there.
  lemma RecordReadsBack(bytes: Data, r: Record, at: nat, next: nat, end: nat)
    requires at <= next <= end <= |bytes| && bytes[at..next] == EncodeRecord(r)
    requires r.offset == at && r.header.size == RECORD_HEADER + |r.payload| == next - at
    ensures RecordAt(bytes, at, end) == Some(r)
  {
    HeaderDecodes(r.header);
    var e := EncodeRecord(r);
    Subslice(bytes, at, next, 0, RECORD_HEADER);
    Subslice(bytes, at, next, RECORD_HEADER, next - at);
    assert e[0..RECORD_HEADER] == Encode(r.header.kind, 4) + Encode(r.header.misc, 2) + Encode(r.header.size, 2);
    assert e[RECORD_HEADER..next - at] == r.payload;
  }

  lemma SplitFirst(bytes: Data, at: nat, next: nat, end: nat, first: Data, rest: Data)
    requires at <= next <= end <= |bytes| && |first| == next - at && bytes[at..end] == first + rest
    ensures bytes[at..next] == first && bytes[next..end] == rest
  {
    Subslice(bytes, at, end, 0, next - at);
    Subslice(bytes, at, end, next - at, end - at);
    var section := first + rest;
    assert section[0..next - at] == first && section[next - at..end - at] == rest;
  }

  // Conversely every framed list of records, written out anywhere in a file, is read back.
  lemma {:induction false} WalkReadsBack(bytes: Data, records: seq<Record>, at: nat, end: nat)
    requires at <= end <= |bytes| && Framed(records, at, end)
    requires bytes[at..end] == EncodeAll(records)
    ensures RecordsFrom(bytes, at, end) == Some(records)
    decreases |records|
  {
    if records != [] {
      var r := records[0];
      var next := at + r.header.size;
      FramedEnds(records[1..], next, end);
      SplitFirst(bytes, at, next, end, EncodeRecord(r), EncodeAll(records[1..]));
      RecordReadsBack(bytes, r, at, next, end);
      WalkReadsBack(bytes, records[1..], next, end);
      assert records == [r] + records[1..];
    }
  }

  lemma {:induction false} FramedEnds(records: seq<Record>, at: nat, end: nat)
    requires Framed(records, at, end)
    ensures at <= end
    decreases |records|
  {
    if records != [] { FramedEnds(records[1..], at + records[0].header.size, end); }
  }
}
