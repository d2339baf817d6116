// Build ids in a perf.data file: from the whole file in memory, or by a reader that may stop
// as soon as it has found the kernel's.
module BuildIds {
  import opened Basics
  import opened Bytes
  import opened PerfRecords
  import opened PerfFeatures

  const HEADER_BUILD_ID: nat := 2
  const RECORD_BUILD_ID: nat := 67
  const RECORD_MMAP2: nat := 10
  const BUILD_ID_SIZE: nat := 20
  const STORAGE_SIZE: nat := 24
  const EVENT_MIN: nat := 36
  const PAYLOAD_MIN: nat := 28
  const MMAP_MIN: nat := 64

  // The misc bit that says the build id's own size is recorded, and the one that says a map
  // carries a build id.
  predicate SizedBuildId(misc: u16) { misc / 0x8000 % 2 == 1 }

  predicate MapBuildId(misc: u16) { misc / 0x4000 % 2 == 1 }

  datatype BuildIdEvent = BuildIdEvent(pid: u32, misc: u16, buildId: Data, filename: Data)

  // Text handling: whether bytes are UTF-8, what they become when decoded leniently, and
  // whether a file name denotes the kernel.
  datatype Names = Names(valid: Data -> bool, lossy: Data -> Data, kernel: Data -> bool)

  function CString(bytes: Data): Data {
    if bytes == [] || bytes[0] == 0 then [] else [bytes[0]] + CString(bytes[1..])
  }

  function Filename(names: Names, bytes: Data): Option<Data> {
    if names.valid(CString(bytes)) then Some(CString(bytes)) else None
  }

  // Feature records leave their type unset, so only the size field frames them.
  function ParseBuildIdEvent(names: Names, record: Data): Option<BuildIdEvent>
    requires |record| >= EVENT_MIN
  {
    match ReadU16(record, 4)
    case None => None
    case Some(misc) =>
      var size := if SizedBuildId(misc) then record[12 + BUILD_ID_SIZE] else BUILD_ID_SIZE;
      if size > BUILD_ID_SIZE then None
      else
        match Filename(names, record[EVENT_MIN..])
        case None => None
        case Some(filename) => Some(BuildIdEvent(U32At(record, 8), misc, record[12..12 + size], filename))
  }

  function ParseBuildIdRecord(names: Names, misc: u16, payload: Data): Option<BuildIdEvent> {
    if |payload| < PAYLOAD_MIN then None
    else
      var size := if SizedBuildId(misc) then payload[STORAGE_SIZE] else BUILD_ID_SIZE;
      if size > STORAGE_SIZE then None
      else
        match Filename(names, payload[PAYLOAD_MIN..])
        case None => None
        case Some(filename) => Some(BuildIdEvent(U32At(payload, 0), misc, payload[4..4 + size], filename))
  }

  function ParseMmapBuildId(names: Names, misc: u16, payload: Data): Option<BuildIdEvent> {
    if |payload| < MMAP_MIN || payload[32] > BUILD_ID_SIZE then None
    else Some(BuildIdEvent(U32At(payload, 0), misc, payload[36..36 + payload[32]],
                           names.lossy(CString(payload[MMAP_MIN..]))))
  }

  datatype Parsed = Ignored | Bad | Found(event: BuildIdEvent)

  function AsParsed(e: Option<BuildIdEvent>): Parsed { match e case None => Bad case Some(x) => Found(x) }

  // Only these records of the data section say anything about build ids.
  predicate MayCarry(h: RecordHeader) { h.kind == RECORD_BUILD_ID || (h.kind == RECORD_MMAP2 && MapBuildId(h.misc)) }

  function ParseStreamRecord(names: Names, h: RecordHeader, payload: Data): Option<BuildIdEvent> {
    if h.kind == RECORD_BUILD_ID then ParseBuildIdRecord(names, h.misc, payload)
    else ParseMmapBuildId(names, h.misc, payload)
  }

  // How records are read, so that the walks below depend on framing alone.
  datatype Parsers = Parsers(stream: (RecordHeader, Data) -> Option<BuildIdEvent>,
                             feature: Data -> Option<BuildIdEvent>, kernel: Data -> bool)

  function ParsersOf(names: Names): Parsers {
    Parsers((h, payload) => ParseStreamRecord(names, h, payload),
            record => if |record| >= EVENT_MIN then ParseBuildIdEvent(names, record) else None,
            names.kernel)
  }

  function StreamEvent(q: Parsers, h: RecordHeader, payload: Data): Parsed {
    if MayCarry(h) then AsParsed(q.stream(h, payload)) else Ignored
  }

  // ----- The whole file ----------------------------------------------------

  function EventsIn(q: Parsers, records: seq<Record>): Option<seq<BuildIdEvent>> {
    if records == [] then Some([])
    else
      match StreamEvent(q, records[0].header, records[0].payload)
      case Bad => None
      case Ignored => EventsIn(q, records[1..])
      case Found(e) => Prepend(e, EventsIn(q, records[1..]))
  }

  function PayloadEvents(q: Parsers, payload: Data, at: nat): Option<seq<BuildIdEvent>>
    decreases |payload| - at
  {
    if at >= |payload| then Some([])
    else
      match ReadU16(payload, at + 6)
      case None => None
      case Some(size) =>
        if size < EVENT_MIN || at + size > |payload| then None
        else
          match q.feature(payload[at..at + size])
          case None => None
          case Some(e) => Prepend(e, PayloadEvents(q, payload, at + size))
  }

  function FindSection(sections: seq<Section>, feature: nat): Option<Section> {
    if sections == [] then None
    else if sections[0].feature == feature then Some(sections[0])
    else FindSection(sections[1..], feature)
  }

  function SectionEvents(q: Parsers, bytes: Data, sections: seq<Section>): Option<seq<BuildIdEvent>> {
    match FindSection(sections, HEADER_BUILD_ID)
    case None => Some([])
    case Some(section) =>
      var end := section.offset + section.size;
      if end > U64_MAX || end > |bytes| then None else PayloadEvents(q, bytes[section.offset..end], 0)
  }

  function FeatureEvents(q: Parsers, bytes: Data): Option<seq<BuildIdEvent>> {
    match ParseHeader(bytes)
    case None => None
    case Some(h) =>
      match FileSections(bytes, h) case None => None case Some(sections) => SectionEvents(q, bytes, sections)
  }

  function StreamEvents(q: Parsers, bytes: Data): Option<seq<BuildIdEvent>> {
    match ParseHeader(bytes)
    case None => None
    case Some(h) => match RecordsOf(bytes, h) case None => None case Some(records) => EventsIn(q, records)
  }

  function FileEvents(q: Parsers, bytes: Data): Option<seq<BuildIdEvent>> {
    match (FeatureEvents(q, bytes), StreamEvents(q, bytes))
    case (Some(a), Some(b)) => Some(a + b)
    case _ => None
  }

  // A build id is defined when any of its bytes is nonzero.
  predicate Defined(buildId: Data) { buildId != [] && (buildId[0] != 0 || Defined(buildId[1..])) }

  predicate IsKernel(q: Parsers, e: BuildIdEvent) { Defined(e.buildId) && q.kernel(e.filename) }

  function FirstKernel(q: Parsers, events: seq<BuildIdEvent>): Option<Data> {
    if events == [] then None
    else if IsKernel(q, events[0]) then Some(events[0].buildId)
    else FirstKernel(q, events[1..])
  }

  function FileKernel(q: Parsers, bytes: Data): Option<Option<Data>> {
    match FileEvents(q, bytes) case None => None case Some(events) => Some(FirstKernel(q, events))
  }

  // ----- The reader --------------------------------------------------------

  // A visitor of the events either takes them all or stops at the first of the kernel.
  datatype Visitor = TakeAll | UntilKernel

  predicate Stops(v: Visitor, q: Parsers, e: BuildIdEvent) { v == UntilKernel && IsKernel(q, e) }

  // A record with its own bytes.
  datatype Frame = Frame(record: Record, raw: Data)

  // The records from an offset on, up to the end or to where the framing fails.
  datatype Framing = Framing(frames: seq<Frame>, whole: bool)

  function FramesFrom(bytes: Data, at: nat, end: nat): Framing
    decreases end - at
  {
    if at >= end then Framing([], true)
    else
      match RecordAt(bytes, at, end)
      case None => Framing([], false)
      case Some(r) =>
        var rest := FramesFrom(bytes, at + r.header.size, end);
        Framing([Frame(r, bytes[at..at + r.header.size])] + rest.frames, rest.whole)
  }

  function VisitedEvent(q: Parsers, feature: bool, f: Frame): Parsed {
    if !feature then StreamEvent(q, f.record.header, f.record.payload)
    else if |f.raw| < EVENT_MIN then Bad
    else AsParsed(q.feature(f.raw))
  }

  // The events that a visitor sees in these records; it fails where the framing does, unless
  // it has stopped before.
  function VisitFrames(q: Parsers, f: Framing, feature: bool, v: Visitor): Option<seq<BuildIdEvent>>
    decreases |f.frames|
  {
    if f.frames == [] then (if f.whole then Some([]) else None)
    else
      var rest := f.(frames := f.frames[1..]);
      match VisitedEvent(q, feature, f.frames[0])
      case Bad => None
      case Ignored => VisitFrames(q, rest, feature, v)
      case Found(e) => if Stops(v, q, e) then Some([e]) else Prepend(e, VisitFrames(q, rest, feature, v))
  }

  function Visit(q: Parsers, bytes: Data, at: nat, end: nat, feature: bool, v: Visitor): Option<seq<BuildIdEvent>> {
    VisitFrames(q, FramesFrom(bytes, at, end), feature, v)
  }

  function VisitSection(q: Parsers, bytes: Data, offset: nat, size: nat, feature: bool,
                        v: Visitor): Option<seq<BuildIdEvent>> {
    var end := offset + size;
    if end > U64_MAX || end > |bytes| then None else Visit(q, bytes, offset, end, feature, v)
  }

  function ReaderFeatureEvents(q: Parsers, bytes: Data): Option<seq<BuildIdEvent>> {
    match ParseHeader(bytes)
    case None => None
    case Some(h) =>
      match ReaderSections(bytes, h)
      case None => None
      case Some(sections) =>
        match FindSection(sections, HEADER_BUILD_ID)
        case None => Some([])
        case Some(section) => VisitSection(q, bytes, section.offset, section.size, true, TakeAll)
  }

  // The features are read in full; the data section only up to the kernel's build id, and not
  // at all when a feature has it.
  function ReaderKernel(q: Parsers, bytes: Data): Option<Option<Data>> {
    match (ParseHeader(bytes), ReaderFeatureEvents(q, bytes))
    case (Some(h), Some(events)) =>
      if FirstKernel(q, events).Some? then Some(FirstKernel(q, events)) else ReaderStreamKernel(q, bytes, h)
    case _ => None
  }

  function ReaderStreamKernel(q: Parsers, bytes: Data, h: PerfHeader): Option<Option<Data>> {
    match VisitSection(q, bytes, h.dataOffset, h.dataSize, false, UntilKernel)
    case None => None
    case Some(seen) => Some(FirstKernel(q, seen))
  }

  // ----- They agree --------------------------------------------------------

  function RecordsIn(frames: seq<Frame>): seq<Record> {
    if frames == [] then [] else [frames[0].record] + RecordsIn(frames[1..])
  }

  lemma {:induction false} FramesAreRecords(bytes: Data, at: nat, end: nat)
    ensures var f := FramesFrom(bytes, at, end);
            RecordsFrom(bytes, at, end) == if f.whole then Some(RecordsIn(f.frames)) else None
    decreases end - at
  {
    if at < end && RecordAt(bytes, at, end).Some? {
      FramesAreRecords(bytes, at + RecordAt(bytes, at, end).value.header.size, end);
    }
  }

  lemma {:induction false} TakesAllEvents(q: Parsers, f: Framing)
    ensures VisitFrames(q, f, false, TakeAll) == if f.whole then EventsIn(q, RecordsIn(f.frames)) else None
    decreases |f.frames|
  {
    if f.frames != [] {
      var rest := f.(frames := f.frames[1..]);
      TakesAllEvents(q, rest);
      assert RecordsIn(f.frames)[1..] == RecordsIn(rest.frames);
    }
  }

  lemma StreamIsVisit(q: Parsers, bytes: Data, at: nat, end: nat)
    ensures Visit(q, bytes, at, end, false, TakeAll)
            == match RecordsFrom(bytes, at, end) case None => None case Some(records) => EventsIn(q, records)
  {
    FramesAreRecords(bytes, at, end);
    TakesAllEvents(q, FramesFrom(bytes, at, end));
  }

  // The walk goes on from a record that is framed here.
  lemma FrameHere(q: Parsers, bytes: Data, at: nat, end: nat, feature: bool, v: Visitor)
    requires at < end
    ensures var found := RecordAt(bytes, at, end);
            Visit(q, bytes, at, end, feature, v) ==
            if found.None? then None
            else
              var next := at + found.value.header.size;
              match VisitedEvent(q, feature, Frame(found.value, bytes[at..next]))
              case Bad => None
              case Ignored => Visit(q, bytes, next, end, feature, v)
              case Found(e) => if Stops(v, q, e) then Some([e]) else Prepend(e, Visit(q, bytes, next, end, feature, v))
  {
    if RecordAt(bytes, at, end).Some? {
      var f := FramesFrom(bytes, at, end);
      assert f.frames[1..] == FramesFrom(bytes, at + RecordAt(bytes, at, end).value.header.size, end).frames;
    }
  }

  // The size field alone frames a record and tells its bytes.
  ghost predicate FramedAt(bytes: Data, at: nat, end: nat, found: Option<Frame>) {
    var size := ReadU16(bytes, at + 6);
    if size.None? || size.value < RECORD_HEADER || at + size.value > end then found.None?
    else found.Some? && at + size.value <= |bytes| && found.value.raw == bytes[at..at + size.value]
  }

  // What a walk over feature records makes of the frame it has found.
  function FeatureVisit(q: Parsers, found: Option<Frame>, rest: Option<seq<BuildIdEvent>>): Option<seq<BuildIdEvent>> {
    if found.None? || |found.value.raw| < EVENT_MIN then None
    else
      match q.feature(found.value.raw)
      case None => None
      case Some(e) => Prepend(e, rest)
  }

  lemma FeatureHere(q: Parsers, bytes: Data, start: nat, end: nat, at: nat) returns (found: Option<Frame>, next: nat)
    requires at < end - start && end <= |bytes|
    ensures FramedAt(bytes, start + at, end, found)
    ensures next == at + if found.Some? then |found.value.raw| else 0
    ensures Visit(q, bytes, start + at, end, true, TakeAll) ==
              FeatureVisit(q, found, Visit(q, bytes, start + next, end, true, TakeAll))
  {
    var here := start + at;
    FrameHere(q, bytes, here, end, true, TakeAll);
    if here + RECORD_HEADER <= |bytes| { Subslice(bytes, here, here + RECORD_HEADER, 6, 8); }
    var r := RecordAt(bytes, here, end);
    found := if r.None? then None else Some(Frame(r.value, bytes[here..here + r.value.header.size]));
    next := at + if found.Some? then |found.value.raw| else 0;
  }

  // The slice frames the same record as the file.
  lemma FramedInSlice(bytes: Data, payload: Data, start: nat, end: nat, at: nat, found: Option<Frame>)
    requires start <= end <= |bytes| && payload == bytes[start..end] && at < |payload|
    requires FramedAt(bytes, start + at, end, found)
    ensures FramedAt(payload, at, |payload|, found)
  {
    if at + RECORD_HEADER <= |payload| {
      Subslice(bytes, start, end, at + 6, at + 8);
      var size := ReadU16(payload, at + 6).value;
      if at + size <= |payload| { Subslice(bytes, start, end, at, at + size); }
    }
  }

  lemma PayloadHere(q: Parsers, payload: Data, at: nat, found: Option<Frame>, next: nat)
    requires at < |payload| && FramedAt(payload, at, |payload|, found)
    requires next == at + if found.Some? then |found.value.raw| else 0
    ensures at <= next <= |payload| && (found.Some? ==> at < next)
    ensures PayloadEvents(q, payload, at) == FeatureVisit(q, found, PayloadEvents(q, payload, next))
  {
  }

  // Walks over the slice and over the file find the same frame and go on alike.
  lemma StepAlike(q: Parsers, bytes: Data, payload: Data, start: nat, end: nat, at: nat)
    returns (found: Option<Frame>, next: nat)
    requires start <= end <= |bytes| && payload == bytes[start..end] && at < |payload|
    ensures at <= next <= |payload| && (found.Some? ==> at < next)
    ensures PayloadEvents(q, payload, at) == FeatureVisit(q, found, PayloadEvents(q, payload, next))
    ensures Visit(q, bytes, start + at, end, true, TakeAll) ==
              FeatureVisit(q, found, Visit(q, bytes, start + next, end, true, TakeAll))
  {
    found, next := FeatureHere(q, bytes, start, end, at);
    FramedInSlice(bytes, payload, start, end, at, found);
    PayloadHere(q, payload, at, found, next);
  }

  lemma {:induction false} PayloadIsVisit(q: Parsers, bytes: Data, payload: Data, start: nat, end: nat, at: nat)
    requires start <= end <= |bytes| && payload == bytes[start..end] && at <= |payload|
    ensures PayloadEvents(q, payload, at) == Visit(q, bytes, start + at, end, true, TakeAll)
    decreases |payload| - at
  {
    if at < |payload| {
      var found, next := StepAlike(q, bytes, payload, start, end, at);
      if found.Some? { PayloadIsVisit(q, bytes, payload, start, end, next); }
    }
  }

  // Stopping early hides only what follows the answer.
  lemma {:induction false} StopsEarly(q: Parsers, f: Framing, feature: bool)
    requires VisitFrames(q, f, feature, TakeAll).Some?
    ensures var all, seen := VisitFrames(q, f, feature, TakeAll), VisitFrames(q, f, feature, UntilKernel);
            seen.Some? && FirstKernel(q, seen.value) == FirstKernel(q, all.value)
    decreases |f.frames|
  {
    if f.frames != [] { StopsEarly(q, f.(frames := f.frames[1..]), feature); }
  }

  // A visit that never stops has seen everything.
  lemma {:induction false} NeverStopped(q: Parsers, f: Framing, feature: bool)
    requires VisitFrames(q, f, feature, UntilKernel).Some?
    requires FirstKernel(q, VisitFrames(q, f, feature, UntilKernel).value).None?
    ensures VisitFrames(q, f, feature, TakeAll) == VisitFrames(q, f, feature, UntilKernel)
    decreases |f.frames|
  {
    if f.frames != [] { NeverStopped(q, f.(frames := f.frames[1..]), feature); }
  }

  lemma SectionAgrees(q: Parsers, bytes: Data, sections: seq<Section>)
    ensures SectionEvents(q, bytes, sections) ==
            match FindSection(sections, 2)
            case None => Some([])
            case Some(section) => VisitSection(q, bytes, section.offset, section.size, true, TakeAll)
  {
    var found := FindSection(sections, HEADER_BUILD_ID);
    if found.Some? && found.value.offset + found.value.size <= |bytes| {
      var end := found.value.offset + found.value.size;
      PayloadIsVisit(q, bytes, bytes[found.value.offset..end], found.value.offset, end, 0);
    }
  }

  // Reading the feature events through a reader gives what the whole file gives, except that
  // it accepts a file without features whose table offset overflows.
  lemma FeaturesAgree(q: Parsers, bytes: Data)
    ensures ReaderFeatureEvents(q, bytes) == FeatureEvents(q, bytes)
            <==> !(ParseHeader(bytes).Some? && Features(bytes) == [] && TableOffset(ParseHeader(bytes).value).None?)
  {
    if ParseHeader(bytes).Some? {
      var h := ParseHeader(bytes).value;
      SectionsAgree(bytes, h);
      if FileSections(bytes, h).Some? { SectionAgrees(q, bytes, FileSections(bytes, h).value); }
    }
  }

  // Such a file: its own header puts a data section of one byte at the last offset, and its
  // bitmap is empty.
  lemma OverflowingTable(q: Parsers, bytes: Data)
    requires ParseHeader(bytes) == Some(PerfHeader(HEADER_SIZE, 0, 0, U64_MAX, 1))
    requires Bitmap(bytes) == [0, 0, 0, 0]
    ensures ReaderFeatureEvents(q, bytes) == Some([]) && FeatureEvents(q, bytes) == None
  {
    NoneSet(FEATURE_BITS);
  }

  lemma {:induction false} FirstKernelConcat(q: Parsers, a: seq<BuildIdEvent>, b: seq<BuildIdEvent>)
    ensures FirstKernel(q, a + b) == if FirstKernel(q, a).Some? then FirstKernel(q, a) else FirstKernel(q, b)
  {
    if a == [] {
      assert a + b == b;
    } else {
      assert (a + b)[1..] == a[1..] + b;
      FirstKernelConcat(q, a[1..], b);
    }
  }

  // The whole-file answer from its two parts.
  lemma FileKernelParts(q: Parsers, bytes: Data)
    ensures var a, b := FeatureEvents(q, bytes), StreamEvents(q, bytes);
            FileKernel(q, bytes) ==
            if a.None? || b.None? then None
            else Some(if FirstKernel(q, a.value).Some? then FirstKernel(q, a.value) else FirstKernel(q, b.value))
  {
    if FeatureEvents(q, bytes).Some? && StreamEvents(q, bytes).Some? {
      FirstKernelConcat(q, FeatureEvents(q, bytes).value, StreamEvents(q, bytes).value);
    }
  }

  lemma EarlyAnswer(q: Parsers, bytes: Data, at: nat, end: nat)
    ensures var all, seen := Visit(q, bytes, at, end, false, TakeAll), Visit(q, bytes, at, end, false, UntilKernel);
            && (all.Some? ==> seen.Some? && FirstKernel(q, seen.value) == FirstKernel(q, all.value))
            && (seen.Some? && FirstKernel(q, seen.value).None? ==> all == seen)
  {
    var f := FramesFrom(bytes, at, end);
    if VisitFrames(q, f, false, TakeAll).Some? { StopsEarly(q, f, false); }
    if VisitFrames(q, f, false, UntilKernel).Some?
       && FirstKernel(q, VisitFrames(q, f, false, UntilKernel).value).None? {
      NeverStopped(q, f, false);
    }
  }

  lemma StreamIsSection(q: Parsers, bytes: Data, h: PerfHeader)
    requires ParseHeader(bytes) == Some(h)
    ensures StreamEvents(q, bytes) == VisitSection(q, bytes, h.dataOffset, h.dataSize, false, TakeAll)
  {
    StreamIsVisit(q, bytes, h.dataOffset, h.dataOffset + h.dataSize);
  }

  lemma StreamKernelAgrees(q: Parsers, bytes: Data, h: PerfHeader)
    requires ParseHeader(bytes) == Some(h)
    ensures var events, seen := StreamEvents(q, bytes), ReaderStreamKernel(q, bytes, h);
            && (events.Some? ==> seen == Some(FirstKernel(q, events.value)))
            && (seen == Some(None) ==> events.Some? && FirstKernel(q, events.value).None?)
            && (TableOffset(h).None? ==> events.None? && seen.None?)
  {
    StreamIsSection(q, bytes, h);
    EarlyAnswer(q, bytes, h.dataOffset, h.dataOffset + h.dataSize);
  }

  // Whenever the whole file is accepted, the early-stopping lookup gives the same answer; and
  // when the lookup finds nothing, it has checked everything that the whole-file parser checks.
  lemma KernelAgrees(q: Parsers, bytes: Data)
    ensures FileKernel(q, bytes).Some? ==> ReaderKernel(q, bytes) == FileKernel(q, bytes)
    ensures ReaderKernel(q, bytes) == Some(None) <==> FileKernel(q, bytes) == Some(None)
  {
    FeaturesAgree(q, bytes);
    FileKernelParts(q, bytes);
    if ParseHeader(bytes).Some? { StreamKernelAgrees(q, bytes, ParseHeader(bytes).value); }
  }

  // The lookups agree for the formats that perf writes.
  lemma PerfKernelAgrees(names: Names, bytes: Data)
    ensures var q := ParsersOf(names);
            && (FileKernel(q, bytes).Some? ==> ReaderKernel(q, bytes) == FileKernel(q, bytes))
            && (ReaderKernel(q, bytes) == Some(None) <==> FileKernel(q, bytes) == Some(None))
  {
    KernelAgrees(ParsersOf(names), bytes);
  }

  // A feature record holds the payload of a stream record behind its header, and gives the same
  // event; only the stream admits build ids that fill the whole storage.
  lemma SameEvent(names: Names, record: Data)
    requires |record| >= EVENT_MIN
    ensures var misc := ReadU16(record, 4).value;
            ParseBuildIdEvent(names, record) ==
            if SizedBuildId(misc) && record[12 + BUILD_ID_SIZE] > BUILD_ID_SIZE then None
            else ParseBuildIdRecord(names, misc, record[RECORD_HEADER..])
  {
    var payload := record[RECORD_HEADER..];
    var misc := ReadU16(record, 4).value;
    var size := if SizedBuildId(misc) then record[12 + BUILD_ID_SIZE] else BUILD_ID_SIZE;
    assert record[RECORD_HEADER..|record|] == payload;
    Subslice(record, RECORD_HEADER, |record|, PAYLOAD_MIN, |payload|);
    assert payload[PAYLOAD_MIN..|payload|] == payload[PAYLOAD_MIN..]
           && record[EVENT_MIN..|record|] == record[EVENT_MIN..];
    Subslice(record, RECORD_HEADER, |record|, 0, 4);
    if size <= BUILD_ID_SIZE { Subslice(record, RECORD_HEADER, |record|, 4, 4 + size); }
  }

  // ----- The program's loops -----------------------------------------------

  method ParseBuildIdEvents(q: Parsers, payload: File) returns (r: Option<seq<BuildIdEvent>>)
    ensures r == PayloadEvents(q, payload, 0)
  {
    var offset: nat, events := 0, [];
    JoinedEnds(PayloadEvents(q, payload, 0), events);
    while offset < |payload|
      invariant offset <= |payload|
      invariant PayloadEvents(q, payload, 0) == Joined(events, PayloadEvents(q, payload, offset))
      decreases |payload| - offset
    {
      var size := ReadU16(payload, offset + 6);
      if size.None? || size.value < EVENT_MIN { return None; }
      var end: nat := offset + size.value;
      if end > |payload| { return None; }
      var event := q.feature(payload[offset..end]);
      if event.None? { return None; }
      JoinedMore(events, event.value, PayloadEvents(q, payload, end));
      events, offset := events + [event.value], end;
    }
    JoinedEnds(None, events);
    return Some(events);
  }

  method BuildIdEventsFromRecordStream(q: Parsers, bytes: File) returns (r: Option<seq<BuildIdEvent>>)
    ensures r == StreamEvents(q, bytes)
  {
    var header := ParseHeader(bytes);
    if header.None? { return None; }
    var records := IterRecords(bytes, header.value);
    if records.None? { return None; }
    var n, events := 0, [];
    JoinedEnds(EventsIn(q, records.value), events);
    while n < |records.value|
      invariant 0 <= n <= |records.value|
      invariant StreamEvents(q, bytes) == Joined(events, EventsIn(q, records.value[n..]))
    {
      var record := records.value[n];
      assert records.value[n..][1..] == records.value[n + 1..];
      match StreamEvent(q, record.header, record.payload) {
        case Bad => return None;
        case Ignored =>
        case Found(e) =>
          JoinedMore(events, e, EventsIn(q, records.value[n + 1..]));
          events := events + [e];
      }
      n := n + 1;
    }
    JoinedEnds(None, events);
    return Some(events);
  }

  // One record read through the reader: its eight bytes of header, then the rest when it may
  // carry a build id.
  method VisitRecord(q: Parsers, reader: FileReader, end: nat, feature: bool)
    returns (r: Option<(RecordHeader, Parsed)>)
    requires reader.position < end <= |reader.bytes|
    modifies reader
    ensures r.Some? ==> var at := old(reader.position);
              RecordAt(reader.bytes, at, end).Some?
              && r.value.0 == RecordAt(reader.bytes, at, end).value.header
              && r.value.1 == VisitedEvent(q, feature,
                                           Frame(RecordAt(reader.bytes, at, end).value,
                                                 reader.bytes[at..at + r.value.0.size]))
              && (!r.value.1.Bad? ==> reader.position == at + r.value.0.size)
    ensures r.None? ==> RecordAt(reader.bytes, old(reader.position), end).None?
  {
    var at := reader.position;
    if end - at < RECORD_HEADER { return None; }
    var headerBytes := reader.ReadExact(RECORD_HEADER);
    var header := ParseRecordHeader(headerBytes.value);
    if header.None? || header.value.size < RECORD_HEADER { return None; }
    var next := at + header.value.size;
    if next > end { return None; }
    if feature && header.value.size < EVENT_MIN { return Some((header.value, Bad)); }
    if feature || MayCarry(header.value) {
      var payload := reader.ReadExact(header.value.size - RECORD_HEADER);
      Adjoin(reader.bytes, at, at + RECORD_HEADER, next);
      var parsed := if feature then AsParsed(q.feature(headerBytes.value + payload.value))
        else StreamEvent(q, header.value, payload.value);
      return Some((header.value, parsed));
    }
    reader.SeekRelative(header.value.size - RECORD_HEADER);
    return Some((header.value, Ignored));
  }

  method VisitBuildIdRecordSection(q: Parsers, reader: FileReader, offset: nat, size: nat, fileSize: nat,
                                   feature: bool, v: Visitor)
    returns (r: Option<seq<BuildIdEvent>>)
    requires fileSize == |reader.bytes|
    modifies reader
    ensures r == VisitSection(q, reader.bytes, offset, size, feature, v)
  {
    var end := offset + size;
    if end > U64_MAX || end > fileSize { return None; }
    reader.Seek(offset);
    var events := [];
    ghost var whole := Visit(q, reader.bytes, offset, end, feature, v);
    JoinedEnds(whole, events);
    while reader.position < end
      invariant reader.position <= end
      invariant whole == Joined(events, Visit(q, reader.bytes, reader.position, end, feature, v))
      decreases end - reader.position
    {
      var going;
      events, going := VisitNext(q, reader, end, feature, v, events);
      match going {
        case Failed => return None;
        case Stopped => return Some(events);
        case Continues =>
      }
    }
    JoinedEnds(None, events);
    return Some(events);
  }

  datatype Progress = Failed | Stopped | Continues

  method VisitNext(q: Parsers, reader: FileReader, end: nat, feature: bool, v: Visitor, done: seq<BuildIdEvent>)
    returns (events: seq<BuildIdEvent>, going: Progress)
    requires reader.position < end <= |reader.bytes|
    modifies reader
    ensures going.Continues? ==> old(reader.position) < reader.position <= end
    ensures Joined(done, Visit(q, reader.bytes, old(reader.position), end, feature, v)) ==
            match going
            case Failed => None
            case Stopped => Some(events)
            case Continues => Joined(events, Visit(q, reader.bytes, reader.position, end, feature, v))
  {
    VisitStep(q, reader.bytes, reader.position, end, feature, v, done);
    var visited := VisitRecord(q, reader, end, feature);
    if visited.None? { return done, Failed; }
    match visited.value.1 {
      case Bad => return done, Failed;
      case Ignored => return done, Continues;
      case Found(e) => return done + [e], if Stops(v, q, e) then Stopped else Continues;
    }
  }

  // What one record adds to the events already visited.
  lemma VisitStep(q: Parsers, bytes: Data, at: nat, end: nat, feature: bool, v: Visitor, done: seq<BuildIdEvent>)
    requires at < end
    ensures var found := RecordAt(bytes, at, end);
            Joined(done, Visit(q, bytes, at, end, feature, v)) ==
            if found.None? then None
            else
              var next := at + found.value.header.size;
              match VisitedEvent(q, feature, Frame(found.value, bytes[at..next]))
              case Bad => None
              case Ignored => Joined(done, Visit(q, bytes, next, end, feature, v))
              case Found(e) => if Stops(v, q, e) then Some(done + [e])
                else Joined(done + [e], Visit(q, bytes, next, end, feature, v))
  {
    FrameHere(q, bytes, at, end, feature, v);
    if RecordAt(bytes, at, end).Some? {
      var next := at + RecordAt(bytes, at, end).value.header.size;
      match VisitedEvent(q, feature, Frame(RecordAt(bytes, at, end).value, bytes[at..next])) {
        case Found(e) => JoinedMore(done, e, Visit(q, bytes, next, end, feature, v));
        case _ =>
      }
    }
  }

  // The first bytes are read, then the feature table, then the sections in turn.
  method KernelBuildIdFromReader(q: Parsers, reader: FileReader) returns (r: Option<Option<Data>>)
    requires reader.position == 0
    modifies reader
    ensures r == ReaderKernel(q, reader.bytes)
  {
    var headerBytes := reader.ReadExact(HEADER_SIZE);
    if headerBytes.None? { return None; }
    HeaderPrefix(reader.bytes);
    var header := ParseHeader(headerBytes.value);
    if header.None? { return None; }
    var sections := FeatureSectionsFromReader(reader, header.value, headerBytes.value);
    if sections.None? { return None; }
    var section := FindSection(sections.value, HEADER_BUILD_ID);
    if section.Some? {
      var events := VisitBuildIdRecordSection(q, reader, section.value.offset, section.value.size, |reader.bytes|,
                                              true, TakeAll);
      if events.None? { return None; }
      var found := FirstKernel(q, events.value);
      if found.Some? { return Some(found); }
    }
    var seen := VisitBuildIdRecordSection(q, reader, header.value.dataOffset, header.value.dataSize, |reader.bytes|,
                                          false, UntilKernel);
    if seen.None? { return None; }
    return Some(FirstKernel(q, seen.value));
  }

  method BuildIdEventsFromFeatures(q: Parsers, bytes: File, sections: seq<Section>)
    returns (r: Option<seq<BuildIdEvent>>)
    ensures r == SectionEvents(q, bytes, sections)
  {
    var section := FindSection(sections, HEADER_BUILD_ID);
    if section.None? { return Some([]); }
    var end := section.value.offset + section.value.size;
    if end > U64_MAX || end > |bytes| { return None; }
    r := ParseBuildIdEvents(q, bytes[section.value.offset..end]);
  }

  method KernelBuildIdFromPerfdata(q: Parsers, bytes: File) returns (r: Option<Option<Data>>)
    ensures r == FileKernel(q, bytes)
  {
    var header := ParseHeader(bytes);
    if header.None? { return None; }
    var sections := ParseFeatureSections(bytes, header.value);
    if sections.None? { return None; }
    var events := BuildIdEventsFromFeatures(q, bytes, sections.value);
    if events.None? { return None; }
    var stream := BuildIdEventsFromRecordStream(q, bytes);
    if stream.None? { return None; }
    return Some(FirstKernel(q, events.value + stream.value));
  }
}
