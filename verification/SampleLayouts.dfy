// Where the fields of a sample payload lie, and what the parsers must make of them.
module SampleLayouts {
  import opened Basics
  import opened Bytes

  // Payloads are byte slices, which are shorter than half the address space.
  const SLICE_LIMIT: nat := 0x8000_0000_0000_0000
  type Payload = p: Data | |p| < SLICE_LIMIT witness []

  // In the order of their flag bits, which is not the order in which they are recorded.
  datatype Name =
    | Ip | Tid | Time | Addr | Read | Callchain | Id | Cpu | Period | StreamId | Raw | Branches
    | UserRegs | UserStack | Weight | DataSource | Identifier | Transaction | IntrRegs | PhysAddr
    | Aux | Cgroup | DataPage | CodePage | WeightStruct

  datatype ReadFormat = ReadFormat(enabled: bool, running: bool, id: bool, group: bool, lost: bool)

  // The flag words with their bits told apart; unknown means that any other bit is set.
  datatype Layout = Layout(
    fields: set<Name>,
    unknown: bool,
    read: ReadFormat,
    hardwareIndex: bool,
    counters: bool,
    userRegs: u64,
    intrRegs: u64)
  {
    predicate Has(n: Name) { n in fields }
  }

  const SUPPORTED: bv64 := 0x1ff_ffff

  function Decode(sampleType: bv64, readFormat: bv64, branchType: bv64, userRegs: u64, intrRegs: u64): Layout {
    Layout(
      (set n: Name | Asks(sampleType, n)),
      sampleType & !SUPPORTED != 0,
      ReadFormat(readFormat & 0x1 != 0, readFormat & 0x2 != 0, readFormat & 0x4 != 0, readFormat & 0x8 != 0,
                 readFormat & 0x10 != 0),
      branchType & 0x2_0000 != 0,
      branchType & 0x8_0000 != 0,
      userRegs,
      intrRegs)
  }

  predicate Asks(sampleType: bv64, n: Name) { sampleType & Flag(n) != 0 }

  function Flag(n: Name): bv64 {
    match n
    case Ip => 0x1
    case Tid => 0x2
    case Time => 0x4
    case Addr => 0x8
    case Read => 0x10
    case Callchain => 0x20
    case Id => 0x40
    case Cpu => 0x80
    case Period => 0x100
    case StreamId => 0x200
    case Raw => 0x400
    case Branches => 0x800
    case UserRegs => 0x1000
    case UserStack => 0x2000
    case Weight => 0x4000
    case DataSource => 0x8000
    case Identifier => 0x1_0000
    case Transaction => 0x2_0000
    case IntrRegs => 0x4_0000
    case PhysAddr => 0x8_0000
    case Aux => 0x10_0000
    case Cgroup => 0x20_0000
    case DataPage => 0x40_0000
    case CodePage => 0x80_0000
    case WeightStruct => 0x100_0000
  }

  // The supported flags are exactly those of the fields.
  lemma SupportedFlags()
    ensures SUPPORTED ==
            Flag(Ip) | Flag(Tid) | Flag(Time) | Flag(Addr) | Flag(Read) | Flag(Callchain) | Flag(Id)
            | Flag(Cpu) | Flag(Period) | Flag(StreamId) | Flag(Raw) | Flag(Branches) | Flag(UserRegs) | Flag(UserStack)
            | Flag(Weight) | Flag(DataSource) | Flag(Identifier) | Flag(Transaction) | Flag(IntrRegs) | Flag(PhysAddr)
            | Flag(Aux) | Flag(Cgroup) | Flag(DataPage) | Flag(CodePage) | Flag(WeightStruct)
  {
  }

  function CountOnes(mask: nat): nat { if mask == 0 then 0 else mask % 2 + CountOnes(mask / 2) }

  function Trues(flags: seq<bool>): nat {
    if flags == [] then 0 else Trues(flags[..|flags| - 1]) + if flags[|flags| - 1] then 1 else 0
  }

  // The ones of a mask are its set bits.
  lemma {:induction false} CountOnesIs(flags: seq<bool>)
    ensures CountOnes(FlagsWord(flags)) == Trues(flags)
  {
    if flags != [] {
      CountOnesIs(flags[1..]);
      TruesFirst(flags);
    }
  }

  lemma {:induction false} TruesFirst(flags: seq<bool>)
    requires flags != []
    ensures Trues(flags) == (if flags[0] then 1 else 0) + Trues(flags[1..])
  {
    if |flags| > 1 {
      TruesFirst(flags[..|flags| - 1]);
      assert flags[..|flags| - 1][1..] == flags[1..][..|flags| - 2];
    }
  }

  // ----- Words -------------------------------------------------------------

  function Words(p: Data, at: nat, n: nat): seq<u64> { seq(n, i requires 0 <= i < n => U64At(p, at + 8 * i)) }

  // ----- Extents -----------------------------------------------------------

  function Within(p: Data, end: nat): Option<nat> { if end <= |p| then Some(end) else None }

  function WordsIf(flag: bool): nat { if flag then 8 else 0 }

  function EntrySize(f: ReadFormat): nat { 8 + WordsIf(f.id) + WordsIf(f.lost) }

  function GroupSize(f: ReadFormat, members: nat): nat { members * EntrySize(f) }

  // A read-format block: a group has a count and one entry per member.
  function ReadEnd(p: Data, f: ReadFormat, at: nat): Option<nat> {
    var times := WordsIf(f.enabled) + WordsIf(f.running);
    if !f.group then Within(p, at + times + EntrySize(f))
    else if at + 8 <= |p| then Within(p, at + 8 + times + GroupSize(f, U64At(p, at)))
    else None
  }

  function BranchesEnd(p: Data, hardwareIndex: bool, counters: bool, at: nat): Option<nat> {
    if at + 8 <= |p| then Within(p, at + 8 + WordsIf(hardwareIndex) + U64At(p, at) * (24 + WordsIf(counters)))
    else None
  }

  function RegsCount(p: Data, mask: nat, at: nat): nat { if U64At(p, at) == 0 then 0 else CountOnes(mask) }

  function RegsEnd(p: Data, mask: nat, at: nat): Option<nat> {
    if at + 8 <= |p| then Within(p, at + 8 + 8 * RegsCount(p, mask, at)) else None
  }

  // A nonempty captured stack is followed by the part of it in use, which it must hold.
  function StackEnd(p: Data, at: nat): Option<nat> {
    if at + 8 > |p| then None
    else
      var size := U64At(p, at);
      if size == 0 then Some(at + 8)
      else if at + 16 + size <= |p| && U64At(p, at + 8 + size) <= size then Some(at + 16 + size)
      else None
  }

  function Extent(p: Data, l: Layout, n: Name, at: nat): Option<nat> {
    match n
    case Read => ReadEnd(p, l.read, at)
    case Callchain => if at + 8 <= |p| then Within(p, at + 8 + 8 * U64At(p, at)) else None
    case Raw => if at + 4 <= |p| then Within(p, at + 4 + U32At(p, at)) else None
    case Branches => BranchesEnd(p, l.hardwareIndex, l.counters, at)
    case UserRegs => RegsEnd(p, l.userRegs, at)
    case UserStack => StackEnd(p, at)
    case IntrRegs => RegsEnd(p, l.intrRegs, at)
    case Aux => if at + 8 <= |p| then Within(p, at + 8 + U64At(p, at)) else None
    case _ => Within(p, at + 8)
  }

  // ----- Walking the fields ------------------------------------------------

  datatype Fields = Last | Field(name: Name, rest: Fields)

  // The recorded order.
  const ORIGIN: Fields := Field(Identifier, Field(Ip, Field(Tid, Field(Time, Field(Addr, Last)))))
  const SOURCE: Fields := Field(Id, Field(StreamId, Field(Cpu, Field(Period, Field(Read, Last)))))
  const HEAD: Fields := Then(ORIGIN, SOURCE)
  const CHAIN: Fields := Field(Callchain, Last)
  const BODY: Fields := Field(Raw, Field(Branches, Field(UserRegs, Field(UserStack, Last))))
  const MACHINE: Fields :=
    Field(Weight, Field(WeightStruct, Field(DataSource, Field(Transaction, Field(IntrRegs, Last)))))
  const MEMORY: Fields := Field(PhysAddr, Field(Aux, Field(Cgroup, Field(DataPage, Field(CodePage, Last)))))
  const TAIL: Fields := Then(MACHINE, MEMORY)

  function Then(a: Fields, b: Fields): Fields {
    match a case Last => b case Field(n, rest) => Field(n, Then(rest, b))
  }

  // How far the walk has come, and where each present field began.
  datatype Spot = Spot(at: nat, marks: map<Name, nat>)

  const START: Spot := Spot(0, map[])

  function Cross(p: Data, l: Layout, n: Name, s: Spot): Option<Spot> {
    if !l.Has(n) then Some(s)
    else
      match Extent(p, l, n, s.at)
      case None => None
      case Some(end) => Some(Spot(end, s.marks[n := s.at]))
  }

  function Walk(p: Data, l: Layout, f: Fields, s: Spot): Option<Spot>
    decreases f
  {
    match f
    case Last => Some(s)
    case Field(n, rest) =>
      match Cross(p, l, n, s)
      case None => None
      case Some(t) => Walk(p, l, rest, t)
  }

  lemma {:induction false} WalkThen(p: Data, l: Layout, a: Fields, b: Fields, s: Spot)
    ensures Walk(p, l, Then(a, b), s) == (match Walk(p, l, a, s) case None => None case Some(t) => Walk(p, l, b, t))
    decreases a
  {
    match a
    case Last =>
    case Field(n, rest) =>
      match Cross(p, l, n, s)
      case None =>
      case Some(t) => WalkThen(p, l, rest, b, t);
  }

  predicate Names(f: Fields, n: Name) {
    match f case Last => false case Field(m, rest) => m == n || Names(rest, n)
  }

  predicate SameMark(m: map<Name, nat>, k: map<Name, nat>, n: Name) {
    (n in m <==> n in k) && (n in m ==> m[n] == k[n])
  }

  // Walking on does not disturb the marks of fields already behind.
  lemma {:induction false} WalkKeepsMark(p: Data, l: Layout, f: Fields, s: Spot, n: Name)
    requires Walk(p, l, f, s).Some? && !Names(f, n)
    ensures SameMark(s.marks, Walk(p, l, f, s).value.marks, n)
    decreases f
  {
    match f
    case Last =>
    case Field(m, rest) => WalkKeepsMark(p, l, rest, Cross(p, l, m, s).value, n);
  }

  // ----- What the parsers return -------------------------------------------

  datatype SampleRecord = SampleRecord(ip: Option<u64>, pid: Option<u32>, tid: Option<u32>, period: Option<u64>,
                                       callchain: seq<u64>)

  // Either the bytes of a recorded chain or the one event address.
  datatype Frames = Frames(payload: Data, singleIp: Option<u64>)

  datatype Registers = Registers(abi: u64, values: seq<u64>)

  datatype Stack = Stack(bytes: Data, dynamicSize: u64)

  datatype Event = Event(ip: Option<u64>, pid: Option<u32>, tid: Option<u32>, time: Option<u64>, cpu: Option<u32>,
                         period: Option<u64>)

  datatype SampleCallchain = SampleCallchain(
    event: Event,
    frames: Frames,
    chainRange: Option<(nat, nat)>,
    userRegs: Option<Registers>,
    userStack: Option<Stack>)

  function FrameList(f: Frames): seq<u64> {
    (if f.singleIp.Some? then [f.singleIp.value] else []) + Words(f.payload, 0, |f.payload| / 8)
  }

  function MarkedWord(p: Data, m: map<Name, nat>, n: Name): Option<u64> {
    if n in m then Some(U64At(p, m[n])) else None
  }

  function MarkedHalf(p: Data, m: map<Name, nat>, n: Name, skip: nat): Option<u32> {
    if n in m then Some(U32At(p, m[n] + skip)) else None
  }

  function EventOf(p: Data, m: map<Name, nat>): Event {
    Event(MarkedWord(p, m, Ip), MarkedHalf(p, m, Tid, 0), MarkedHalf(p, m, Tid, 4), MarkedWord(p, m, Time),
          MarkedHalf(p, m, Cpu, 0), MarkedWord(p, m, Period))
  }

  function ChainOf(p: Data, m: map<Name, nat>): seq<u64> {
    if Callchain in m then Words(p, m[Callchain] + 8, U64At(p, m[Callchain])) else []
  }

  function RecordOf(p: Data, m: map<Name, nat>): SampleRecord {
    var e := EventOf(p, m);
    SampleRecord(e.ip, e.pid, e.tid, e.period, ChainOf(p, m))
  }

  function Slice(p: Data, from: nat, to: nat): Data { if from <= to <= |p| then p[from..to] else [] }

  function RegistersAt(p: Data, mask: nat, at: nat): Registers {
    Registers(U64At(p, at), Words(p, at + 8, RegsCount(p, mask, at)))
  }

  function StackAt(p: Data, at: nat): Stack {
    var size := U64At(p, at);
    if size == 0 then Stack([], 0) else Stack(Slice(p, at + 8, at + 8 + size), U64At(p, at + 8 + size))
  }

  function FramesOf(p: Data, m: map<Name, nat>): Frames {
    if Callchain in m then
      var at := m[Callchain];
      Frames(Slice(p, at + 8, at + 8 + 8 * U64At(p, at)), None)
    else Frames([], EventOf(p, m).ip)
  }

  function ChainRangeOf(p: Data, m: map<Name, nat>): Option<(nat, nat)> {
    if Callchain in m then Some((m[Callchain], m[Callchain] + 8 + 8 * U64At(p, m[Callchain]))) else None
  }

  function CallchainOf(p: Data, l: Layout, m: map<Name, nat>): SampleCallchain {
    SampleCallchain(EventOf(p, m), FramesOf(p, m), ChainRangeOf(p, m),
      if UserRegs in m then Some(RegistersAt(p, l.userRegs, m[UserRegs])) else None,
      if UserStack in m then Some(StackAt(p, m[UserStack])) else None)
  }

  // The strict parser accepts exactly the payloads that the present fields tile, in order,
  // from the first byte to the last.
  function Strict(p: Data, l: Layout): Option<SampleRecord> {
    if l.unknown then None
    else
      match Walk(p, l, Then(HEAD, Then(CHAIN, Then(BODY, TAIL))), START)
      case None => None
      case Some(s) => if s.at == |p| then Some(RecordOf(p, s.marks)) else None
  }

  // The metadata parser stops after the user stack.
  function Metadata(p: Data, l: Layout): Option<SampleCallchain> {
    if l.unknown then None
    else
      match Walk(p, l, Then(HEAD, Then(CHAIN, BODY)), START)
      case None => None
      case Some(s) => Some(CallchainOf(p, l, s.marks))
  }

  // The folding parser drops samples with nothing to fold, and without a chain keeps no more
  // than the event.
  function Folding(p: Data, l: Layout): Option<Option<SampleCallchain>> {
    match Metadata(p, l)
    case None => None
    case Some(m) =>
      if l.Has(Callchain) then Some(Some(m))
      else if m.event.ip.None? then Some(None)
      else Some(Some(m.(userRegs := None, userStack := None)))
  }

  // ----- The parsers agree -------------------------------------------------

  // A present field is marked where it is complete.
  ghost predicate MarkFits(p: Data, l: Layout, s: Spot, n: Name) {
    n in s.marks ==> l.Has(n) && Extent(p, l, n, s.marks[n]).Some?
  }

  lemma {:induction false} WalkMarks(p: Data, l: Layout, f: Fields, s: Spot, n: Name)
    requires Walk(p, l, f, s).Some? && MarkFits(p, l, s, n)
    ensures MarkFits(p, l, Walk(p, l, f, s).value, n)
    ensures n in Walk(p, l, f, s).value.marks <==> n in s.marks || (Names(f, n) && l.Has(n))
    decreases f
  {
    match f
    case Last =>
    case Field(m, rest) => WalkMarks(p, l, rest, Cross(p, l, m, s).value, n);
  }

  lemma SliceWords(p: Data, at: nat, n: nat)
    requires at + 8 * n <= |p|
    ensures Words(p[at..at + 8 * n], 0, n) == Words(p, at, n)
  {
    var q := p[at..at + 8 * n];
    forall i | 0 <= i < n ensures U64At(q, 8 * i) == U64At(p, at + 8 * i) {
      Subslice(p, at, at + 8 * n, 8 * i, 8 * i + 8);
    }
  }

  // The one chain, or the event's own address where no chain is recorded.
  function FoldedFrames(l: Layout, r: SampleRecord): seq<u64> {
    if l.Has(Callchain) then r.callchain else if r.ip.Some? then [r.ip.value] else []
  }

  ghost predicate SameSample(l: Layout, r: SampleRecord, m: SampleCallchain) {
    && m.event.ip == r.ip && m.event.pid == r.pid && m.event.tid == r.tid && m.event.period == r.period
    && FrameList(m.frames) == FoldedFrames(l, r)
  }

  lemma StrictAgrees(p: Data, l: Layout)
    requires Strict(p, l).Some?
    ensures Metadata(p, l).Some? && SameSample(l, Strict(p, l).value, Metadata(p, l).value)
    ensures Folding(p, l).Some?
    ensures match Folding(p, l).value
            case Some(m) => SameSample(l, Strict(p, l).value, m)
            case None => !l.Has(Callchain) && Strict(p, l).value.ip.None?
  {
    var first := Then(HEAD, Then(CHAIN, BODY));
    ThenThen(HEAD, Then(CHAIN, BODY), TAIL);
    ThenThen(CHAIN, BODY, TAIL);
    WalkThen(p, l, first, TAIL, START);
    var s := Walk(p, l, first, START).value;
    TailUnshared();
    KeptFields(p, l, TAIL, s);
    WalkMarks(p, l, first, START, Callchain);
    HasChain();
    ChainFrames(p, l, s.marks);
  }

  lemma {:induction false} ThenThen(a: Fields, b: Fields, c: Fields)
    ensures Then(Then(a, b), c) == Then(a, Then(b, c))
  {
    if a.Field? { ThenThen(a.rest, b, c); }
  }

  lemma {:induction false} NamesThen(a: Fields, b: Fields, n: Name)
    ensures Names(Then(a, b), n) <==> Names(a, n) || Names(b, n)
  {
    if a.Field? { NamesThen(a.rest, b, n); }
  }

  lemma HasChain()
    ensures Names(Then(HEAD, Then(CHAIN, BODY)), Callchain)
  {
    NamesThen(HEAD, Then(CHAIN, BODY), Callchain);
    NamesThen(CHAIN, BODY, Callchain);
  }

  lemma ChainFrames(p: Data, l: Layout, m: map<Name, nat>)
    requires Callchain in m ==> l.Has(Callchain) && Extent(p, l, Callchain, m[Callchain]).Some?
    ensures FrameList(FramesOf(p, m)) ==
              if Callchain in m then ChainOf(p, m) else if EventOf(p, m).ip.Some? then [EventOf(p, m).ip.value] else []
  {
    if Callchain in m {
      var at := m[Callchain];
      SliceWords(p, at + 8, U64At(p, at));
    }
  }

  // These fields hold none of those that the parsers share.
  predicate Unshared(f: Fields) {
    !Names(f, Ip) && !Names(f, Tid) && !Names(f, Time) && !Names(f, Cpu) && !Names(f, Period) && !Names(f, Callchain)
  }

  ghost predicate SameHeads(m: map<Name, nat>, k: map<Name, nat>) {
    SameMark(m, k, Ip) && SameMark(m, k, Tid) && SameMark(m, k, Time) && SameMark(m, k, Cpu) && SameMark(m, k, Period)
  }

  lemma KeptHeads(p: Data, l: Layout, f: Fields, s: Spot)
    requires Walk(p, l, f, s).Some? && Unshared(f)
    ensures SameHeads(s.marks, Walk(p, l, f, s).value.marks)
    ensures SameMark(s.marks, Walk(p, l, f, s).value.marks, Callchain)
  {
    WalkKeepsMark(p, l, f, s, Ip);
    WalkKeepsMark(p, l, f, s, Tid);
    WalkKeepsMark(p, l, f, s, Time);
    WalkKeepsMark(p, l, f, s, Cpu);
    WalkKeepsMark(p, l, f, s, Period);
    WalkKeepsMark(p, l, f, s, Callchain);
  }

  lemma SameEvents(p: Data, m: map<Name, nat>, k: map<Name, nat>)
    requires SameHeads(m, k)
    ensures EventOf(p, m) == EventOf(p, k)
  {
  }

  lemma KeptFields(p: Data, l: Layout, f: Fields, s: Spot)
    requires Walk(p, l, f, s).Some? && Unshared(f)
    ensures var k := Walk(p, l, f, s).value.marks;
            EventOf(p, k) == EventOf(p, s.marks) && ChainOf(p, k) == ChainOf(p, s.marks)
            && FramesOf(p, k) == FramesOf(p, s.marks) && ChainRangeOf(p, k) == ChainRangeOf(p, s.marks)
  {
    KeptHeads(p, l, f, s);
    SameEvents(p, s.marks, Walk(p, l, f, s).value.marks);
  }

  lemma UnsharedThen(a: Fields, b: Fields)
    requires Unshared(a) && Unshared(b)
    ensures Unshared(Then(a, b))
  {
    NamesThen(a, b, Ip);
    NamesThen(a, b, Tid);
    NamesThen(a, b, Time);
    NamesThen(a, b, Cpu);
    NamesThen(a, b, Period);
    NamesThen(a, b, Callchain);
  }

  lemma TailUnshared()
    ensures Unshared(TAIL)
  {
    MachineUnshared();
    MemoryUnshared();
    UnsharedThen(MACHINE, MEMORY);
  }

  lemma MachineUnshared()
    ensures Unshared(MACHINE)
  {
  }

  lemma MemoryUnshared()
    ensures Unshared(MEMORY)
  {
  }

  // ----- Prefixes ----------------------------------------------------------

  lemma WordExtends(p: Data, more: Data, at: nat)
    ensures at + 8 <= |p| ==> U64At(p + more, at) == U64At(p, at)
    ensures at + 4 <= |p| ==> U32At(p + more, at) == U32At(p, at)
  {
    if at + 8 <= |p| { assert (p + more)[at..at + 8] == p[at..at + 8]; }
    if at + 4 <= |p| { assert (p + more)[at..at + 4] == p[at..at + 4]; }
  }

  lemma ExtentExtends(p: Data, more: Data, l: Layout, n: Name, at: nat)
    requires Extent(p, l, n, at).Some?
    ensures Extent(p + more, l, n, at) == Extent(p, l, n, at)
  {
    WordExtends(p, more, at);
    if n == UserStack { WordExtends(p, more, at + 8 + U64At(p, at)); }
  }

  lemma {:induction false} WalkExtends(p: Data, more: Data, l: Layout, f: Fields, s: Spot)
    requires Walk(p, l, f, s).Some?
    ensures Walk(p + more, l, f, s) == Walk(p, l, f, s)
    decreases f
  {
    match f
    case Last =>
    case Field(n, rest) =>
      if l.Has(n) { ExtentExtends(p, more, l, n, s.at); }
      WalkExtends(p, more, l, rest, Cross(p, l, n, s).value);
  }

  // The strict parser consumes the whole payload: nothing may follow what it accepts.
  lemma NothingMayFollow(p: Data, more: Data, l: Layout)
    requires Strict(p, l).Some? && more != []
    ensures Strict(p + more, l).None?
  {
    WalkExtends(p, more, l, Then(HEAD, Then(CHAIN, Then(BODY, TAIL))), START);
  }
}
