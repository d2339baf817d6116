// Samples written field by field and read back: what a writer puts into a payload, in recorded
// order and as its flag words request, the parsers find there.
module SampleRoundTrips {
  import opened Basics
  import opened Bytes
  import opened SampleLayouts

  // ----- Writing -----------------------------------------------------------

  // The flag words of an event.
  datatype Request = Request(types: bv64, readFormat: bv64, branchType: bv64, userRegs: u64, intrRegs: u64)

  datatype ReadEntry = ReadEntry(value: u64, id: u64, lost: u64)

  // A value for every field that may be requested.
  datatype Values = Values(
    identifier: u64, ip: u64, pid: u32, tid: u32, time: u64, addr: u64,
    id: u64, streamId: u64, cpu: u32, reserved: u32, period: u64,
    enabled: u64, running: u64, entries: seq<ReadEntry>,
    chain: seq<u64>, raw: Data,
    hardwareIndex: u64, branches: seq<(u64, u64, u64)>, counters: seq<u64>,
    userRegs: Registers, stack: Stack,
    weight: u64, weightStruct: u64, dataSource: u64, transaction: u64, intrRegs: Registers,
    physAddr: u64, aux: Data, cgroup: u64, dataPage: u64, codePage: u64)

  function If(asked: bool, bytes: Data): Data { if asked then bytes else [] }

  function EntriesOf(f: ReadFormat, entries: seq<ReadEntry>): (r: Data)
    ensures |r| == GroupSize(f, |entries|)
  {
    if entries == [] then []
    else
      var e := Word(entries[0].value) + If(f.id, Word(entries[0].id)) + If(f.lost, Word(entries[0].lost));
      Scaled(|entries| - 1, EntrySize(f));
      e + EntriesOf(f, entries[1..])
  }

  lemma Scaled(n: nat, size: nat)
    ensures (n + 1) * size == size + n * size
  {
  }

  function BranchesOf(branches: seq<(u64, u64, u64)>): (r: Data)
    ensures |r| == 24 * |branches|
  {
    if branches == [] then []
    else Word(branches[0].0) + Word(branches[0].1) + Word(branches[0].2) + BranchesOf(branches[1..])
  }

  function ReadBlock(f: ReadFormat, v: Values): Data {
    if f.group then
      Word64(|v.entries|)
      + (If(f.enabled, Word(v.enabled)) + (If(f.running, Word(v.running)) + EntriesOf(f, v.entries)))
    else if |v.entries| != 1 then []
    else
      Word(v.entries[0].value) + If(f.enabled, Word(v.enabled)) + If(f.running, Word(v.running))
      + If(f.id, Word(v.entries[0].id)) + If(f.lost, Word(v.entries[0].lost))
  }

  function RegsBlock(regs: Registers): Data { Word(regs.abi) + WordsOf(regs.values) }

  function StackBlock(stack: Stack): Data {
    Word64(|stack.bytes|) + if stack.bytes == [] then [] else stack.bytes + Word(stack.dynamicSize)
  }

  function BranchBlock(hardwareIndex: bool, counters: bool, v: Values): Data {
    Word64(|v.branches|)
    + (If(hardwareIndex, Word(v.hardwareIndex)) + (BranchesOf(v.branches) + If(counters, WordsOf(v.counters))))
  }

  function FormatOf(word: bv64): ReadFormat {
    ReadFormat(word & 0x1 != 0, word & 0x2 != 0, word & 0x4 != 0, word & 0x8 != 0, word & 0x10 != 0)
  }

  // Fields one behind the other, each with whether it is asked for.
  datatype Items = Done | Item(asked: bool, bytes: Data, rest: Items)

  function Flatten(items: Items): Data {
    match items
    case Done => []
    case Item(asked, bytes, rest) => If(asked, bytes) + Flatten(rest)
  }

  // The order in which perf records the fields, and the flags that ask for them.
  function OriginItems(q: Request, v: Values, rest: Items): Items {
    Item(q.types & 0x1_0000 != 0, Word(v.identifier),
    Item(q.types & 0x1 != 0, Word(v.ip),
    Item(q.types & 0x2 != 0, Half(v.pid) + Half(v.tid),
    Item(q.types & 0x4 != 0, Word(v.time),
    Item(q.types & 0x8 != 0, Word(v.addr),
    rest)))))
  }

  function SourceItems(q: Request, v: Values, rest: Items): Items {
    Item(q.types & 0x40 != 0, Word(v.id),
    Item(q.types & 0x200 != 0, Word(v.streamId),
    Item(q.types & 0x80 != 0, Half(v.cpu) + Half(v.reserved),
    Item(q.types & 0x100 != 0, Word(v.period),
    Item(q.types & 0x10 != 0, ReadBlock(FormatOf(q.readFormat), v),
    rest)))))
  }

  function ChainItems(q: Request, v: Values, rest: Items): Items {
    Item(q.types & 0x20 != 0, Word64(|v.chain|) + WordsOf(v.chain), rest)
  }

  function BodyItems(q: Request, v: Values, rest: Items): Items {
    Item(q.types & 0x400 != 0, Encode(|v.raw|, 4) + v.raw,
    Item(q.types & 0x800 != 0, BranchBlock(q.branchType & 0x2_0000 != 0, q.branchType & 0x8_0000 != 0, v),
    Item(q.types & 0x1000 != 0, RegsBlock(v.userRegs),
    Item(q.types & 0x2000 != 0, StackBlock(v.stack),
    rest))))
  }

  function MachineItems(q: Request, v: Values, rest: Items): Items {
    Item(q.types & 0x4000 != 0, Word(v.weight),
    Item(q.types & 0x100_0000 != 0, Word(v.weightStruct),
    Item(q.types & 0x8000 != 0, Word(v.dataSource),
    Item(q.types & 0x2_0000 != 0, Word(v.transaction),
    Item(q.types & 0x4_0000 != 0, RegsBlock(v.intrRegs),
    rest)))))
  }

  function MemoryItems(q: Request, v: Values, rest: Items): Items {
    Item(q.types & 0x8_0000 != 0, Word(v.physAddr),
    Item(q.types & 0x10_0000 != 0, Word64(|v.aux|) + v.aux,
    Item(q.types & 0x20_0000 != 0, Word(v.cgroup),
    Item(q.types & 0x40_0000 != 0, Word(v.dataPage),
    Item(q.types & 0x80_0000 != 0, Word(v.codePage),
    rest)))))
  }

  function AllItems(q: Request, v: Values): Items {
    OriginItems(q, v, SourceItems(q, v, ChainItems(q, v, BodyItems(q, v, MachineItems(q, v, MemoryItems(q, v, Done))))))
  }

  function Written(q: Request, v: Values): Data { Flatten(AllItems(q, v)) }

  predicate RegsFit(mask: u64, regs: Registers) { |regs.values| == if regs.abi == 0 then 0 else CountOnes(mask) }

  predicate StackFits(stack: Stack) {
    stack.dynamicSize <= |stack.bytes|
  }

  // The values have the sizes that the flag words ask for, no unknown flag is set, and the
  // payload is a slice.
  predicate Fits(q: Request, v: Values) {
    && q.types & 0xffff_ffff_fe00_0000 == 0
    && |Written(q, v)| < SLICE_LIMIT
    && (q.types & 0x10 != 0 && q.readFormat & 0x8 == 0 ==> |v.entries| == 1)
    && (q.types & 0x400 != 0 ==> |v.raw| < TWO_32)
    && (q.types & 0x800 != 0 && q.branchType & 0x8_0000 != 0 ==> |v.counters| == |v.branches|)
    && (q.types & 0x1000 != 0 ==> RegsFit(q.userRegs, v.userRegs))
    && (q.types & 0x2000 != 0 ==> StackFits(v.stack))
    && (q.types & 0x4_0000 != 0 ==> RegsFit(q.intrRegs, v.intrRegs))
  }

  function LayoutOf(q: Request): Layout { Decode(q.types, q.readFormat, q.branchType, q.userRegs, q.intrRegs) }

  // ----- Reading back ------------------------------------------------------

  function Opt<T>(asked: bool, value: T): Option<T> { if asked then Some(value) else None }

  function RecordedSample(q: Request, v: Values): SampleRecord {
    SampleRecord(Opt(q.types & 0x1 != 0, v.ip), Opt(q.types & 0x2 != 0, v.pid), Opt(q.types & 0x2 != 0, v.tid),
                 Opt(q.types & 0x100 != 0, v.period), if q.types & 0x20 != 0 then v.chain else [])
  }

  function RecordedEvent(q: Request, v: Values): Event {
    Event(Opt(q.types & 0x1 != 0, v.ip), Opt(q.types & 0x2 != 0, v.pid), Opt(q.types & 0x2 != 0, v.tid),
          Opt(q.types & 0x4 != 0, v.time), Opt(q.types & 0x80 != 0, v.cpu), Opt(q.types & 0x100 != 0, v.period))
  }

  // The bytes of one field, by name.
  function FieldBytes(l: Layout, n: Name, v: Values): Data {
    match n
    case Ip => Word(v.ip)
    case Tid => Half(v.pid) + Half(v.tid)
    case Time => Word(v.time)
    case Addr => Word(v.addr)
    case Read => ReadBlock(l.read, v)
    case Callchain => Word64(|v.chain|) + WordsOf(v.chain)
    case Id => Word(v.id)
    case Cpu => Half(v.cpu) + Half(v.reserved)
    case Period => Word(v.period)
    case StreamId => Word(v.streamId)
    case Raw => Encode(|v.raw|, 4) + v.raw
    case Branches => BranchBlock(l.hardwareIndex, l.counters, v)
    case UserRegs => RegsBlock(v.userRegs)
    case UserStack => StackBlock(v.stack)
    case Weight => Word(v.weight)
    case DataSource => Word(v.dataSource)
    case Identifier => Word(v.identifier)
    case Transaction => Word(v.transaction)
    case IntrRegs => RegsBlock(v.intrRegs)
    case PhysAddr => Word(v.physAddr)
    case Aux => Word64(|v.aux|) + v.aux
    case Cgroup => Word(v.cgroup)
    case DataPage => Word(v.dataPage)
    case CodePage => Word(v.codePage)
    case WeightStruct => Word(v.weightStruct)
  }

  // The bytes of every field.
  type Table = Name -> Data

  function TableOf(l: Layout, v: Values): Table { n => FieldBytes(l, n, v) }

  function Asked(l: Layout, n: Name, t: Table): Data { If(l.Has(n), t(n)) }

  function FieldsOf(l: Layout, f: Fields, t: Table): Data
    decreases f
  {
    match f
    case Last => []
    case Field(n, rest) => Asked(l, n, t) + FieldsOf(l, rest, t)
  }

  // ----- The writer's order is the layout's --------------------------------

  // The layout asks for the same fields as the flag words, group by group, and the table holds
  // what the writer writes.
  ghost predicate OriginAsks(q: Request, v: Values, l: Layout, t: Table) {
    && l.Has(Identifier) == (q.types & 0x1_0000 != 0) && t(Identifier) == Word(v.identifier)
    && l.Has(Ip) == (q.types & 0x1 != 0) && t(Ip) == Word(v.ip)
    && l.Has(Tid) == (q.types & 0x2 != 0) && t(Tid) == Half(v.pid) + Half(v.tid)
    && l.Has(Time) == (q.types & 0x4 != 0) && t(Time) == Word(v.time)
    && l.Has(Addr) == (q.types & 0x8 != 0) && t(Addr) == Word(v.addr)
  }

  ghost predicate SourceAsks(q: Request, v: Values, l: Layout, t: Table) {
    && l.Has(Id) == (q.types & 0x40 != 0) && t(Id) == Word(v.id)
    && l.Has(StreamId) == (q.types & 0x200 != 0) && t(StreamId) == Word(v.streamId)
    && l.Has(Cpu) == (q.types & 0x80 != 0) && t(Cpu) == Half(v.cpu) + Half(v.reserved)
    && l.Has(Period) == (q.types & 0x100 != 0) && t(Period) == Word(v.period)
    && l.Has(Read) == (q.types & 0x10 != 0) && t(Read) == ReadBlock(FormatOf(q.readFormat), v)
  }

  ghost predicate BodyAsks(q: Request, v: Values, l: Layout, t: Table) {
    && l.Has(Raw) == (q.types & 0x400 != 0) && t(Raw) == Encode(|v.raw|, 4) + v.raw
    && l.Has(Branches) == (q.types & 0x800 != 0)
    && t(Branches) == BranchBlock(q.branchType & 0x2_0000 != 0, q.branchType & 0x8_0000 != 0, v)
    && l.Has(UserRegs) == (q.types & 0x1000 != 0) && t(UserRegs) == RegsBlock(v.userRegs)
    && l.Has(UserStack) == (q.types & 0x2000 != 0) && t(UserStack) == StackBlock(v.stack)
  }

  ghost predicate MachineAsks(q: Request, v: Values, l: Layout, t: Table) {
    && l.Has(Weight) == (q.types & 0x4000 != 0) && t(Weight) == Word(v.weight)
    && l.Has(WeightStruct) == (q.types & 0x100_0000 != 0) && t(WeightStruct) == Word(v.weightStruct)
    && l.Has(DataSource) == (q.types & 0x8000 != 0) && t(DataSource) == Word(v.dataSource)
    && l.Has(Transaction) == (q.types & 0x2_0000 != 0) && t(Transaction) == Word(v.transaction)
    && l.Has(IntrRegs) == (q.types & 0x4_0000 != 0) && t(IntrRegs) == RegsBlock(v.intrRegs)
  }

  ghost predicate PagesAsk(q: Request, v: Values, l: Layout, t: Table) {
    && l.Has(DataPage) == (q.types & 0x40_0000 != 0) && t(DataPage) == Word(v.dataPage)
    && l.Has(CodePage) == (q.types & 0x80_0000 != 0) && t(CodePage) == Word(v.codePage)
  }

  ghost predicate MemoryAsks(q: Request, v: Values, l: Layout, t: Table) {
    && l.Has(PhysAddr) == (q.types & 0x8_0000 != 0) && t(PhysAddr) == Word(v.physAddr)
    && l.Has(Aux) == (q.types & 0x10_0000 != 0) && t(Aux) == Word64(|v.aux|) + v.aux
    && l.Has(Cgroup) == (q.types & 0x20_0000 != 0) && t(Cgroup) == Word(v.cgroup)
    && PagesAsk(q, v, l, t)
  }

  ghost predicate ChainAsks(q: Request, v: Values, l: Layout, t: Table) {
    l.Has(Callchain) == (q.types & 0x20 != 0) && t(Callchain) == Word64(|v.chain|) + WordsOf(v.chain)
  }

  ghost predicate AllAsk(q: Request, v: Values, l: Layout, t: Table) {
    && OriginAsks(q, v, l, t) && SourceAsks(q, v, l, t) && ChainAsks(q, v, l, t)
    && BodyAsks(q, v, l, t) && MachineAsks(q, v, l, t) && MemoryAsks(q, v, l, t)
  }

  lemma FlagAsks(q: Request, n: Name)
    ensures LayoutOf(q).Has(n) <==> Asks(q.types, n)
  {
  }

  lemma OriginAsked(q: Request, v: Values)
    ensures OriginAsks(q, v, LayoutOf(q), TableOf(LayoutOf(q), v))
  {
    FlagAsks(q, Identifier);
    FlagAsks(q, Ip);
    FlagAsks(q, Tid);
    FlagAsks(q, Time);
    FlagAsks(q, Addr);
  }

  lemma SourceAsked(q: Request, v: Values)
    ensures SourceAsks(q, v, LayoutOf(q), TableOf(LayoutOf(q), v))
  {
    FlagAsks(q, Id);
    FlagAsks(q, StreamId);
    FlagAsks(q, Cpu);
    FlagAsks(q, Period);
    FlagAsks(q, Read);
  }

  lemma BodyAsked(q: Request, v: Values)
    ensures BodyAsks(q, v, LayoutOf(q), TableOf(LayoutOf(q), v))
  {
    FlagAsks(q, Raw);
    FlagAsks(q, Branches);
    FlagAsks(q, UserRegs);
    FlagAsks(q, UserStack);
  }

  lemma MachineAsked(q: Request, v: Values)
    ensures MachineAsks(q, v, LayoutOf(q), TableOf(LayoutOf(q), v))
  {
    FlagAsks(q, Weight);
    FlagAsks(q, WeightStruct);
    FlagAsks(q, DataSource);
    FlagAsks(q, Transaction);
    FlagAsks(q, IntrRegs);
  }

  lemma PagesAsked(q: Request, v: Values)
    ensures PagesAsk(q, v, LayoutOf(q), TableOf(LayoutOf(q), v))
  {
    FlagAsks(q, DataPage);
    FlagAsks(q, CodePage);
  }

  lemma MemoryAsked(q: Request, v: Values)
    ensures MemoryAsks(q, v, LayoutOf(q), TableOf(LayoutOf(q), v))
  {
    FlagAsks(q, PhysAddr);
    FlagAsks(q, Aux);
    FlagAsks(q, Cgroup);
    PagesAsked(q, v);
  }

  lemma LayoutAsks(q: Request, v: Values)
    ensures AllAsk(q, v, LayoutOf(q), TableOf(LayoutOf(q), v))
  {
    OriginAsked(q, v);
    SourceAsked(q, v);
    FlagAsks(q, Callchain);
    BodyAsked(q, v);
    MachineAsked(q, v);
    MemoryAsked(q, v);
  }

  // The items are the layout's fields, in its order.
  ghost predicate Matches(l: Layout, f: Fields, t: Table, items: Items)
    decreases f
  {
    match f
    case Last => items.Done?
    case Field(n, rest) =>
      items.Item? && l.Has(n) == items.asked && items.bytes == t(n) && Matches(l, rest, t, items.rest)
  }

  lemma MatchesOne(l: Layout, n: Name, t: Table, asked: bool, bytes: Data, f: Fields, rest: Items)
    requires l.Has(n) == asked && t(n) == bytes && Matches(l, f, t, rest)
    ensures Matches(l, Field(n, f), t, Item(asked, bytes, rest))
  {
  }

  lemma {:induction false} MatchesFlattens(l: Layout, f: Fields, t: Table, items: Items)
    requires Matches(l, f, t, items)
    ensures FieldsOf(l, f, t) == Flatten(items)
    decreases f
  {
    if f.Field? { MatchesFlattens(l, f.rest, t, items.rest); }
  }

  lemma ThenFour(a: Name, b: Name, c: Name, d: Name, f: Fields)
    ensures Then(Field(a, Field(b, Field(c, Field(d, Last)))), f) == Field(a, Field(b, Field(c, Field(d, f))))
  {
    var last := Field(d, Last);
    assert Then(last, f) == Field(d, f);
    assert Then(Field(c, last), f) == Field(c, Field(d, f));
    assert Then(Field(b, Field(c, last)), f) == Field(b, Field(c, Field(d, f)));
  }

  lemma ThenFive(a: Name, b: Name, c: Name, d: Name, e: Name, f: Fields)
    ensures Then(Field(a, Field(b, Field(c, Field(d, Field(e, Last))))), f)
            == Field(a, Field(b, Field(c, Field(d, Field(e, f)))))
  {
    ThenFour(b, c, d, e, f);
  }

  lemma OriginMatches(q: Request, v: Values, l: Layout, t: Table, f: Fields, rest: Items)
    requires OriginAsks(q, v, l, t) && Matches(l, f, t, rest)
    ensures Matches(l, Then(ORIGIN, f), t, OriginItems(q, v, rest))
  {
    MatchesOne(l, Addr, t, q.types & 0x8 != 0, t(Addr), f, rest);
    var f5, i5 := Field(Addr, f), Item(q.types & 0x8 != 0, t(Addr), rest);
    MatchesOne(l, Time, t, q.types & 0x4 != 0, t(Time), f5, i5);
    var f4, i4 := Field(Time, f5), Item(q.types & 0x4 != 0, t(Time), i5);
    MatchesOne(l, Tid, t, q.types & 0x2 != 0, t(Tid), f4, i4);
    var f3, i3 := Field(Tid, f4), Item(q.types & 0x2 != 0, t(Tid), i4);
    MatchesOne(l, Ip, t, q.types & 0x1 != 0, t(Ip), f3, i3);
    var f2, i2 := Field(Ip, f3), Item(q.types & 0x1 != 0, t(Ip), i3);
    MatchesOne(l, Identifier, t, q.types & 0x1_0000 != 0, t(Identifier), f2, i2);
    ThenFive(Identifier, Ip, Tid, Time, Addr, f);
    assert OriginItems(q, v, rest) == Item(q.types & 0x1_0000 != 0, t(Identifier), i2);
  }

  lemma SourceMatches(q: Request, v: Values, l: Layout, t: Table, f: Fields, rest: Items)
    requires SourceAsks(q, v, l, t) && Matches(l, f, t, rest)
    ensures Matches(l, Then(SOURCE, f), t, SourceItems(q, v, rest))
  {
    MatchesOne(l, Read, t, q.types & 0x10 != 0, t(Read), f, rest);
    var f5, i5 := Field(Read, f), Item(q.types & 0x10 != 0, t(Read), rest);
    MatchesOne(l, Period, t, q.types & 0x100 != 0, t(Period), f5, i5);
    var f4, i4 := Field(Period, f5), Item(q.types & 0x100 != 0, t(Period), i5);
    MatchesOne(l, Cpu, t, q.types & 0x80 != 0, t(Cpu), f4, i4);
    var f3, i3 := Field(Cpu, f4), Item(q.types & 0x80 != 0, t(Cpu), i4);
    MatchesOne(l, StreamId, t, q.types & 0x200 != 0, t(StreamId), f3, i3);
    var f2, i2 := Field(StreamId, f3), Item(q.types & 0x200 != 0, t(StreamId), i3);
    MatchesOne(l, Id, t, q.types & 0x40 != 0, t(Id), f2, i2);
    ThenFive(Id, StreamId, Cpu, Period, Read, f);
    assert SourceItems(q, v, rest) == Item(q.types & 0x40 != 0, t(Id), i2);
  }

  lemma BodyMatches(q: Request, v: Values, l: Layout, t: Table, f: Fields, rest: Items)
    requires BodyAsks(q, v, l, t) && Matches(l, f, t, rest)
    ensures Matches(l, Then(BODY, f), t, BodyItems(q, v, rest))
  {
    MatchesOne(l, UserStack, t, q.types & 0x2000 != 0, t(UserStack), f, rest);
    var f4, i4 := Field(UserStack, f), Item(q.types & 0x2000 != 0, t(UserStack), rest);
    MatchesOne(l, UserRegs, t, q.types & 0x1000 != 0, t(UserRegs), f4, i4);
    var f3, i3 := Field(UserRegs, f4), Item(q.types & 0x1000 != 0, t(UserRegs), i4);
    MatchesOne(l, Branches, t, q.types & 0x800 != 0, t(Branches), f3, i3);
    var f2, i2 := Field(Branches, f3), Item(q.types & 0x800 != 0, t(Branches), i3);
    MatchesOne(l, Raw, t, q.types & 0x400 != 0, t(Raw), f2, i2);
    ThenFour(Raw, Branches, UserRegs, UserStack, f);
    assert BodyItems(q, v, rest) == Item(q.types & 0x400 != 0, t(Raw), i2);
  }

  lemma MachineMatches(q: Request, v: Values, l: Layout, t: Table, f: Fields, rest: Items)
    requires MachineAsks(q, v, l, t) && Matches(l, f, t, rest)
    ensures Matches(l, Then(MACHINE, f), t, MachineItems(q, v, rest))
  {
    MatchesOne(l, IntrRegs, t, q.types & 0x4_0000 != 0, t(IntrRegs), f, rest);
    var f5, i5 := Field(IntrRegs, f), Item(q.types & 0x4_0000 != 0, t(IntrRegs), rest);
    MatchesOne(l, Transaction, t, q.types & 0x2_0000 != 0, t(Transaction), f5, i5);
    var f4, i4 := Field(Transaction, f5), Item(q.types & 0x2_0000 != 0, t(Transaction), i5);
    MatchesOne(l, DataSource, t, q.types & 0x8000 != 0, t(DataSource), f4, i4);
    var f3, i3 := Field(DataSource, f4), Item(q.types & 0x8000 != 0, t(DataSource), i4);
    MatchesOne(l, WeightStruct, t, q.types & 0x100_0000 != 0, t(WeightStruct), f3, i3);
    var f2, i2 := Field(WeightStruct, f3), Item(q.types & 0x100_0000 != 0, t(WeightStruct), i3);
    MatchesOne(l, Weight, t, q.types & 0x4000 != 0, t(Weight), f2, i2);
    ThenFive(Weight, WeightStruct, DataSource, Transaction, IntrRegs, f);
    assert MachineItems(q, v, rest) == Item(q.types & 0x4000 != 0, t(Weight), i2);
  }

  lemma MemoryMatches(q: Request, v: Values, l: Layout, t: Table, f: Fields, rest: Items)
    requires MemoryAsks(q, v, l, t) && Matches(l, f, t, rest)
    ensures Matches(l, Then(MEMORY, f), t, MemoryItems(q, v, rest))
  {
    MatchesOne(l, CodePage, t, q.types & 0x80_0000 != 0, t(CodePage), f, rest);
    var f5, i5 := Field(CodePage, f), Item(q.types & 0x80_0000 != 0, t(CodePage), rest);
    MatchesOne(l, DataPage, t, q.types & 0x40_0000 != 0, t(DataPage), f5, i5);
    var f4, i4 := Field(DataPage, f5), Item(q.types & 0x40_0000 != 0, t(DataPage), i5);
    MatchesOne(l, Cgroup, t, q.types & 0x20_0000 != 0, t(Cgroup), f4, i4);
    var f3, i3 := Field(Cgroup, f4), Item(q.types & 0x20_0000 != 0, t(Cgroup), i4);
    MatchesOne(l, Aux, t, q.types & 0x10_0000 != 0, t(Aux), f3, i3);
    var f2, i2 := Field(Aux, f3), Item(q.types & 0x10_0000 != 0, t(Aux), i3);
    MatchesOne(l, PhysAddr, t, q.types & 0x8_0000 != 0, t(PhysAddr), f2, i2);
    ThenFive(PhysAddr, Aux, Cgroup, DataPage, CodePage, f);
    assert MemoryItems(q, v, rest) == Item(q.types & 0x8_0000 != 0, t(PhysAddr), i2);
  }

  lemma ChainMatches(q: Request, v: Values, l: Layout, t: Table, f: Fields, rest: Items)
    requires ChainAsks(q, v, l, t) && Matches(l, f, t, rest)
    ensures Matches(l, Then(CHAIN, f), t, ChainItems(q, v, rest))
  {
    MatchesOne(l, Callchain, t, q.types & 0x20 != 0, t(Callchain), f, rest);
  }

  lemma AllWritten(q: Request, v: Values, l: Layout, t: Table)
    requires AllAsk(q, v, l, t)
    ensures FieldsOf(l, Then(HEAD, Then(CHAIN, Then(BODY, TAIL))), t) == Written(q, v)
  {
    var memory := MemoryItems(q, v, Done);
    var machine := MachineItems(q, v, memory);
    var body := BodyItems(q, v, machine);
    var chain := ChainItems(q, v, body);
    var source := SourceItems(q, v, chain);
    MemoryMatches(q, v, l, t, Last, Done);
    ThenLast(MEMORY);
    MachineMatches(q, v, l, t, MEMORY, memory);
    BodyMatches(q, v, l, t, TAIL, machine);
    ChainMatches(q, v, l, t, Then(BODY, TAIL), body);
    SourceMatches(q, v, l, t, Then(CHAIN, Then(BODY, TAIL)), chain);
    OriginMatches(q, v, l, t, Then(SOURCE, Then(CHAIN, Then(BODY, TAIL))), source);
    ThenThen(ORIGIN, SOURCE, Then(CHAIN, Then(BODY, TAIL)));
    MatchesFlattens(l, Then(HEAD, Then(CHAIN, Then(BODY, TAIL))), t, AllItems(q, v));
  }

  lemma {:induction false} ThenLast(f: Fields)
    ensures Then(f, Last) == f
  {
    if f.Field? { ThenLast(f.rest); }
  }

  // ----- Pieces of a payload -----------------------------------------------

  lemma WordsStand(p: Data, at: nat, words: seq<u64>)
    requires Stands(p, at, WordsOf(words))
    ensures Words(p, at, |words|) == words
  {
    forall i | 0 <= i < |words| ensures U64At(p, at + 8 * i) == words[i] {
      WordsAt(words, i);
      Subslice(p, at, at + 8 * |words|, 8 * i, 8 * i + 8);
      WordStands(p, at + 8 * i, words[i]);
    }
  }

  // ----- Extents of written fields -----------------------------------------

  predicate FieldFits(l: Layout, n: Name, v: Values) {
    match n
    case Read => l.read.group || |v.entries| == 1
    case Raw => |v.raw| < TWO_32
    case Branches => l.counters ==> |v.counters| == |v.branches|
    case UserRegs => RegsFit(l.userRegs, v.userRegs)
    case UserStack => StackFits(v.stack)
    case IntrRegs => RegsFit(l.intrRegs, v.intrRegs)
    case _ => true
  }

  lemma SizedStands(p: Payload, at: nat, bytes: Data, n: nat)
    requires n <= |bytes| && Stands(p, at, Word64(n) + bytes)
    ensures U64At(p, at) == n && Stands(p, at + 8, bytes)
  {
    StandsSplit(p, at, Word64(n), bytes);
    WordStands(p, at, n);
  }

  lemma ReadStands(p: Payload, f: ReadFormat, at: nat, v: Values)
    requires Stands(p, at, ReadBlock(f, v)) && (f.group || |v.entries| == 1)
    ensures ReadEnd(p, f, at) == Some(at + |ReadBlock(f, v)|)
  {
    if f.group {
      var rest := If(f.enabled, Word(v.enabled)) + (If(f.running, Word(v.running)) + EntriesOf(f, v.entries));
      GroupIsLonger(f, |v.entries|);
      SizedStands(p, at, rest, |v.entries|);
    }
  }

  lemma GroupIsLonger(f: ReadFormat, n: nat)
    ensures n <= GroupSize(f, n)
  {
  }

  lemma BranchesStand(p: Payload, l: Layout, at: nat, v: Values)
    requires Stands(p, at, BranchBlock(l.hardwareIndex, l.counters, v)) && FieldFits(l, Branches, v)
    ensures BranchesEnd(p, l.hardwareIndex, l.counters, at)
            == Some(at + |BranchBlock(l.hardwareIndex, l.counters, v)|)
  {
    var counters := If(l.counters, WordsOf(v.counters));
    var rest := If(l.hardwareIndex, Word(v.hardwareIndex)) + (BranchesOf(v.branches) + counters);
    SizedStands(p, at, rest, |v.branches|);
  }

  lemma RegsStand(p: Payload, mask: u64, at: nat, regs: Registers)
    requires Stands(p, at, RegsBlock(regs)) && RegsFit(mask, regs)
    ensures RegsEnd(p, mask, at) == Some(at + |RegsBlock(regs)|) && RegistersAt(p, mask, at) == regs
  {
    StandsSplit(p, at, Word(regs.abi), WordsOf(regs.values));
    WordStands(p, at, regs.abi);
    WordsStand(p, at + 8, regs.values);
  }

  lemma StackStands(p: Payload, at: nat, stack: Stack)
    requires Stands(p, at, StackBlock(stack)) && StackFits(stack)
    ensures StackEnd(p, at) == Some(at + |StackBlock(stack)|) && StackAt(p, at) == stack
  {
    if stack.bytes == [] {
      assert StackBlock(stack) == Word64(0) + [];
      SizedStands(p, at, [], 0);
    } else {
      SizedStands(p, at, stack.bytes + Word(stack.dynamicSize), |stack.bytes|);
      StandsSplit(p, at + 8, stack.bytes, Word(stack.dynamicSize));
      WordStands(p, at + 8 + |stack.bytes|, stack.dynamicSize);
    }
  }

  lemma FieldStands(p: Payload, l: Layout, n: Name, at: nat, v: Values)
    requires Stands(p, at, FieldBytes(l, n, v)) && FieldFits(l, n, v)
    ensures Extent(p, l, n, at) == Some(at + |FieldBytes(l, n, v)|)
  {
    match n
    case Read => ReadStands(p, l.read, at, v);
    case Callchain => ChainStands(p, at, v.chain);
    case Raw => RawStands(p, at, v.raw);
    case Branches => BranchesStand(p, l, at, v);
    case UserRegs => RegsStand(p, l.userRegs, at, v.userRegs);
    case UserStack => StackStands(p, at, v.stack);
    case IntrRegs => RegsStand(p, l.intrRegs, at, v.intrRegs);
    case _ => OtherStands(p, l, n, at, v);
  }

  lemma OtherStands(p: Payload, l: Layout, n: Name, at: nat, v: Values)
    requires Stands(p, at, FieldBytes(l, n, v)) && FieldFits(l, n, v)
    requires n !in {Read, Callchain, Raw, Branches, UserRegs, UserStack, IntrRegs}
    ensures Extent(p, l, n, at) == Some(at + |FieldBytes(l, n, v)|)
  {
    if n == Aux { SizedStands(p, at, v.aux, |v.aux|); } else { PlainStands(p, l, n, at, v); }
  }

  // All other fields have eight bytes.
  lemma PlainStands(p: Payload, l: Layout, n: Name, at: nat, v: Values)
    requires Stands(p, at, FieldBytes(l, n, v))
    requires n !in {Read, Callchain, Raw, Branches, UserRegs, UserStack, IntrRegs, Aux}
    ensures Extent(p, l, n, at) == Some(at + |FieldBytes(l, n, v)|)
  {
  }

  lemma RawStands(p: Payload, at: nat, raw: Data)
    requires Stands(p, at, Encode(|raw|, 4) + raw) && |raw| < TWO_32
    ensures U32At(p, at) == |raw| && at + 4 + |raw| <= |p|
  {
    StandsSplit(p, at, Encode(|raw|, 4), raw);
    HalfStands(p, at, |raw|);
  }

  lemma ChainStands(p: Payload, at: nat, chain: seq<u64>)
    requires Stands(p, at, Word64(|chain|) + WordsOf(chain))
    ensures U64At(p, at) == |chain| && Stands(p, at + 8, WordsOf(chain))
  {
    var n, bytes := |chain|, WordsOf(chain);
    SizedStands(p, at, bytes, n);
  }

  // ----- The walk finds what was written -----------------------------------

  ghost predicate MarkIs(p: Data, l: Layout, t: Table, m: map<Name, nat>, n: Name) {
    n in m ==> l.Has(n) && Stands(p, m[n], t(n))
  }

  ghost predicate MarksAre(p: Data, l: Layout, t: Table, m: map<Name, nat>) {
    forall n {:trigger MarkIs(p, l, t, m, n)} :: MarkIs(p, l, t, m, n)
  }

  // A field that stands somewhere ends there.
  ghost predicate Ends(p: Data, l: Layout, t: Table, n: Name, at: nat) {
    l.Has(n) && Stands(p, at, t(n)) ==> Extent(p, l, n, at) == Some(at + |t(n)|)
  }

  ghost predicate AllEnd(p: Data, l: Layout, t: Table) {
    forall n, at: nat {:trigger Ends(p, l, t, n, at)} :: Ends(p, l, t, n, at)
  }

  lemma CrossStands(p: Data, l: Layout, n: Name, s: Spot, t: Table)
    requires Stands(p, s.at, Asked(l, n, t)) && AllEnd(p, l, t) && MarksAre(p, l, t, s.marks)
    ensures var c := Cross(p, l, n, s);
            c.Some? && c.value.at == s.at + |Asked(l, n, t)| && MarksAre(p, l, t, c.value.marks)
  {
    if l.Has(n) {
      assert Ends(p, l, t, n, s.at);
      var c := Cross(p, l, n, s).value;
      forall k ensures MarkIs(p, l, t, c.marks, k) { assert MarkIs(p, l, t, s.marks, k); }
    }
  }

  lemma {:induction false} WalkStands(p: Data, l: Layout, f: Fields, s: Spot, t: Table)
    requires Stands(p, s.at, FieldsOf(l, f, t)) && AllEnd(p, l, t) && MarksAre(p, l, t, s.marks)
    ensures var w := Walk(p, l, f, s);
            w.Some? && w.value.at == s.at + |FieldsOf(l, f, t)| && MarksAre(p, l, t, w.value.marks)
    decreases f
  {
    match f
    case Last =>
    case Field(n, rest) =>
      StandsSplit(p, s.at, Asked(l, n, t), FieldsOf(l, rest, t));
      CrossStands(p, l, n, s, t);
      WalkStands(p, l, rest, Cross(p, l, n, s).value, t);
  }

  lemma {:induction false} FieldsThen(l: Layout, a: Fields, b: Fields, t: Table)
    ensures FieldsOf(l, Then(a, b), t) == FieldsOf(l, a, t) + FieldsOf(l, b, t)
    decreases a
  {
    match a
    case Last =>
    case Field(n, rest) =>
      FieldsThen(l, rest, b, t);
      assert Asked(l, n, t) + (FieldsOf(l, rest, t) + FieldsOf(l, b, t)) ==
             Asked(l, n, t) + FieldsOf(l, rest, t) + FieldsOf(l, b, t);
  }

  // ----- Reading back what was written -------------------------------------

  const ALL: Fields := Then(HEAD, Then(CHAIN, Then(BODY, TAIL)))
  const FRONT: Fields := Then(HEAD, Then(CHAIN, BODY))

  lemma ReadFits(q: Request, v: Values)
    requires Fits(q, v) && LayoutOf(q).Has(Read)
    ensures FieldFits(LayoutOf(q), Read, v)
  {
    FlagAsks(q, Read);
    assert q.types & 0x10 != 0;
  }

  lemma RawFits(q: Request, v: Values)
    requires Fits(q, v) && LayoutOf(q).Has(Raw)
    ensures FieldFits(LayoutOf(q), Raw, v)
  {
    FlagAsks(q, Raw);
    assert q.types & 0x400 != 0;
  }

  lemma BranchesFits(q: Request, v: Values)
    requires Fits(q, v) && LayoutOf(q).Has(Branches)
    ensures FieldFits(LayoutOf(q), Branches, v)
  {
    FlagAsks(q, Branches);
    assert q.types & 0x800 != 0;
  }

  lemma UserRegsFits(q: Request, v: Values)
    requires Fits(q, v) && LayoutOf(q).Has(UserRegs)
    ensures FieldFits(LayoutOf(q), UserRegs, v)
  {
    FlagAsks(q, UserRegs);
    assert q.types & 0x1000 != 0;
  }

  lemma UserStackFits(q: Request, v: Values)
    requires Fits(q, v) && LayoutOf(q).Has(UserStack)
    ensures FieldFits(LayoutOf(q), UserStack, v)
  {
    FlagAsks(q, UserStack);
    assert q.types & 0x2000 != 0;
  }

  lemma IntrRegsFits(q: Request, v: Values)
    requires Fits(q, v) && LayoutOf(q).Has(IntrRegs)
    ensures FieldFits(LayoutOf(q), IntrRegs, v)
  {
    FlagAsks(q, IntrRegs);
    assert q.types & 0x4_0000 != 0;
  }

  lemma FitsField(q: Request, v: Values, n: Name)
    requires Fits(q, v) && LayoutOf(q).Has(n)
    ensures FieldFits(LayoutOf(q), n, v)
  {
    match n
    case Read => ReadFits(q, v);
    case Raw => RawFits(q, v);
    case Branches => BranchesFits(q, v);
    case UserRegs => UserRegsFits(q, v);
    case UserStack => UserStackFits(q, v);
    case IntrRegs => IntrRegsFits(q, v);
    case _ =>
  }

  lemma WrittenEnds(q: Request, v: Values)
    requires Fits(q, v)
    ensures AllEnd(Written(q, v), LayoutOf(q), TableOf(LayoutOf(q), v))
  {
    var p: Payload, l, t := Written(q, v), LayoutOf(q), TableOf(LayoutOf(q), v);
    forall n, at: nat ensures Ends(p, l, t, n, at) {
      if l.Has(n) && Stands(p, at, t(n)) {
        FitsField(q, v, n);
        FieldStands(p, l, n, at, v);
      }
    }
  }

  // The walk over the first fields finds each where it was written.
  lemma WrittenWalk(q: Request, v: Values, f: Fields, rest: Fields)
    requires Fits(q, v) && Then(f, rest) == ALL
    ensures var l, t := LayoutOf(q), TableOf(LayoutOf(q), v);
            var w := Walk(Written(q, v), l, f, START);
            w.Some? && w.value.at == |FieldsOf(l, f, t)| && MarksAre(Written(q, v), l, t, w.value.marks)
  {
    var p, l, t := Written(q, v), LayoutOf(q), TableOf(LayoutOf(q), v);
    LayoutAsks(q, v);
    AllWritten(q, v, l, t);
    FieldsThen(l, f, rest, t);
    WrittenEnds(q, v);
    var first := FieldsOf(l, f, t);
    assert p[0..|first|] == first;
    WalkStands(p, l, f, START, t);
  }

  ghost predicate Carries(m: map<Name, nat>, l: Layout, n: Name) { n in m <==> l.Has(n) }

  lemma OriginNames()
    ensures Names(ORIGIN, Ip) && Names(ORIGIN, Tid) && Names(ORIGIN, Time)
  {
  }

  lemma SourceNames()
    ensures Names(SOURCE, Cpu) && Names(SOURCE, Period)
  {
  }

  lemma BodyNames()
    ensures Names(BODY, UserRegs) && Names(BODY, UserStack)
  {
  }

  lemma FrontHas(n: Name)
    ensures Names(ORIGIN, n) || Names(SOURCE, n) || Names(CHAIN, n) || Names(BODY, n) ==> Names(FRONT, n)
  {
    NamesThen(HEAD, Then(CHAIN, BODY), n);
    NamesThen(ORIGIN, SOURCE, n);
    NamesThen(CHAIN, BODY, n);
  }

  lemma FrontNames(n: Name)
    requires n in {Ip, Tid, Time, Cpu, Period, Callchain, UserRegs, UserStack}
    ensures Names(FRONT, n)
  {
    OriginNames();
    SourceNames();
    BodyNames();
    FrontHas(n);
    if n == Callchain { assert Names(CHAIN, Callchain); }
  }

  lemma Carried(q: Request, v: Values, f: Fields, n: Name)
    requires Walk(Written(q, v), LayoutOf(q), f, START).Some? && Names(f, n)
    ensures Carries(Walk(Written(q, v), LayoutOf(q), f, START).value.marks, LayoutOf(q), n)
  {
    WalkMarks(Written(q, v), LayoutOf(q), f, START, n);
  }

  // What the marks of the first fields say is what was written.
  ghost predicate FrontMarks(q: Request, v: Values, m: map<Name, nat>) {
    && MarksAre(Written(q, v), LayoutOf(q), TableOf(LayoutOf(q), v), m)
    && forall n {:trigger Carries(m, LayoutOf(q), n)} ::
         n in {Ip, Tid, Time, Cpu, Period, Callchain, UserRegs, UserStack} ==> Carries(m, LayoutOf(q), n)
  }

  lemma MarkedWordIs(q: Request, v: Values, m: map<Name, nat>, n: Name, value: u64)
    requires FrontMarks(q, v, m) && n in {Ip, Time, Period}
    requires FieldBytes(LayoutOf(q), n, v) == Word(value)
    ensures MarkedWord(Written(q, v), m, n) == Opt(LayoutOf(q).Has(n), value)
  {
    var p, l, t := Written(q, v), LayoutOf(q), TableOf(LayoutOf(q), v);
    assert Carries(m, l, n) && MarkIs(p, l, t, m, n);
    if n in m { WordStands(p, m[n], value); }
  }

  lemma MarkedHalvesAre(q: Request, v: Values, m: map<Name, nat>, n: Name, low: u32, high: u32)
    requires FrontMarks(q, v, m) && n in {Tid, Cpu}
    requires FieldBytes(LayoutOf(q), n, v) == Half(low) + Half(high)
    ensures MarkedHalf(Written(q, v), m, n, 0) == Opt(LayoutOf(q).Has(n), low)
    ensures MarkedHalf(Written(q, v), m, n, 4) == Opt(LayoutOf(q).Has(n), high)
  {
    var p, l, t := Written(q, v), LayoutOf(q), TableOf(LayoutOf(q), v);
    assert Carries(m, l, n) && MarkIs(p, l, t, m, n);
    if n in m {
      StandsSplit(p, m[n], Half(low), Half(high));
      HalfStands(p, m[n], low);
      HalfStands(p, m[n] + 4, high);
    }
  }

  lemma EventIsRecorded(q: Request, v: Values, m: map<Name, nat>)
    requires FrontMarks(q, v, m)
    ensures EventOf(Written(q, v), m) == RecordedEvent(q, v)
  {
    LayoutAsks(q, v);
    MarkedWordIs(q, v, m, Ip, v.ip);
    MarkedHalvesAre(q, v, m, Tid, v.pid, v.tid);
    MarkedWordIs(q, v, m, Time, v.time);
    MarkedHalvesAre(q, v, m, Cpu, v.cpu, v.reserved);
    MarkedWordIs(q, v, m, Period, v.period);
  }

  // The chain's words stand behind their count.
  lemma ChainIsRecorded(q: Request, v: Values, m: map<Name, nat>)
    requires Fits(q, v) && FrontMarks(q, v, m)
    ensures Callchain in m <==> q.types & 0x20 != 0
    ensures Callchain in m ==>
              && U64At(Written(q, v), m[Callchain]) == |v.chain|
              && Stands(Written(q, v), m[Callchain] + 8, WordsOf(v.chain))
              && Words(Written(q, v), m[Callchain] + 8, |v.chain|) == v.chain
  {
    var p: Payload, l, t := Written(q, v), LayoutOf(q), TableOf(LayoutOf(q), v);
    LayoutAsks(q, v);
    assert Carries(m, l, Callchain) && MarkIs(p, l, t, m, Callchain);
    if Callchain in m {
      ChainStands(p, m[Callchain], v.chain);
      WordsStand(p, m[Callchain] + 8, v.chain);
    }
  }

  lemma KnownFlags(q: Request)
    requires q.types & 0xffff_ffff_fe00_0000 == 0
    ensures !LayoutOf(q).unknown
  {
  }

  // The strict parser gives back the values written for the fields that it keeps.
  lemma StrictReadsBack(q: Request, v: Values)
    requires Fits(q, v)
    ensures Strict(Written(q, v), LayoutOf(q)) == Some(RecordedSample(q, v))
  {
    var p, l, t := Written(q, v), LayoutOf(q), TableOf(LayoutOf(q), v);
    KnownFlags(q);
    ThenLast(ALL);
    WrittenWalk(q, v, ALL, Last);
    LayoutAsks(q, v);
    AllWritten(q, v, l, t);
    var m := Walk(p, l, ALL, START).value.marks;
    AllIsMarked(q, v, m);
    EventIsRecorded(q, v, m);
    ChainIsRecorded(q, v, m);
  }

  lemma AllIsMarked(q: Request, v: Values, m: map<Name, nat>)
    requires Walk(Written(q, v), LayoutOf(q), ALL, START).Some?
    requires m == Walk(Written(q, v), LayoutOf(q), ALL, START).value.marks
    requires MarksAre(Written(q, v), LayoutOf(q), TableOf(LayoutOf(q), v), m)
    ensures FrontMarks(q, v, m)
  {
    forall n | n in {Ip, Tid, Time, Cpu, Period, Callchain, UserRegs, UserStack} ensures Carries(m, LayoutOf(q), n) {
      AllNames(n);
      Carried(q, v, ALL, n);
    }
  }

  lemma AllNames(n: Name)
    requires n in {Ip, Tid, Time, Cpu, Period, Callchain, UserRegs, UserStack}
    ensures Names(ALL, n)
  {
    FrontNames(n);
    FrontThenTail();
    NamesThen(FRONT, TAIL, n);
  }

  lemma FrontThenTail()
    ensures Then(FRONT, TAIL) == ALL
  {
    ThenThen(HEAD, Then(CHAIN, BODY), TAIL);
    ThenThen(CHAIN, BODY, TAIL);
  }

  lemma FramesAreRecorded(q: Request, v: Values, m: map<Name, nat>)
    requires Fits(q, v) && FrontMarks(q, v, m)
    ensures FramesOf(Written(q, v), m) == RecordedFrames(q, v)
  {
    EventIsRecorded(q, v, m);
    ChainIsRecorded(q, v, m);
    if Callchain in m { SliceStands(Written(q, v), m[Callchain] + 8, WordsOf(v.chain)); }
  }

  lemma SliceStands(p: Data, at: nat, bytes: Data)
    requires Stands(p, at, bytes)
    ensures Slice(p, at, at + |bytes|) == bytes
  {
  }

  lemma RangeRecorded(q: Request, v: Values, m: map<Name, nat>)
    requires Fits(q, v) && FrontMarks(q, v, m)
    ensures RangeIsRecorded(q, v, ChainRangeOf(Written(q, v), m))
  {
    ChainIsRecorded(q, v, m);
    assert MarkIs(Written(q, v), LayoutOf(q), TableOf(LayoutOf(q), v), m, Callchain);
  }

  // The chain as its very bytes, or the event's address where no chain is recorded.
  function RecordedFrames(q: Request, v: Values): Frames {
    if q.types & 0x20 != 0 then Frames(WordsOf(v.chain), None) else Frames([], Opt(q.types & 0x1 != 0, v.ip))
  }

  // The range of the chain covers its count and its words.
  ghost predicate RangeIsRecorded(q: Request, v: Values, range: Option<(nat, nat)>) {
    match range
    case None => q.types & 0x20 == 0
    case Some((from, to)) =>
      && q.types & 0x20 != 0 && to == from + 8 + 8 * |v.chain|
      && Stands(Written(q, v), from, Word64(|v.chain|) + WordsOf(v.chain))
  }

  lemma FrontIsMarked(q: Request, v: Values)
    requires Fits(q, v)
    ensures var w := Walk(Written(q, v), LayoutOf(q), FRONT, START); w.Some? && FrontMarks(q, v, w.value.marks)
  {
    FrontThenTail();
    WrittenWalk(q, v, FRONT, TAIL);
    var m := Walk(Written(q, v), LayoutOf(q), FRONT, START).value.marks;
    forall n | n in {Ip, Tid, Time, Cpu, Period, Callchain, UserRegs, UserStack} ensures Carries(m, LayoutOf(q), n) {
      FrontNames(n);
      Carried(q, v, FRONT, n);
    }
  }

  // The metadata parser gives back the event, the chain, and the captured registers and stack.
  lemma MetadataReadsBack(q: Request, v: Values)
    requires Fits(q, v)
    ensures var r := Metadata(Written(q, v), LayoutOf(q));
            && r.Some? && r.value.event == RecordedEvent(q, v) && r.value.frames == RecordedFrames(q, v)
            && RangeIsRecorded(q, v, r.value.chainRange)
            && r.value.userRegs == Opt(q.types & 0x1000 != 0, v.userRegs)
            && r.value.userStack == Opt(q.types & 0x2000 != 0, v.stack)
  {
    KnownFlags(q);
    FrontIsMarked(q, v);
    var m := Walk(Written(q, v), LayoutOf(q), FRONT, START).value.marks;
    EventIsRecorded(q, v, m);
    FramesAreRecorded(q, v, m);
    RangeRecorded(q, v, m);
    StateIsRecorded(q, v, m);
  }

  lemma StateIsRecorded(q: Request, v: Values, m: map<Name, nat>)
    requires Fits(q, v) && FrontMarks(q, v, m)
    ensures UserRegs in m <==> q.types & 0x1000 != 0
    ensures UserRegs in m ==> RegistersAt(Written(q, v), q.userRegs, m[UserRegs]) == v.userRegs
    ensures UserStack in m <==> q.types & 0x2000 != 0
    ensures UserStack in m ==> StackAt(Written(q, v), m[UserStack]) == v.stack
  {
    var p: Payload, l, t := Written(q, v), LayoutOf(q), TableOf(LayoutOf(q), v);
    LayoutAsks(q, v);
    assert Carries(m, l, UserRegs) && MarkIs(p, l, t, m, UserRegs);
    assert Carries(m, l, UserStack) && MarkIs(p, l, t, m, UserStack);
    if UserRegs in m { RegsStand(p, q.userRegs, m[UserRegs], v.userRegs); }
    if UserStack in m { StackStands(p, m[UserStack], v.stack); }
  }
}
