// The sample parsers: a cursor that moves through one payload, and the three readings of it.
module SampleParsers {
  import opened Basics
  import opened Bytes
  import opened SampleLayouts

  datatype SampleError = Unsupported | Truncated | Overflow | BadExtent | Trailing

  // A step of the cursor: it succeeds exactly when the field is complete, and moves to its end.
  ghost predicate Moves<T>(r: Result<T, SampleError>, end: Option<nat>, offset: nat) {
    match r case Ok(_) => end == Some(offset) case Err(_) => end == None
  }

  lemma Scaled(n: nat, count: nat, size: nat)
    requires n < count
    ensures (n + 1) * size == n * size + size && (n + 1) * size <= count * size
  {
  }

  class SampleCursor {
    const payload: Payload
    var offset: nat

    constructor (payload: Payload)
      ensures this.payload == payload && offset == 0
    {
      this.payload, this.offset := payload, 0;
    }

    method TakeU32() returns (r: Result<u32, SampleError>)
      modifies this
      ensures Moves(r, Within(payload, old(offset) + 4), offset)
      ensures r.Ok? ==> r.value == U32At(payload, old(offset))
    {
      var value := ReadU32(payload, offset);
      if value.None? { return Err(Truncated); }
      offset := offset + 4;
      return Ok(value.value);
    }

    method TakeU64() returns (r: Result<u64, SampleError>)
      modifies this
      ensures Moves(r, Within(payload, old(offset) + 8), offset)
      ensures r.Ok? ==> r.value == U64At(payload, old(offset))
    {
      var value := ReadU64(payload, offset);
      if value.None? { return Err(Truncated); }
      offset := offset + 8;
      return Ok(value.value);
    }

    // Lengths and offsets that overflow a machine word are refused before any slicing.
    method TakeBytes(len: nat) returns (r: Result<Data, SampleError>)
      modifies this
      ensures Moves(r, Within(payload, old(offset) + len), offset)
      ensures r.Ok? ==> r.value == payload[old(offset)..offset]
    {
      var end := offset + len;
      if end > U64_MAX { return Err(Overflow); }
      if end > |payload| { return Err(Truncated); }
      r := Ok(payload[offset..end]);
      offset := end;
    }

    method TakeScaled(count: nat, size: nat) returns (r: Result<Data, SampleError>)
      modifies this
      ensures Moves(r, Within(payload, old(offset) + count * size), offset)
      ensures r.Ok? ==> r.value == payload[old(offset)..offset]
    {
      if count * size > U64_MAX { return Err(Overflow); }
      r := TakeBytes(count * size);
    }

    method SkipSizedU32Payload() returns (r: Result<(), SampleError>)
      modifies this
      ensures forall l :: Moves(r, Extent(payload, l, Raw, old(offset)), offset)
    {
      var size :- TakeU32();
      var _ :- TakeBytes(size);
      return Ok(());
    }

    method SkipSizedU64Payload() returns (r: Result<(), SampleError>)
      modifies this
      ensures forall l :: Moves(r, Extent(payload, l, Aux, old(offset)), offset)
    {
      var size :- TakeU64();
      var _ :- TakeBytes(size);
      return Ok(());
    }

    method SkipBranchStack(hardwareIndex: bool, counters: bool) returns (r: Result<(), SampleError>)
      modifies this
      ensures Moves(r, BranchesEnd(payload, hardwareIndex, counters, old(offset)), offset)
    {
      var branches :- TakeU64();
      if hardwareIndex { var _ :- TakeU64(); }
      var _ :- TakeScaled(branches, 24);
      if counters { var _ :- TakeScaled(branches, 8); }
      return Ok(());
    }

    method TakeRegs(mask: u64) returns (r: Result<Registers, SampleError>)
      modifies this
      ensures Moves(r, RegsEnd(payload, mask, old(offset)), offset)
      ensures r.Ok? ==> r.value == RegistersAt(payload, mask, old(offset))
    {
      ghost var start := offset;
      var abi :- TakeU64();
      var count := if abi == 0 then 0 else CountOnes(mask);
      var values := [];
      while |values| < count
        invariant |values| <= count && offset == start + 8 + 8 * |values| <= |payload|
        invariant values == Words(payload, start + 8, |values|)
      {
        var value :- TakeU64();
        values := values + [value];
      }
      return Ok(Registers(abi, values));
    }

    method TakeUserStack() returns (r: Result<Stack, SampleError>)
      modifies this
      ensures Moves(r, StackEnd(payload, old(offset)), offset)
      ensures r.Ok? ==> r.value == StackAt(payload, old(offset))
    {
      var size :- TakeU64();
      if size == 0 { return Ok(Stack([], 0)); }
      var bytes :- TakeBytes(size);
      var dynamicSize :- TakeU64();
      if dynamicSize > size { return Err(BadExtent); }
      return Ok(Stack(bytes, dynamicSize));
    }

    method SkipReadFormat(f: ReadFormat) returns (r: Result<(), SampleError>)
      modifies this
      ensures Moves(r, ReadEnd(payload, f, old(offset)), offset)
    {
      if f.group { r := SkipGroupReadFormat(f); return; }
      var _ :- TakeU64();
      var _ :- SkipTimes(f);
      if f.id { var _ :- TakeU64(); }
      if f.lost { var _ :- TakeU64(); }
      return Ok(());
    }

    method SkipGroupReadFormat(f: ReadFormat) returns (r: Result<(), SampleError>)
      requires f.group
      modifies this
      ensures Moves(r, ReadEnd(payload, f, old(offset)), offset)
    {
      var values :- TakeU64();
      var _ :- SkipTimes(f);
      r := SkipGroupEntries(f, values);
    }

    method SkipTimes(f: ReadFormat) returns (r: Result<(), SampleError>)
      requires offset <= |payload|
      modifies this
      ensures Moves(r, Within(payload, old(offset) + WordsIf(f.enabled) + WordsIf(f.running)), offset)
    {
      if f.enabled { var _ :- TakeU64(); }
      if f.running { var _ :- TakeU64(); }
      return Ok(());
    }

    method SkipGroupEntries(f: ReadFormat, values: nat) returns (r: Result<(), SampleError>)
      requires offset <= |payload|
      modifies this
      ensures Moves(r, Within(payload, old(offset) + GroupSize(f, values)), offset)
    {
      ghost var base := offset;
      var n := 0;
      while n < values
        invariant 0 <= n <= values && offset == base + GroupSize(f, n) <= |payload|
      {
        Scaled(n, values, EntrySize(f));
        var _ :- SkipGroupEntry(f);
        n := n + 1;
      }
      return Ok(());
    }

    method SkipGroupEntry(f: ReadFormat) returns (r: Result<(), SampleError>)
      modifies this
      ensures Moves(r, Within(payload, old(offset) + EntrySize(f)), offset)
    {
      var _ :- TakeU64();
      if f.id { var _ :- TakeU64(); }
      if f.lost { var _ :- TakeU64(); }
      return Ok(());
    }

    method Finish() returns (r: Result<(), SampleError>)
      ensures r.Ok? <==> offset == |payload|
    {
      return if offset == |payload| then Ok(()) else Err(Trailing);
    }
  }

  // ----- Optional fields ---------------------------------------------------

  ghost function EndOf(s: Option<Spot>): Option<nat> {
    match s case None => None case Some(t) => Some(t.at)
  }

  ghost predicate IsWord(n: Name) {
    n !in {Tid, Cpu, Read, Callchain, Raw, Branches, UserRegs, UserStack, IntrRegs, Aux}
  }

  ghost predicate InEvent(n: Name) { n in {Ip, Tid, Time, Cpu, Period} }

  // One field crossed, if the layout has it. The event read so far stays as it was.
  ghost predicate Crosses<T>(r: Result<T, SampleError>, p: Data, l: Layout, n: Name, s: Spot, offset: nat) {
    && Moves(r, EndOf(Cross(p, l, n, s)), offset)
    && (r.Ok? && !InEvent(n) ==> EventOf(p, Cross(p, l, n, s).value.marks) == EventOf(p, s.marks))
  }

  method SkipWordIf(cursor: SampleCursor, l: Layout, n: Name, ghost s: Spot) returns (r: Result<(), SampleError>)
    requires cursor.offset == s.at && IsWord(n)
    modifies cursor
    ensures Crosses(r, cursor.payload, l, n, s, cursor.offset)
  {
    if l.Has(n) { var _ :- cursor.TakeU64(); }
    return Ok(());
  }

  ghost function WithWord(e: Event, n: Name, value: Option<u64>): Event {
    match n
    case Ip => e.(ip := value)
    case Time => e.(time := value)
    case Period => e.(period := value)
    case _ => e
  }

  method TakeWordIf(cursor: SampleCursor, l: Layout, n: Name, ghost s: Spot)
    returns (r: Result<Option<u64>, SampleError>)
    requires cursor.offset == s.at && n in {Ip, Time, Period} && n !in s.marks
    modifies cursor
    ensures Crosses(r, cursor.payload, l, n, s, cursor.offset)
    ensures r.Ok? ==>
              EventOf(cursor.payload, Cross(cursor.payload, l, n, s).value.marks) ==
              WithWord(EventOf(cursor.payload, s.marks), n, r.value)
  {
    if l.Has(n) {
      var value :- cursor.TakeU64();
      return Ok(Some(value));
    }
    return Ok(None);
  }

  ghost function WithHalves(e: Event, n: Name, value: Option<(u32, u32)>): Event {
    match value
    case Some(pair) => if n == Tid then e.(pid := Some(pair.0), tid := Some(pair.1)) else e.(cpu := Some(pair.0))
    case None => e
  }

  method TakeHalvesIf(cursor: SampleCursor, l: Layout, n: Name, ghost s: Spot)
    returns (r: Result<Option<(u32, u32)>, SampleError>)
    requires cursor.offset == s.at && n in {Tid, Cpu} && n !in s.marks
    modifies cursor
    ensures Crosses(r, cursor.payload, l, n, s, cursor.offset)
    ensures r.Ok? ==>
              EventOf(cursor.payload, Cross(cursor.payload, l, n, s).value.marks) ==
              WithHalves(EventOf(cursor.payload, s.marks), n, r.value)
  {
    if l.Has(n) {
      var low :- cursor.TakeU32();
      var high :- cursor.TakeU32();
      return Ok(Some((low, high)));
    }
    return Ok(None);
  }

  method SkipReadIf(cursor: SampleCursor, l: Layout, ghost s: Spot) returns (r: Result<(), SampleError>)
    requires cursor.offset == s.at
    modifies cursor
    ensures Crosses(r, cursor.payload, l, Read, s, cursor.offset)
  {
    if l.Has(Read) { var _ :- cursor.SkipReadFormat(l.read); }
    return Ok(());
  }

  method SkipRawIf(cursor: SampleCursor, l: Layout, ghost s: Spot) returns (r: Result<(), SampleError>)
    requires cursor.offset == s.at
    modifies cursor
    ensures Crosses(r, cursor.payload, l, Raw, s, cursor.offset)
  {
    if l.Has(Raw) { var _ :- cursor.SkipSizedU32Payload(); }
    return Ok(());
  }

  method SkipAuxIf(cursor: SampleCursor, l: Layout, ghost s: Spot) returns (r: Result<(), SampleError>)
    requires cursor.offset == s.at
    modifies cursor
    ensures Crosses(r, cursor.payload, l, Aux, s, cursor.offset)
  {
    if l.Has(Aux) { var _ :- cursor.SkipSizedU64Payload(); }
    return Ok(());
  }

  method SkipBranchesIf(cursor: SampleCursor, l: Layout, ghost s: Spot) returns (r: Result<(), SampleError>)
    requires cursor.offset == s.at
    modifies cursor
    ensures Crosses(r, cursor.payload, l, Branches, s, cursor.offset)
  {
    if l.Has(Branches) { var _ :- cursor.SkipBranchStack(l.hardwareIndex, l.counters); }
    return Ok(());
  }

  method TakeUserRegsIf(cursor: SampleCursor, l: Layout, ghost s: Spot)
    returns (r: Result<Option<Registers>, SampleError>)
    requires cursor.offset == s.at
    modifies cursor
    ensures Crosses(r, cursor.payload, l, UserRegs, s, cursor.offset)
    ensures r.Ok? ==> r.value == if l.Has(UserRegs) then Some(RegistersAt(cursor.payload, l.userRegs, s.at)) else None
  {
    if l.Has(UserRegs) {
      var regs :- cursor.TakeRegs(l.userRegs);
      return Ok(Some(regs));
    }
    return Ok(None);
  }

  method SkipIntrRegsIf(cursor: SampleCursor, l: Layout, ghost s: Spot) returns (r: Result<(), SampleError>)
    requires cursor.offset == s.at
    modifies cursor
    ensures Crosses(r, cursor.payload, l, IntrRegs, s, cursor.offset)
  {
    if l.Has(IntrRegs) { var _ :- cursor.TakeRegs(l.intrRegs); }
    return Ok(());
  }

  method TakeUserStackIf(cursor: SampleCursor, l: Layout, ghost s: Spot) returns (r: Result<Option<Stack>, SampleError>)
    requires cursor.offset == s.at
    modifies cursor
    ensures Crosses(r, cursor.payload, l, UserStack, s, cursor.offset)
    ensures r.Ok? ==> r.value == if l.Has(UserStack) then Some(StackAt(cursor.payload, s.at)) else None
  {
    if l.Has(UserStack) {
      var stack :- cursor.TakeUserStack();
      return Ok(Some(stack));
    }
    return Ok(None);
  }

  // ----- The strict parser -------------------------------------------------

  // The part of an event that the strict parser keeps.
  ghost predicate RecordFields(a: Event, b: Event) {
    a.ip == b.ip && a.pid == b.pid && a.tid == b.tid && a.period == b.period
  }

  method StrictOrigin(cursor: SampleCursor, l: Layout) returns (r: Result<Event, SampleError>)
    requires cursor.offset == 0
    modifies cursor
    ensures Moves(r, EndOf(Walk(cursor.payload, l, ORIGIN, START)), cursor.offset)
    ensures r.Ok? ==> RecordFields(r.value, EventOf(cursor.payload, Walk(cursor.payload, l, ORIGIN, START).value.marks))
  {
    ghost var p, s := cursor.payload, START;
    var _ :- SkipWordIf(cursor, l, Identifier, s);
    s := Cross(p, l, Identifier, s).value;
    var ip :- TakeWordIf(cursor, l, Ip, s);
    s := Cross(p, l, Ip, s).value;
    var ids :- TakeHalvesIf(cursor, l, Tid, s);
    s := Cross(p, l, Tid, s).value;
    var _ :- TakeWordIf(cursor, l, Time, s);
    s := Cross(p, l, Time, s).value;
    var _ :- SkipWordIf(cursor, l, Addr, s);
    var pid := if ids.Some? then Some(ids.value.0) else None;
    var tid := if ids.Some? then Some(ids.value.1) else None;
    return Ok(Event(ip, pid, tid, None, None, None));
  }

  method StrictSource(cursor: SampleCursor, l: Layout, ghost start: Spot) returns (r: Result<Option<u64>, SampleError>)
    requires cursor.offset == start.at && Cpu !in start.marks && Period !in start.marks
    modifies cursor
    ensures Moves(r, EndOf(Walk(cursor.payload, l, SOURCE, start)), cursor.offset)
    ensures r.Ok? ==> RecordFields(EventOf(cursor.payload, start.marks).(period := r.value),
                                   EventOf(cursor.payload, Walk(cursor.payload, l, SOURCE, start).value.marks))
  {
    ghost var p, s := cursor.payload, start;
    var _ :- SkipWordIf(cursor, l, Id, s);
    s := Cross(p, l, Id, s).value;
    var _ :- SkipWordIf(cursor, l, StreamId, s);
    s := Cross(p, l, StreamId, s).value;
    var _ :- TakeHalvesIf(cursor, l, Cpu, s);
    s := Cross(p, l, Cpu, s).value;
    var period :- TakeWordIf(cursor, l, Period, s);
    s := Cross(p, l, Period, s).value;
    var _ :- SkipReadIf(cursor, l, s);
    return Ok(period);
  }

  // The strict parser reads the chain word by word.
  method StrictChain(cursor: SampleCursor, l: Layout, ghost s: Spot) returns (r: Result<seq<u64>, SampleError>)
    requires cursor.offset == s.at && Callchain !in s.marks
    modifies cursor
    ensures Crosses(r, cursor.payload, l, Callchain, s, cursor.offset)
    ensures r.Ok? ==> r.value == ChainOf(cursor.payload, Cross(cursor.payload, l, Callchain, s).value.marks)
  {
    var chain := [];
    if l.Has(Callchain) {
      var count :- cursor.TakeU64();
      while |chain| < count
        invariant |chain| <= count && cursor.offset == s.at + 8 + 8 * |chain| <= |cursor.payload|
        invariant chain == Words(cursor.payload, s.at + 8, |chain|)
      {
        var frame :- cursor.TakeU64();
        chain := chain + [frame];
      }
    }
    return Ok(chain);
  }

  method StrictBody(cursor: SampleCursor, l: Layout, ghost start: Spot) returns (r: Result<(), SampleError>)
    requires cursor.offset == start.at
    modifies cursor
    ensures Moves(r, EndOf(Walk(cursor.payload, l, BODY, start)), cursor.offset)
  {
    ghost var p, s := cursor.payload, start;
    var _ :- SkipRawIf(cursor, l, s);
    s := Cross(p, l, Raw, s).value;
    var _ :- SkipBranchesIf(cursor, l, s);
    s := Cross(p, l, Branches, s).value;
    var _ :- TakeUserRegsIf(cursor, l, s);
    s := Cross(p, l, UserRegs, s).value;
    var _ :- TakeUserStackIf(cursor, l, s);
    return Ok(());
  }

  method StrictMachine(cursor: SampleCursor, l: Layout, ghost start: Spot) returns (r: Result<(), SampleError>)
    requires cursor.offset == start.at
    modifies cursor
    ensures Moves(r, EndOf(Walk(cursor.payload, l, MACHINE, start)), cursor.offset)
  {
    ghost var p, s := cursor.payload, start;
    var _ :- SkipWordIf(cursor, l, Weight, s);
    s := Cross(p, l, Weight, s).value;
    var _ :- SkipWordIf(cursor, l, WeightStruct, s);
    s := Cross(p, l, WeightStruct, s).value;
    var _ :- SkipWordIf(cursor, l, DataSource, s);
    s := Cross(p, l, DataSource, s).value;
    var _ :- SkipWordIf(cursor, l, Transaction, s);
    s := Cross(p, l, Transaction, s).value;
    var _ :- SkipIntrRegsIf(cursor, l, s);
    return Ok(());
  }

  method StrictMemory(cursor: SampleCursor, l: Layout, ghost start: Spot) returns (r: Result<(), SampleError>)
    requires cursor.offset == start.at
    modifies cursor
    ensures Moves(r, EndOf(Walk(cursor.payload, l, MEMORY, start)), cursor.offset)
  {
    ghost var p, s := cursor.payload, start;
    var _ :- SkipWordIf(cursor, l, PhysAddr, s);
    s := Cross(p, l, PhysAddr, s).value;
    var _ :- SkipAuxIf(cursor, l, s);
    s := Cross(p, l, Aux, s).value;
    var _ :- SkipWordIf(cursor, l, Cgroup, s);
    s := Cross(p, l, Cgroup, s).value;
    var _ :- SkipWordIf(cursor, l, DataPage, s);
    s := Cross(p, l, DataPage, s).value;
    var _ :- SkipWordIf(cursor, l, CodePage, s);
    return Ok(());
  }

  // ----- The whole parsers -------------------------------------------------

  // The fields up to the chain leave no mark for those that follow.
  lemma HeadMarks(p: Data, l: Layout)
    requires Walk(p, l, ORIGIN, START).Some?
    ensures var s := Walk(p, l, ORIGIN, START).value;
            && Cpu !in s.marks && Period !in s.marks
            && (Walk(p, l, SOURCE, s).Some? ==> Callchain !in Walk(p, l, SOURCE, s).value.marks)
  {
    var s := Walk(p, l, ORIGIN, START).value;
    WalkKeepsMark(p, l, ORIGIN, START, Cpu);
    WalkKeepsMark(p, l, ORIGIN, START, Period);
    WalkKeepsMark(p, l, ORIGIN, START, Callchain);
    if Walk(p, l, SOURCE, s).Some? { WalkKeepsMark(p, l, SOURCE, s, Callchain); }
  }

  ghost function HeadSpot(p: Data, l: Layout): Option<Spot> { Walk(p, l, Then(HEAD, CHAIN), START) }

  // The walk up to and over the chain, part by part.
  lemma HeadParts(p: Data, l: Layout)
    ensures HeadSpot(p, l) ==
            match Walk(p, l, ORIGIN, START)
            case None => None
            case Some(s) =>
              match Walk(p, l, SOURCE, s)
              case None => None
              case Some(t) => Cross(p, l, Callchain, t)
  {
    WalkThen(p, l, HEAD, CHAIN, START);
    WalkThen(p, l, ORIGIN, SOURCE, START);
    var head := Walk(p, l, HEAD, START);
    if head.Some? { CrossIsWalk(p, l, Callchain, head.value); }
  }

  lemma CrossIsWalk(p: Data, l: Layout, n: Name, s: Spot)
    ensures Walk(p, l, Field(n, Last), s) == Cross(p, l, n, s)
  {
  }

  method StrictRecord(cursor: SampleCursor, l: Layout) returns (r: Result<SampleRecord, SampleError>)
    requires cursor.offset == 0
    modifies cursor
    ensures Moves(r, EndOf(HeadSpot(cursor.payload, l)), cursor.offset)
    ensures r.Ok? ==> r.value == RecordOf(cursor.payload, HeadSpot(cursor.payload, l).value.marks)
  {
    ghost var p := cursor.payload;
    HeadParts(p, l);
    var event :- StrictOrigin(cursor, l);
    HeadMarks(p, l);
    ghost var origin := Walk(p, l, ORIGIN, START).value;
    var period :- StrictSource(cursor, l, origin);
    ghost var source := Walk(p, l, SOURCE, origin).value;
    var chain :- StrictChain(cursor, l, source);
    return Ok(SampleRecord(event.ip, event.pid, event.tid, period, chain));
  }

  method StrictRest(cursor: SampleCursor, l: Layout, ghost start: Spot) returns (r: Result<(), SampleError>)
    requires cursor.offset == start.at
    modifies cursor
    ensures Moves(r, EndOf(Walk(cursor.payload, l, Then(BODY, TAIL), start)), cursor.offset)
  {
    ghost var p := cursor.payload;
    WalkThen(p, l, BODY, TAIL, start);
    var _ :- StrictBody(cursor, l, start);
    ghost var body := Walk(p, l, BODY, start).value;
    WalkThen(p, l, MACHINE, MEMORY, body);
    var _ :- StrictMachine(cursor, l, body);
    r := StrictMemory(cursor, l, Walk(p, l, MACHINE, body).value);
  }

  lemma StrictParts(p: Data, l: Layout)
    ensures Walk(p, l, Then(HEAD, Then(CHAIN, Then(BODY, TAIL))), START) ==
            match HeadSpot(p, l) case None => None case Some(s) => Walk(p, l, Then(BODY, TAIL), s)
    ensures Walk(p, l, Then(HEAD, Then(CHAIN, BODY)), START) ==
            match HeadSpot(p, l) case None => None case Some(s) => Walk(p, l, BODY, s)
  {
    ThenThen(HEAD, CHAIN, Then(BODY, TAIL));
    ThenThen(HEAD, CHAIN, BODY);
    WalkThen(p, l, Then(HEAD, CHAIN), Then(BODY, TAIL), START);
    WalkThen(p, l, Then(HEAD, CHAIN), BODY, START);
  }

  lemma RestKeeps(p: Data, l: Layout, s: Spot)
    requires Walk(p, l, Then(BODY, TAIL), s).Some?
    ensures RecordOf(p, Walk(p, l, Then(BODY, TAIL), s).value.marks) == RecordOf(p, s.marks)
  {
    RestUnshared();
    KeptFields(p, l, Then(BODY, TAIL), s);
  }

  lemma RestUnshared()
    ensures Unshared(Then(BODY, TAIL))
  {
    TailUnshared();
    UnsharedThen(BODY, TAIL);
  }

  // The strict parser is exact: it accepts what the fields tile, and returns what they hold.
  method ParseSampleRecord(payload: Payload, l: Layout) returns (r: Result<SampleRecord, SampleError>)
    ensures match Strict(payload, l) case Some(sample) => r == Ok(sample) case None => r.Err?
  {
    if l.unknown { return Err(Unsupported); }
    StrictParts(payload, l);
    var cursor := new SampleCursor(payload);
    var sample :- StrictRecord(cursor, l);
    ghost var head := HeadSpot(payload, l).value;
    var _ :- StrictRest(cursor, l, head);
    RestKeeps(payload, l, head);
    var _ :- cursor.Finish();
    return Ok(sample);
  }

  // ----- The metadata and folding parsers ----------------------------------

  method EventOrigin(cursor: SampleCursor, l: Layout) returns (r: Result<Event, SampleError>)
    requires cursor.offset == 0
    modifies cursor
    ensures Moves(r, EndOf(Walk(cursor.payload, l, ORIGIN, START)), cursor.offset)
    ensures r.Ok? ==> r.value == EventOf(cursor.payload, Walk(cursor.payload, l, ORIGIN, START).value.marks)
  {
    ghost var p, s := cursor.payload, START;
    var _ :- SkipWordIf(cursor, l, Identifier, s);
    s := Cross(p, l, Identifier, s).value;
    var ip :- TakeWordIf(cursor, l, Ip, s);
    s := Cross(p, l, Ip, s).value;
    var ids :- TakeHalvesIf(cursor, l, Tid, s);
    s := Cross(p, l, Tid, s).value;
    var time :- TakeWordIf(cursor, l, Time, s);
    s := Cross(p, l, Time, s).value;
    var _ :- SkipWordIf(cursor, l, Addr, s);
    var pid := if ids.Some? then Some(ids.value.0) else None;
    var tid := if ids.Some? then Some(ids.value.1) else None;
    return Ok(Event(ip, pid, tid, time, None, None));
  }

  method EventSource(cursor: SampleCursor, l: Layout, e: Event, ghost start: Spot)
    returns (r: Result<Event, SampleError>)
    requires cursor.offset == start.at && Cpu !in start.marks && Period !in start.marks
    requires e == EventOf(cursor.payload, start.marks)
    modifies cursor
    ensures Moves(r, EndOf(Walk(cursor.payload, l, SOURCE, start)), cursor.offset)
    ensures r.Ok? ==> r.value == EventOf(cursor.payload, Walk(cursor.payload, l, SOURCE, start).value.marks)
  {
    ghost var p, s := cursor.payload, start;
    var _ :- SkipWordIf(cursor, l, Id, s);
    s := Cross(p, l, Id, s).value;
    var _ :- SkipWordIf(cursor, l, StreamId, s);
    s := Cross(p, l, StreamId, s).value;
    var cpu :- TakeHalvesIf(cursor, l, Cpu, s);
    s := Cross(p, l, Cpu, s).value;
    var period :- TakeWordIf(cursor, l, Period, s);
    s := Cross(p, l, Period, s).value;
    var _ :- SkipReadIf(cursor, l, s);
    return Ok(e.(cpu := if cpu.Some? then Some(cpu.value.0) else None, period := period));
  }

  // The chain is one slice of the payload.
  method EventChain(cursor: SampleCursor, l: Layout, e: Event, ghost s: Spot)
    returns (r: Result<(Frames, Option<(nat, nat)>), SampleError>)
    requires cursor.offset == s.at && Callchain !in s.marks && e == EventOf(cursor.payload, s.marks)
    modifies cursor
    ensures Crosses(r, cursor.payload, l, Callchain, s, cursor.offset)
    ensures r.Ok? ==> var m := Cross(cursor.payload, l, Callchain, s).value.marks;
                r.value == (FramesOf(cursor.payload, m), ChainRangeOf(cursor.payload, m))
  {
    if l.Has(Callchain) {
      var start := cursor.offset;
      var count :- cursor.TakeU64();
      var bytes :- cursor.TakeScaled(count, 8);
      return Ok((Frames(bytes, None), Some((start, cursor.offset))));
    }
    return Ok((Frames([], e.ip), None));
  }

  method EventBody(cursor: SampleCursor, l: Layout, ghost start: Spot)
    returns (r: Result<(Option<Registers>, Option<Stack>), SampleError>)
    requires cursor.offset == start.at && UserRegs !in start.marks && UserStack !in start.marks
    modifies cursor
    ensures Moves(r, EndOf(Walk(cursor.payload, l, BODY, start)), cursor.offset)
    ensures r.Ok? ==> r.value == UserState(cursor.payload, l, Walk(cursor.payload, l, BODY, start).value.marks)
  {
    ghost var p, s := cursor.payload, start;
    var _ :- SkipRawIf(cursor, l, s);
    s := Cross(p, l, Raw, s).value;
    var _ :- SkipBranchesIf(cursor, l, s);
    s := Cross(p, l, Branches, s).value;
    var regs :- TakeUserRegsIf(cursor, l, s);
    s := Cross(p, l, UserRegs, s).value;
    var stack :- TakeUserStackIf(cursor, l, s);
    return Ok((regs, stack));
  }

  ghost function UserState(p: Data, l: Layout, m: map<Name, nat>): (Option<Registers>, Option<Stack>) {
    (if UserRegs in m then Some(RegistersAt(p, l.userRegs, m[UserRegs])) else None,
     if UserStack in m then Some(StackAt(p, m[UserStack])) else None)
  }

  method ParseEvent(cursor: SampleCursor, l: Layout)
    returns (r: Result<(Event, Frames, Option<(nat, nat)>), SampleError>)
    requires cursor.offset == 0
    modifies cursor
    ensures Moves(r, EndOf(HeadSpot(cursor.payload, l)), cursor.offset)
    ensures r.Ok? ==> var m := HeadSpot(cursor.payload, l).value.marks;
                r.value == (EventOf(cursor.payload, m), FramesOf(cursor.payload, m), ChainRangeOf(cursor.payload, m))
  {
    ghost var p := cursor.payload;
    HeadParts(p, l);
    var early :- EventOrigin(cursor, l);
    HeadMarks(p, l);
    ghost var origin := Walk(p, l, ORIGIN, START).value;
    var event :- EventSource(cursor, l, early, origin);
    ghost var source := Walk(p, l, SOURCE, origin).value;
    var chain :- EventChain(cursor, l, event, source);
    return Ok((event, chain.0, chain.1));
  }

  lemma HeadLacks(n: Name)
    requires n == UserRegs || n == UserStack
    ensures !Names(Then(HEAD, CHAIN), n)
  {
    NamesThen(HEAD, CHAIN, n);
    NamesThen(ORIGIN, SOURCE, n);
  }

  lemma BodyUnmarked(p: Data, l: Layout)
    requires HeadSpot(p, l).Some?
    ensures UserRegs !in HeadSpot(p, l).value.marks && UserStack !in HeadSpot(p, l).value.marks
  {
    HeadLacks(UserRegs);
    HeadLacks(UserStack);
    WalkKeepsMark(p, l, Then(HEAD, CHAIN), START, UserRegs);
    WalkKeepsMark(p, l, Then(HEAD, CHAIN), START, UserStack);
  }

  method ParseCallchain(cursor: SampleCursor, l: Layout) returns (r: Result<SampleCallchain, SampleError>)
    requires cursor.offset == 0 && !l.unknown
    modifies cursor
    ensures match Metadata(cursor.payload, l) case Some(sample) => r == Ok(sample) case None => r.Err?
  {
    ghost var p := cursor.payload;
    StrictParts(p, l);
    var head :- ParseEvent(cursor, l);
    ghost var spot := HeadSpot(p, l).value;
    BodyUnmarked(p, l);
    var state :- EventBody(cursor, l, spot);
    BodyKeeps(p, l, spot);
    return Ok(SampleCallchain(head.0, head.1, head.2, state.0, state.1));
  }

  lemma BodyKeeps(p: Data, l: Layout, s: Spot)
    requires Walk(p, l, BODY, s).Some?
    ensures var k := Walk(p, l, BODY, s).value.marks;
            EventOf(p, k) == EventOf(p, s.marks) && FramesOf(p, k) == FramesOf(p, s.marks)
            && ChainRangeOf(p, k) == ChainRangeOf(p, s.marks)
  {
    KeptFields(p, l, BODY, s);
  }

  // Without a chain the folding parser keeps only the event, if that has an address.
  method ParseSampleCallchain(payload: Payload, l: Layout, retainMetadata: bool)
    returns (r: Result<Option<SampleCallchain>, SampleError>)
    ensures retainMetadata ==> match Metadata(payload, l) case Some(sample) => r == Ok(Some(sample)) case None => r.Err?
    ensures !retainMetadata ==> match Folding(payload, l) case Some(sample) => r == Ok(sample) case None => r.Err?
  {
    if l.unknown { return Err(Unsupported); }
    var cursor := new SampleCursor(payload);
    var sample :- ParseCallchain(cursor, l);
    if !l.Has(Callchain) && !retainMetadata {
      PlainFrames(payload, l);
      if sample.event.ip.None? { return Ok(None); }
      return Ok(Some(SampleCallchain(sample.event, Frames([], sample.event.ip), None, None, None)));
    }
    return Ok(Some(sample));
  }

  lemma PlainFrames(p: Data, l: Layout)
    requires Metadata(p, l).Some? && !l.Has(Callchain)
    ensures Metadata(p, l).value.frames == Frames([], Metadata(p, l).value.event.ip)
            && Metadata(p, l).value.chainRange == None
  {
    WalkMarks(p, l, Then(HEAD, Then(CHAIN, BODY)), START, Callchain);
  }

  // From the recorded flag words: a sample that the strict parser accepts is read alike by the
  // metadata parser.
  method ParseRecordedSample(payload: Payload, sampleType: bv64, readFormat: bv64, branchType: bv64, userRegs: u64,
                             intrRegs: u64)
    returns (strict: Result<SampleRecord, SampleError>, metadata: Result<Option<SampleCallchain>, SampleError>)
    ensures var l := Decode(sampleType, readFormat, branchType, userRegs, intrRegs);
            && (strict.Ok? <==> Strict(payload, l).Some?)
            && (strict.Ok? ==>
                  metadata.Ok? && metadata.value.Some? && SameSample(l, strict.value, metadata.value.value))
  {
    var l := Decode(sampleType, readFormat, branchType, userRegs, intrRegs);
    strict := ParseSampleRecord(payload, l);
    metadata := ParseSampleCallchain(payload, l, true);
    if strict.Ok? { StrictAgrees(payload, l); }
  }

  // ----- The frame iterator ------------------------------------------------

  class FrameIterator {
    var payload: Data
    var singleIp: Option<u64>

    ghost function Left(): seq<u64> reads this { FrameList(Frames(payload, singleIp)) }

    constructor (frames: Frames)
      ensures Left() == FrameList(frames)
    {
      this.payload, this.singleIp := frames.payload, frames.singleIp;
    }

    method Next() returns (r: Option<u64>)
      modifies this
      ensures old(Left()) == [] ==> r == None && Left() == []
      ensures old(Left()) != [] ==> r == Some(old(Left())[0]) && Left() == old(Left())[1..]
    {
      if singleIp.Some? {
        r, singleIp := singleIp, None;
        return;
      }
      if |payload| < 8 { return None; }
      FirstWord(payload);
      r, payload := Some(U64At(payload, 0)), payload[8..];
    }

    method Len() returns (n: nat)
      ensures n == |Left()|
    {
      return |payload| / 8 + if singleIp.Some? then 1 else 0;
    }
  }

  lemma FirstWord(p: Data)
    requires |p| >= 8
    ensures Words(p, 0, |p| / 8) == [U64At(p, 0)] + Words(p[8..], 0, |p[8..]| / 8)
  {
    var rest, n := p[8..], |p| / 8;
    assert |rest| / 8 == n - 1 && p[8..|p|] == rest;
    forall i | 0 <= i < n - 1 ensures U64At(rest, 8 * i) == U64At(p, 8 * (i + 1)) {
      Subslice(p, 8, |p|, 8 * i, 8 * i + 8);
    }
  }
}
