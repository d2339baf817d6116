// Many mapped objects under a bounded queue of open descriptors. Evictions must not be visible.
module DsoSources {
  import opened Basics
  import opened Bytes
  import opened DsoMemories

  // ----- The file system ---------------------------------------------------

  // What one attempt to open an existing file meets: room for this many descriptors of ours,
  // or a fault that has nothing to do with descriptors.
  datatype Condition = Room(descriptors: nat) | Fault

  datatype Outcome = Opened | TooMany | Refused

  type Contents = map<string, Data>

  // A finished script stands for an undisturbed system.
  function Attempt(script: seq<Condition>, owned: nat): Outcome {
    if script == [] then Opened
    else
      match script[0]
      case Room(n) => if owned < n then Opened else TooMany
      case Fault => Refused
  }

  function Later(script: seq<Condition>): seq<Condition> { if script == [] then [] else script[1..] }

  // There is always room for one descriptor, and nothing else goes wrong.
  predicate Ample(script: seq<Condition>) {
    script == [] || (script[0].Room? && script[0].descriptors > 0 && Ample(script[1..]))
  }

  // Unchanging contents, and an arbitrary script of conditions for the opens of existing files.
  class Disk {
    const contents: Contents
    var script: seq<Condition>

    constructor (contents: Contents, script: seq<Condition>)
      ensures this.contents == contents && this.script == script
    {
      this.contents, this.script := contents, script;
    }

    ghost predicate Valid() {
      forall path {:trigger contents[path]} :: path in contents ==> |contents[path]| < TWO_64
    }

    method Open(path: string, owned: nat) returns (outcome: Outcome)
      modifies this`script
      ensures outcome == (if path in contents then Attempt(old(script), owned) else Refused)
      ensures script == if path in contents then Later(old(script)) else old(script)
    {
      if path !in contents { return Refused; }
      outcome, script := Attempt(script, owned), Later(script);
    }
  }

  // ----- Opening with eviction ---------------------------------------------

  // How an open ended, how many descriptors are still owned, and the script that is left.
  datatype Opening = Opening(found: bool, owned: nat, script: seq<Condition>)

  // Each attempt that finds too many descriptors costs the oldest one, while there is one.
  function Tried(present: bool, script: seq<Condition>, owned: nat): Opening
    decreases owned
  {
    if !present then Opening(false, owned, script)
    else
      match Attempt(script, owned)
      case Opened => Opening(true, owned, Later(script))
      case Refused => Opening(false, owned, Later(script))
      case TooMany =>
        if owned == 0 then Opening(false, 0, Later(script)) else Tried(true, Later(script), owned - 1)
  }

  // What attempt number n meets after n descriptors have been given up.
  function AttemptAfter(script: seq<Condition>, owned: nat, n: nat): Outcome
    requires n <= owned
  {
    Attempt(if n < |script| then script[n..] else [], owned - n)
  }

  ghost predicate BlockedFor(script: seq<Condition>, owned: nat, n: nat) {
    n <= owned && forall i {:trigger AttemptAfter(script, owned, i)} ::
      0 <= i < n ==> AttemptAfter(script, owned, i) == TooMany
  }

  // Attempt n is the first that finds room.
  ghost predicate FirstRoom(script: seq<Condition>, owned: nat, n: nat) {
    BlockedFor(script, owned, n) && AttemptAfter(script, owned, n) == Opened
  }

  // As many descriptors are given up as attempts found too many while one was left; the open
  // gives up only on a fault or with nothing left to evict.
  lemma {:induction false} TriedExactly(script: seq<Condition>, owned: nat)
    ensures var t := Tried(true, script, owned);
            && t.owned <= owned && BlockedFor(script, owned, owned - t.owned)
            && t.found == (AttemptAfter(script, owned, owned - t.owned) == Opened)
            && (!t.found ==> t.owned == 0 || AttemptAfter(script, owned, owned - t.owned) == Refused)
    decreases owned
  {
    if Attempt(script, owned) == TooMany && owned > 0 {
      var later := Later(script);
      TriedExactly(later, owned - 1);
      var n := owned - Tried(true, later, owned - 1).owned;
      forall i | 0 < i <= n ensures AttemptAfter(script, owned, i) == AttemptAfter(later, owned - 1, i - 1) {
        AttemptLater(script, owned, i);
      }
      assert script != [] && script[0..] == script;
    } else if script != [] {
      assert script[0..] == script;
    }
  }

  lemma AttemptLater(script: seq<Condition>, owned: nat, i: nat)
    requires 0 < i <= owned
    ensures AttemptAfter(script, owned, i) == AttemptAfter(Later(script), owned - 1, i - 1)
  {
    if i < |script| { assert script[1..][i - 1..] == script[i..]; }
  }

  // An existing file is opened exactly when some attempt finds room before the descriptors
  // run out.
  lemma FoundExactly(script: seq<Condition>, owned: nat)
    ensures Tried(true, script, owned).found <==> exists n {:trigger FirstRoom(script, owned, n)} ::
              FirstRoom(script, owned, n)
  {
    TriedExactly(script, owned);
    var t := Tried(true, script, owned);
    if t.found { assert FirstRoom(script, owned, owned - t.owned); }
    forall n: nat | FirstRoom(script, owned, n) ensures t.found {
      var here, there := AttemptAfter(script, owned, n), AttemptAfter(script, owned, owned - t.owned);
      assert here == Opened;
    }
  }

  lemma OpenOutcome(script: seq<Condition>, owned: nat)
    ensures var t := Tried(true, script, owned);
            && t.owned <= owned && (t.found <==> FindsRoom(script, owned))
            && (!t.found ==> t.owned == 0 || AttemptAfter(script, owned, owned - t.owned) == Refused)
  {
    TriedExactly(script, owned);
    FoundExactly(script, owned);
  }

  lemma {:induction false} AmpleOpens(script: seq<Condition>, owned: nat)
    requires Ample(script)
    ensures Tried(true, script, owned).found && Ample(Tried(true, script, owned).script)
    decreases owned
  {
    if Attempt(script, owned) == TooMany { AmpleOpens(Later(script), owned - 1); }
  }

  // The file a source is bound to, if any could be opened.
  datatype Selection = Selection(path: Option<string>, owned: nat, script: seq<Condition>)

  // The build-id cache is tried before the recorded path.
  function Select(contents: Contents, cached: Option<string>, recorded: string, script: seq<Condition>,
                  owned: nat): Selection {
    var first := if cached.Some? then Tried(cached.value in contents, script, owned) else Opening(false, owned, script);
    if first.found then Selection(cached, first.owned, first.script)
    else
      var second := Tried(recorded in contents, first.script, first.owned);
      Selection(if second.found then Some(recorded) else None, second.owned, second.script)
  }

  // What is chosen when every open of an existing file succeeds.
  function Choice(contents: Contents, cached: Option<string>, recorded: string): Option<string> {
    if cached.Some? && cached.value in contents then cached
    else if recorded in contents then Some(recorded)
    else None
  }

  lemma AmpleSelects(contents: Contents, cached: Option<string>, recorded: string, script: seq<Condition>, owned: nat)
    requires Ample(script)
    ensures var s := Select(contents, cached, recorded, script, owned);
            s.path == Choice(contents, cached, recorded) && Ample(s.script)
  {
    AmpleOpens(script, owned);
    var first := if cached.Some? then Tried(cached.value in contents, script, owned) else Opening(false, owned, script);
    AmpleOpens(first.script, first.owned);
  }

  // ----- Sources and the queue ---------------------------------------------

  type Sources = map<nat, Option<DsoMemory>>

  function PathOf(source: Option<DsoMemory>): Option<string> {
    match source case None => None case Some(s) => Some(s.path)
  }

  predicate HasFailed(source: Option<DsoMemory>) { source.Some? && source.value.failed }

  // The path every source was bound to when it was first opened; none if no open succeeded.
  function BoundIn(sources: Sources): map<nat, Option<string>> {
    map id | id in sources :: PathOf(sources[id])
  }

  function FailedIn(sources: Sources): set<nat> { set id | id in sources && HasFailed(sources[id]) }

  predicate Owned(sources: Sources, id: nat) {
    id in sources && sources[id].Some? && sources[id].value.file.Some?
  }

  // An open file is the one the source is bound to, at its length, and the source works.
  ghost predicate SourceOk(source: DsoMemory, contents: Contents) {
    && source.path in contents
    && BlocksOf(source.blocks, contents[source.path])
    && (source.file.Some? ==>
          source.file.value == source.path && source.len == |contents[source.path]| && !source.failed)
  }

  ghost predicate SourceFits(sources: Sources, contents: Contents, id: nat) {
    id in sources && sources[id].Some? ==> SourceOk(sources[id].value, contents)
  }

  ghost predicate QueueHolds(sources: Sources, order: seq<nat>, id: nat) {
    Owned(sources, id) <==> id in order
  }

  predicate Once(order: seq<nat>) { order == [] || (order[0] !in order[1..] && Once(order[1..])) }

  // Every source fits its file, and the queue holds each owned source exactly once.
  ghost predicate Good(sources: Sources, order: seq<nat>, contents: Contents) {
    && (forall id {:trigger SourceFits(sources, contents, id)} :: SourceFits(sources, contents, id))
    && (forall id {:trigger QueueHolds(sources, order, id)} :: QueueHolds(sources, order, id))
    && Once(order)
  }

  function Evict(sources: Sources, id: nat): Sources {
    if Owned(sources, id) then sources[id := Some(sources[id].value.(file := None, len := 0))] else sources
  }

  function EvictAll(sources: Sources, ids: seq<nat>): Sources {
    if ids == [] then sources else Evict(EvictAll(sources, ids[..|ids| - 1]), ids[|ids| - 1])
  }

  lemma {:induction false} EvictTwice(sources: Sources, a: seq<nat>, b: seq<nat>)
    ensures EvictAll(EvictAll(sources, a), b) == EvictAll(sources, a + b)
  {
    if b == [] {
      assert a + b == a;
    } else {
      assert (a + b)[..|a + b| - 1] == a + b[..|b| - 1];
      EvictTwice(sources, a, b[..|b| - 1]);
    }
  }

  // An eviction changes neither what a source is bound to nor whether it has failed.
  lemma EvictHidden(sources: Sources, id: nat)
    ensures BoundIn(Evict(sources, id)) == BoundIn(sources) && FailedIn(Evict(sources, id)) == FailedIn(sources)
  {
  }

  lemma {:induction false} EvictAllHidden(sources: Sources, ids: seq<nat>)
    ensures BoundIn(EvictAll(sources, ids)) == BoundIn(sources) && FailedIn(EvictAll(sources, ids)) == FailedIn(sources)
  {
    if ids != [] {
      EvictAllHidden(sources, ids[..|ids| - 1]);
      EvictHidden(EvictAll(sources, ids[..|ids| - 1]), ids[|ids| - 1]);
    }
  }

  // Nor does it take anything but open descriptors.
  lemma {:induction false} EvictAllAt(sources: Sources, ids: seq<nat>, id: nat)
    ensures (id in EvictAll(sources, ids) <==> id in sources)
    ensures !Owned(sources, id) ==> (id in sources ==> EvictAll(sources, ids)[id] == sources[id])
  {
    if ids != [] { EvictAllAt(sources, ids[..|ids| - 1], id); }
  }

  lemma Bind(sources: Sources, id: nat, source: Option<DsoMemory>)
    ensures BoundIn(sources[id := source]) == BoundIn(sources)[id := PathOf(source)]
    ensures FailedIn(sources[id := source]) ==
              if HasFailed(source) then FailedIn(sources) + {id} else FailedIn(sources) - {id}
  {
  }

  // Opening a source again changes nothing about what it is bound to.
  lemma Rebind(sources: Sources, id: nat)
    requires id in sources && !HasFailed(sources[id])
    ensures BoundIn(sources)[id := PathOf(sources[id])] == BoundIn(sources)
            && FailedIn(sources) - {id} == FailedIn(sources)
  {
  }

  lemma FirstSight(sources: Sources, id: nat)
    requires id !in sources
    ensures FailedIn(sources) - {id} == FailedIn(sources)
  {
  }

  lemma EvictOldest(sources: Sources, order: seq<nat>, contents: Contents)
    requires Good(sources, order, contents) && order != []
    ensures Owned(sources, order[0]) && Good(Evict(sources, order[0]), order[1..], contents)
  {
    assert QueueHolds(sources, order, order[0]);
    var after := Evict(sources, order[0]);
    forall id ensures SourceFits(after, contents, id) { assert SourceFits(sources, contents, id); }
    forall id ensures QueueHolds(after, order[1..], id) {
      assert QueueHolds(sources, order, id);
      assert id in order <==> id == order[0] || id in order[1..];
    }
  }

  lemma {:induction false} OnceAppend(order: seq<nat>, id: nat)
    requires Once(order) && id !in order
    ensures Once(order + [id])
  {
    if order != [] {
      assert (order + [id])[1..] == order[1..] + [id];
      OnceAppend(order[1..], id);
    }
  }

  // A source just opened takes its place at the back of the queue.
  lemma Enqueued(sources: Sources, order: seq<nat>, id: nat, source: DsoMemory, contents: Contents)
    requires Good(sources, order, contents) && !Owned(sources, id)
    requires SourceOk(source, contents) && source.file.Some?
    ensures Good(sources[id := Some(source)], order + [id], contents)
  {
    assert QueueHolds(sources, order, id);
    OnceAppend(order, id);
    var after := sources[id := Some(source)];
    forall other ensures SourceFits(after, contents, other) { assert SourceFits(sources, contents, other); }
    forall other ensures QueueHolds(after, order + [id], other) { assert QueueHolds(sources, order, other); }
  }

  // A source without a descriptor, or with the one it had, leaves the queue alone.
  lemma Replaced(sources: Sources, order: seq<nat>, id: nat, source: Option<DsoMemory>, contents: Contents)
    requires Good(sources, order, contents) && (source.Some? ==> SourceOk(source.value, contents))
    requires Owned(sources, id) <==> source.Some? && source.value.file.Some?
    ensures Good(sources[id := source], order, contents)
  {
    var after := sources[id := source];
    forall other ensures SourceFits(after, contents, other) { assert SourceFits(sources, contents, other); }
    forall other ensures QueueHolds(after, order, other) { assert QueueHolds(sources, order, other); }
  }

  datatype DsoMapping = DsoMapping(sourceId: nat, path: string, relative: u64, buildId: Option<seq<u8>>)

  // Where the build-id cache would hold the object, if a directory and a real id are known.
  function CachedPath(debugDir: Option<string>, m: DsoMapping,
                      cacheName: (string, string, seq<u8>) -> string): Option<string> {
    if debugDir.Some? && m.buildId.Some? && exists i :: 0 <= i < |m.buildId.value| && m.buildId.value[i] != 0 then
      Some(cacheName(debugDir.value, m.path, m.buildId.value))
    else None
  }

  // The word of the file itself.
  function DirectRead(contents: Contents, path: Option<string>, offset: u64): Option<u64> {
    if path.Some? && path.value in contents then Bytes.ReadU64(contents[path.value], offset) else None
  }

  // The same, byte by byte.
  predicate ReadsWord(contents: Contents, path: Option<string>, offset: u64, word: Option<u64>) {
    if path.Some? && path.value in contents then WordIs(contents[path.value], offset, word) else word == None
  }

  lemma DirectReads(contents: Contents, path: Option<string>, offset: u64)
    ensures ReadsWord(contents, path, offset, DirectRead(contents, path, offset))
  {
    if path.Some? && path.value in contents { ReadU64Is(contents[path.value], offset); }
  }

  function Answer(sources: Sources, contents: Contents, id: nat, offset: u64): Option<u64> {
    if id in FailedIn(sources) || id !in BoundIn(sources) then None
    else DirectRead(contents, BoundIn(sources)[id], offset)
  }

  // The oldest entries have lost their descriptors, and the source, if it is owned now, has
  // joined the back; nothing else has changed.
  ghost predicate Requeued(before: Sources, queue: seq<nat>, after: Sources, order: seq<nat>, id: nat) {
    && var back := if Owned(after, id) then [id] else [];
    && |back| <= |order| <= |queue| + |back|
    && var gone := |queue| + |back| - |order|;
    && order == queue[gone..] + back
    && id in after && after == EvictAll(before, queue[..gone])[id := after[id]]
  }

  class DsoMemorySources {
    var sources: Sources
    var openOrder: seq<nat>
    var fdLimit: Option<nat>
    const nativeLimit: nat

    constructor (nativeLimit: nat)
      ensures sources == map[] && openOrder == [] && fdLimit == None && this.nativeLimit == nativeLimit
    {
      this.nativeLimit := nativeLimit;
      sources, openOrder, fdLimit := map[], [], None;
    }

    ghost predicate Valid(disk: Disk)
      reads this
    {
      && disk.Valid()
      && Good(sources, openOrder, disk.contents)
      && (fdLimit.Some? ==> fdLimit.value == nativeLimit)
      && |openOrder| <= Max(1, nativeLimit - 1)
    }

    // Drops the oldest descriptor, unless its source has none yet.
    method CloseOldest() returns (closed: bool)
      modifies this`sources, this`openOrder
      ensures closed <==> old(openOrder) != [] && Owned(old(sources), old(openOrder)[0])
      ensures closed ==> openOrder == old(openOrder)[1..] && sources == Evict(old(sources), old(openOrder)[0])
      ensures !closed ==> openOrder == old(openOrder) && sources == old(sources)
    {
      if openOrder == [] { return false; }
      var id := openOrder[0];
      if id !in sources || sources[id].None? || sources[id].value.file.None? { return false; }
      sources := sources[id := Some(sources[id].value.(file := None, len := 0))];
      openOrder := openOrder[1..];
      closed := true;
    }

    // Retries while descriptors run out and an owned one can be closed. The open succeeds
    // exactly when some attempt finds room before nothing is left to close.
    method OpenWithEviction(disk: Disk, path: string) returns (found: bool)
      requires Good(sources, openOrder, disk.contents)
      modifies this`sources, this`openOrder, disk`script
      ensures Good(sources, openOrder, disk.contents)
      ensures Opening(found, |openOrder|, disk.script) ==
                Tried(path in disk.contents, old(disk.script), |old(openOrder)|)
      ensures Shortened(old(sources), old(openOrder), sources, openOrder)
      ensures found <==> path in disk.contents && FindsRoom(old(disk.script), |old(openOrder)|)
      ensures !found && path in disk.contents ==>
                openOrder == [] || AttemptAfter(old(disk.script), |old(openOrder)|,
                                                |old(openOrder)| - |openOrder|) == Refused
    {
      ghost var before, queue, script := sources, openOrder, disk.script;
      OpenOutcome(script, |queue|);
      while true
        invariant Good(sources, openOrder, disk.contents) && Shortened(before, queue, sources, openOrder)
        invariant Tried(path in disk.contents, script, |queue|) ==
                    Tried(path in disk.contents, disk.script, |openOrder|)
        decreases |openOrder|
      {
        var outcome := disk.Open(path, |openOrder|);
        if outcome == Opened { return true; }
        if outcome == Refused { return false; }
        if openOrder != [] {
          EvictOldest(sources, openOrder, disk.contents);
          ShortenedMore(before, queue, sources, openOrder);
        }
        var closed := CloseOldest();
        if !closed { return false; }
      }
    }

    // A new descriptor joins the back; at the limit the oldest one makes room.
    method RegisterOpen(ghost contents: Contents, id: nat)
      requires Good(sources, openOrder, contents) && !Owned(sources, id)
      requires fdLimit.Some? ==> fdLimit.value == nativeLimit
      modifies this`sources, this`openOrder, this`fdLimit
      ensures fdLimit == Some(nativeLimit)
      ensures var full := |old(openOrder)| + 1 >= nativeLimit && old(openOrder) != [];
              && openOrder == (if full then old(openOrder)[1..] else old(openOrder)) + [id]
              && sources == if full then Evict(old(sources), old(openOrder)[0]) else old(sources)
    {
      ghost var queue := openOrder;
      if queue != [] { EvictOldest(sources, queue, contents); }
      openOrder := openOrder + [id];
      if fdLimit.None? { fdLimit := Some(nativeLimit); }
      if |openOrder| >= fdLimit.value {
        assert queue != [] ==> openOrder[0] == queue[0] && openOrder[1..] == queue[1..] + [id];
        var closed := CloseOldest();
      }
    }

    // The build-id cache is tried before the recorded path.
    method SelectPath(disk: Disk, m: DsoMapping, cached: Option<string>) returns (selected: Option<string>)
      requires Good(sources, openOrder, disk.contents)
      modifies this`sources, this`openOrder, disk`script
      ensures Good(sources, openOrder, disk.contents)
      ensures Shortened(old(sources), old(openOrder), sources, openOrder)
      ensures Selection(selected, |openOrder|, disk.script) ==
                Select(disk.contents, cached, m.path, old(disk.script), |old(openOrder)|)
    {
      ghost var before, queue := sources, openOrder;
      if cached.Some? {
        var found := OpenWithEviction(disk, cached.value);
        if found { return cached; }
      }
      ghost var between, rest := sources, openOrder;
      var found := OpenWithEviction(disk, m.path);
      if cached.Some? { ShortenedTwice(before, queue, between, rest, sources, openOrder); }
      selected := if found then Some(m.path) else None;
    }

    // Puts an opened source at the back of the queue, after what its opening has evicted.
    method Enqueue(disk: Disk, id: nat, source: DsoMemory, ghost before: Sources, ghost queue: seq<nat>)
      requires Good(sources, openOrder, disk.contents) && !Owned(before, id) && disk.Valid()
      requires Shortened(before, queue, sources, openOrder) && |queue| <= Max(1, nativeLimit - 1)
      requires fdLimit.Some? ==> fdLimit.value == nativeLimit
      requires SourceOk(source, disk.contents) && source.file.Some?
      modifies this`sources, this`openOrder, this`fdLimit
      ensures Valid(disk) && Owned(sources, id) && sources[id] == Some(source)
      ensures Requeued(before, queue, sources, openOrder, id)
      ensures BoundIn(sources) == BoundIn(before)[id := Some(source.path)]
              && FailedIn(sources) == FailedIn(before) - {id}
    {
      ghost var evicted, rest := sources, openOrder;
      NotOwnedStill(before, queue, evicted, rest, id);
      RegisterOpen(disk.contents, id);
      if |rest| + 1 >= nativeLimit && rest != [] {
        EvictOldest(evicted, rest, disk.contents);
        ShortenedMore(before, queue, evicted, rest);
        rest := rest[1..];
      }
      NotOwnedStill(before, queue, sources, rest, id);
      Requeuing(before, queue, sources, rest, id, source);
      Enqueued(sources, rest, id, source, disk.contents);
      sources := sources[id := Some(source)];
    }

    // Remembers that a source could not be opened.
    method Enter(disk: Disk, id: nat, source: Option<DsoMemory>, ghost before: Sources, ghost queue: seq<nat>)
      requires Good(sources, openOrder, disk.contents) && !Owned(before, id) && disk.Valid()
      requires Shortened(before, queue, sources, openOrder) && |queue| <= Max(1, nativeLimit - 1)
      requires fdLimit.Some? ==> fdLimit.value == nativeLimit
      requires source.Some? ==> SourceOk(source.value, disk.contents) && source.value.file.None?
      modifies this`sources
      ensures Valid(disk) && !Owned(sources, id) && id in sources && sources[id] == source
      ensures Requeued(before, queue, sources, openOrder, id)
      ensures BoundIn(sources) == BoundIn(before)[id := PathOf(source)]
      ensures FailedIn(sources) == if HasFailed(source) then FailedIn(before) + {id} else FailedIn(before) - {id}
    {
      EvictAllAt(before, queue[..|queue| - |openOrder|], id);
      EvictAllHidden(before, queue[..|queue| - |openOrder|]);
      Bind(sources, id, source);
      Replaced(sources, openOrder, id, source, disk.contents);
      sources := sources[id := source];
    }

    method OpenFirst(disk: Disk, m: DsoMapping, cached: Option<string>)
      requires Valid(disk) && m.sourceId !in sources
      modifies this, disk`script
      ensures Valid(disk)
      ensures var s := Select(disk.contents, cached, m.path, old(disk.script), |old(openOrder)|);
              && disk.script == s.script
              && BoundIn(sources) == BoundIn(old(sources))[m.sourceId := s.path]
                 && FailedIn(sources) == FailedIn(old(sources)) - {m.sourceId}
              && m.sourceId in sources && sources[m.sourceId].Some? == Owned(sources, m.sourceId) == s.path.Some?
      ensures Requeued(old(sources), old(openOrder), sources, openOrder, m.sourceId)
    {
      ghost var before, queue := sources, openOrder;
      SelectExists(disk.contents, cached, m.path, disk.script, |queue|);
      var selected := SelectPath(disk, m, cached);
      if selected.None? {
        Enter(disk, m.sourceId, None, before, queue);
      } else {
        var path := selected.value;
        Enqueue(disk, m.sourceId, DsoMemory(Some(path), path, |disk.contents[path]|, false, map[]), before, queue);
      }
    }

    // An evicted source opens its selected path again, or fails for good.
    method Reopen(disk: Disk, id: nat) returns (found: bool)
      requires Valid(disk) && id in sources && sources[id].Some? && !sources[id].value.failed && !Owned(sources, id)
      modifies this, disk`script
      ensures Valid(disk)
      ensures var t := Tried(true, old(disk.script), |old(openOrder)|);
              && found == t.found && disk.script == t.script
              && FailedIn(sources) == if t.found then FailedIn(old(sources)) else FailedIn(old(sources)) + {id}
      ensures BoundIn(sources) == BoundIn(old(sources)) && Owned(sources, id) == found
      ensures sources[id].Some? && sources[id].value.blocks == old(sources)[id].value.blocks
      ensures Requeued(old(sources), old(openOrder), sources, openOrder, id)
    {
      ghost var before, queue := sources, openOrder;
      var source := sources[id].value;
      assert SourceFits(sources, disk.contents, id);
      Rebind(before, id);
      found := OpenWithEviction(disk, source.path);
      if found {
        Enqueue(disk, id, source.(file := Some(source.path), len := |disk.contents[source.path]|), before, queue);
      } else {
        Enter(disk, id, Some(source.(failed := true)), before, queue);
      }
    }

    // Opens a source on first use and reopens it after an eviction; a failure is final.
    method EnsureOpen(disk: Disk, m: DsoMapping, cached: Option<string>) returns (ready: bool)
      requires Valid(disk)
      modifies this, disk`script
      ensures Valid(disk) && ready == Owned(sources, m.sourceId)
      ensures Ensured(old(sources), old(openOrder), old(disk.script), sources, disk.script, disk.contents, m, cached)
      ensures !ready ==> Answer(sources, disk.contents, m.sourceId, m.relative) == None
      ensures if Touches(old(sources), m.sourceId) then
                Requeued(old(sources), old(openOrder), sources, openOrder, m.sourceId)
              else openOrder == old(openOrder) && sources == old(sources)
    {
      var id := m.sourceId;
      if id !in sources {
        FirstSight(sources, id);
        OpenFirst(disk, m, cached);
        ready := sources[id].Some?;
      } else if sources[id].None? || sources[id].value.failed {
        ready := false;
        assert SourceFits(sources, disk.contents, id);
      } else if sources[id].value.file.None? {
        ready := Reopen(disk, id);
      } else {
        ready := true;
      }
    }

    method ReadOwned(disk: Disk, id: nat, offset: u64) returns (r: Option<u64>)
      requires Valid(disk) && Owned(sources, id)
      modifies this`sources
      ensures Valid(disk) && Owned(sources, id)
      ensures BoundIn(sources) == BoundIn(old(sources)) && FailedIn(sources) == FailedIn(old(sources))
      ensures sources == old(sources)[id := Some(old(sources)[id].value.(blocks := sources[id].value.blocks))]
      ensures r == Answer(sources, disk.contents, id, offset)
    {
      var source := sources[id].value;
      assert SourceFits(sources, disk.contents, id);
      var after;
      r, after := ReadWord(source, disk.contents[source.path], offset);
      Bind(sources, id, Some(after));
      Replaced(sources, openOrder, id, Some(after), disk.contents);
      sources := sources[id := Some(after)];
    }

    // Whatever was evicted or cached in between, a source that has not failed yields the word
    // of the file it is bound to. Reading never moves a descriptor in the queue.
    method ReadU64(disk: Disk, m: DsoMapping, cached: Option<string>) returns (r: Option<u64>)
      requires Valid(disk)
      modifies this, disk`script
      ensures Valid(disk)
      ensures r == Answer(sources, disk.contents, m.sourceId, m.relative)
      ensures m.sourceId in sources && Direct(r, BoundIn(sources), FailedIn(sources), disk.contents, m)
      ensures Ensured(old(sources), old(openOrder), old(disk.script), sources, disk.script, disk.contents, m, cached)
      ensures !Touches(old(sources), m.sourceId) ==> openOrder == old(openOrder)
    {
      var ready := EnsureOpen(disk, m, cached);
      if ready { r := ReadOwned(disk, m.sourceId, m.relative); } else { r := None; }
      AnswerReads(sources, disk.contents, m);
    }

    // Any interleaving of reads across any number of objects, under any descriptor limit: if
    // there is always room for one descriptor and no fault, every read is the word of the file
    // that its source was bound to at first sight, and no source fails.
    method ReadAll(disk: Disk, requests: seq<(DsoMapping, Option<string>)>) returns (words: seq<Option<u64>>)
      requires Valid(disk)
      modifies this, disk`script
      ensures Valid(disk) && |words| == |requests|
      ensures Ample(old(disk.script)) ==>
                && FailedIn(sources) == FailedIn(old(sources))
                && BoundIn(sources) == BoundAfter(BoundIn(old(sources)), disk.contents, requests)
                && AllDirect(words, BoundIn(sources), FailedIn(sources), disk.contents, requests)
    {
      words := [];
      ghost var bound, failed, ample := BoundIn(sources), FailedIn(sources), Ample(disk.script);
      for n := 0 to |requests|
        invariant Valid(disk) && |words| == n
        invariant ample ==> Ample(disk.script) && FailedIn(sources) == failed
        invariant ample ==> BoundIn(sources) == BoundAfter(bound, disk.contents, requests[..n])
        invariant ample ==> AllDirect(words, BoundIn(sources), failed, disk.contents, requests[..n])
      {
        ghost var was, script, queue := sources, disk.script, openOrder;
        var m, cached := requests[n].0, requests[n].1;
        var word := ReadU64(disk, m, cached);
        assert requests[..n + 1] == requests[..n] + [requests[n]];
        if ample {
          AmpleEnsures(was, queue, script, sources, disk.script, disk.contents, m, cached);
          BoundMore(bound, disk.contents, requests[..n], requests[n]);
          DirectMore(words, BoundIn(was), failed, disk.contents, requests[..n], requests[n], BoundIn(sources), word);
        }
        words := words + [word];
      }
      assert requests[..|requests|] == requests;
    }
  }

  // A source is opened on first sight, and again when an eviction took its descriptor.
  predicate Touches(sources: Sources, id: nat) {
    id !in sources || (sources[id].Some? && !sources[id].value.failed && !Owned(sources, id))
  }

  // What ensuring that a source is open does to bindings, failures and the script.
  ghost predicate Ensured(before: Sources, queue: seq<nat>, script: seq<Condition>, after: Sources,
                          left: seq<Condition>, contents: Contents, m: DsoMapping, cached: Option<string>) {
    var id := m.sourceId;
    if id !in before then
      var s := Select(contents, cached, m.path, script, |queue|);
      left == s.script && BoundIn(after) == BoundIn(before)[id := s.path] && FailedIn(after) == FailedIn(before)
    else
      && BoundIn(after) == BoundIn(before)
      && if Touches(before, id) then
           var t := Tried(true, script, |queue|);
           left == t.script && FailedIn(after) == if t.found then FailedIn(before) else FailedIn(before) + {id}
         else left == script && FailedIn(after) == FailedIn(before)
  }

  lemma AmpleEnsures(before: Sources, queue: seq<nat>, script: seq<Condition>, after: Sources, left: seq<Condition>,
                     contents: Contents, m: DsoMapping, cached: Option<string>)
    requires Ensured(before, queue, script, after, left, contents, m, cached) && Ample(script)
    ensures Ample(left) && FailedIn(after) == FailedIn(before)
    ensures BoundIn(after) == BoundWith(BoundIn(before), contents, m, cached)
  {
    AmpleSelects(contents, cached, m.path, script, |queue|);
    AmpleOpens(script, |queue|);
  }

  // A source is bound when it is first seen, and never again.
  function BoundWith(bound: map<nat, Option<string>>, contents: Contents, m: DsoMapping,
                     cached: Option<string>): map<nat, Option<string>> {
    if m.sourceId in bound then bound else bound[m.sourceId := Choice(contents, cached, m.path)]
  }

  function BoundAfter(bound: map<nat, Option<string>>, contents: Contents,
                      requests: seq<(DsoMapping, Option<string>)>): map<nat, Option<string>> {
    if requests == [] then bound
    else
      var last := requests[|requests| - 1];
      BoundWith(BoundAfter(bound, contents, requests[..|requests| - 1]), contents, last.0, last.1)
  }

  lemma BoundMore(bound: map<nat, Option<string>>, contents: Contents, requests: seq<(DsoMapping, Option<string>)>,
                  r: (DsoMapping, Option<string>))
    ensures BoundAfter(bound, contents, requests + [r]) ==
              BoundWith(BoundAfter(bound, contents, requests), contents, r.0, r.1)
  {
    assert (requests + [r])[..|requests|] == requests;
  }

  ghost predicate Direct(word: Option<u64>, bound: map<nat, Option<string>>, failed: set<nat>, contents: Contents,
                         m: DsoMapping) {
    && m.sourceId in bound
    && if m.sourceId in failed then word == None else ReadsWord(contents, bound[m.sourceId], m.relative, word)
  }

  lemma AnswerReads(sources: Sources, contents: Contents, m: DsoMapping)
    requires m.sourceId in sources
    ensures Direct(Answer(sources, contents, m.sourceId, m.relative), BoundIn(sources), FailedIn(sources), contents, m)
  {
    DirectReads(contents, PathOf(sources[m.sourceId]), m.relative);
  }

  // Every word is the file's own.
  ghost predicate AllDirect(words: seq<Option<u64>>, bound: map<nat, Option<string>>, failed: set<nat>,
                            contents: Contents, requests: seq<(DsoMapping, Option<string>)>) {
    && |words| == |requests|
    && forall k :: 0 <= k < |words| ==> Direct(words[k], bound, failed, contents, requests[k].0)
  }

  lemma DirectMore(words: seq<Option<u64>>, bound: map<nat, Option<string>>, failed: set<nat>, contents: Contents,
                   requests: seq<(DsoMapping, Option<string>)>, r: (DsoMapping, Option<string>),
                   after: map<nat, Option<string>>, word: Option<u64>)
    requires AllDirect(words, bound, failed, contents, requests) && Direct(word, after, failed, contents, r.0)
    requires after == BoundWith(bound, contents, r.0, r.1)
    ensures AllDirect(words + [word], after, failed, contents, requests + [r])
  {
    forall k | 0 <= k <= |words| ensures Direct((words + [word])[k], after, failed, contents, (requests + [r])[k].0) {
      if k < |words| { assert Direct(words[k], bound, failed, contents, requests[k].0); }
    }
  }

  lemma SelectExists(contents: Contents, cached: Option<string>, recorded: string, script: seq<Condition>, owned: nat)
    ensures var s := Select(contents, cached, recorded, script, owned);
            s.path.Some? ==> s.path.value in contents && (s.path == cached || s.path == Some(recorded))
  {
  }

  ghost predicate FindsRoom(script: seq<Condition>, owned: nat) {
    exists n {:trigger FirstRoom(script, owned, n)} :: FirstRoom(script, owned, n)
  }

  // Only the oldest entries of the queue have lost their descriptors.
  ghost predicate Shortened(before: Sources, queue: seq<nat>, after: Sources, order: seq<nat>) {
    && |order| <= |queue|
    && order == queue[|queue| - |order|..]
    && after == EvictAll(before, queue[..|queue| - |order|])
  }

  lemma NotOwnedStill(before: Sources, queue: seq<nat>, sources: Sources, order: seq<nat>, id: nat)
    requires Shortened(before, queue, sources, order) && !Owned(before, id)
    ensures !Owned(sources, id)
  {
    EvictAllAt(before, queue[..|queue| - |order|], id);
  }

  lemma Requeuing(before: Sources, queue: seq<nat>, sources: Sources, order: seq<nat>, id: nat, source: DsoMemory)
    requires Shortened(before, queue, sources, order) && source.file.Some? && !source.failed
    ensures var after := sources[id := Some(source)];
            && Requeued(before, queue, after, order + [id], id)
            && BoundIn(after) == BoundIn(before)[id := Some(source.path)] && FailedIn(after) == FailedIn(before) - {id}
  {
    EvictAllHidden(before, queue[..|queue| - |order|]);
    Bind(sources, id, Some(source));
  }

  lemma ShortenedMore(before: Sources, queue: seq<nat>, sources: Sources, order: seq<nat>)
    requires Shortened(before, queue, sources, order) && order != []
    ensures Shortened(before, queue, Evict(sources, order[0]), order[1..])
  {
    var gone := |queue| - |order|;
    assert queue[..gone + 1][..gone] == queue[..gone] && queue[gone] == order[0];
  }

  lemma ShortenedTwice(before: Sources, queue: seq<nat>, between: Sources, rest: seq<nat>, after: Sources,
                       order: seq<nat>)
    requires Shortened(before, queue, between, rest) && Shortened(between, rest, after, order)
    ensures Shortened(before, queue, after, order)
  {
    var m, n := |queue| - |rest|, |rest| - |order|;
    EvictTwice(before, queue[..m], rest[..n]);
    FrontAgain(queue, m, n);
  }

  // The front of a queue, and then the front of what is left, are one longer front.
  lemma FrontAgain(queue: seq<nat>, m: nat, n: nat)
    requires m + n <= |queue|
    ensures queue[..m] + queue[m..][..n] == queue[..m + n]
    ensures queue[m..][n..] == queue[m + n..]
  {
    var a, b := queue[..m] + queue[m..][..n], queue[..m + n];
    forall k | 0 <= k < m + n ensures a[k] == b[k] { }
  }
}
