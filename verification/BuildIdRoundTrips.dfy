// Build ids as perf writes them, and the events that the parsers give back.
module BuildIdRoundTrips {
  import opened Basics
  import opened Bytes
  import opened PerfRecords
  import opened PerfFeatures
  import opened BuildIds

  // What a record says: whose object, its build id and its file name. The size byte is the
  // build id's own size where the record is sized, and anything where it is not.
  datatype Note = Note(pid: u32, misc: u16, id: Data, size: u8, name: Data)

  // The top bit of misc says that the size byte counts; otherwise the build id has 20 bytes.
  predicate Fits(note: Note) {
    && |note.id| <= 20 && (if note.misc >= 0x8000 then note.size == |note.id| else |note.id| == 20)
    && 0 !in note.name
  }

  function Padded(bytes: Data, n: nat): (r: Data)
    requires |bytes| <= n
    ensures |r| == n && r[..|bytes|] == bytes
  {
    bytes + seq(n - |bytes|, _ => 0)
  }

  function Event(note: Note): BuildIdEvent { BuildIdEvent(note.pid, note.misc, note.id, note.name) }

  // The part that feature and stream records share: the process, the build id in its storage,
  // the size byte, and the name with its terminator.
  function Payload(note: Note, rest: Data): (r: Data)
    requires |note.id| <= 20
    ensures |r| == 29 + |note.name| + |rest|
  {
    Encode(note.pid, 4) + (Padded(note.id, 20) + ([note.size, 0, 0, 0] + (note.name + [0] + rest)))
  }

  function FeatureRecord(kind: u32, size: u16, note: Note, rest: Data): (r: Data)
    requires |note.id| <= 20
    ensures |r| == 37 + |note.name| + |rest|
  {
    Encode(kind, 4) + (Encode(note.misc, 2) + (Encode(size, 2) + Payload(note, rest)))
  }

  // A map with a build id in place of its file's identity.
  function MapPayload(note: Note, range: Data, flags: Data, rest: Data): (r: Data)
    requires |note.id| <= 20 && |range| == 28 && |flags| == 8
    ensures |r| == 65 + |note.name| + |rest|
  {
    Encode(note.pid, 4)
    + (range + ([note.size, 0, 0, 0] + (Padded(note.id, 20) + (flags + (note.name + [0] + rest)))))
  }

  // ----- Pieces ------------------------------------------------------------

  lemma Front(a: Data, b: Data)
    ensures (a + b)[0..|a|] == a && (a + b)[|a|..] == b && (a + b)[|a|..|a + b|] == b
  {
  }

  lemma TailSlice(p: Data, n: nat, i: nat, j: nat)
    requires n <= |p| && i <= j <= |p| - n
    ensures p[n..][i..j] == p[n + i..n + j]
  {
    assert p[n..] == p[n..|p|];
    Subslice(p, n, |p|, i, j);
  }

  lemma TailTail(p: Data, n: nat, m: nat)
    requires n + m <= |p|
    ensures p[n..][m..] == p[n + m..]
  {
    TailSlice(p, n, m, |p| - n);
    assert p[n..][m..] == p[n..][m..|p| - n] && p[n + m..] == p[n + m..n + (|p| - n)];
  }

  lemma {:induction false} NameEnds(name: Data, rest: Data)
    requires 0 !in name
    ensures CString(name + [0] + rest) == name
    decreases |name|
  {
    var text := name + [0] + rest;
    if name != [] {
      assert text[1..] == name[1..] + [0] + rest;
      NameEnds(name[1..], rest);
    }
  }

  // Where the pieces of a payload lie.
  lemma PayloadPieces(note: Note, rest: Data)
    requires |note.id| <= 20
    ensures var p := Payload(note, rest);
            && U32At(p, 0) == note.pid && p[4..4 + |note.id|] == note.id && p[24] == note.size
            && (|note.id| == 20 ==> p[4..24] == note.id)
            && p[28..] == note.name + [0] + rest
  {
    var p, id := Payload(note, rest), Padded(note.id, 20);
    var text := note.name + [0] + rest;
    var sized := [note.size, 0, 0, 0] + text;
    Front(Encode(note.pid, 4), id + sized);
    Powers();
    DecodeEncode(note.pid, 4);
    Front(id, sized);
    Front([note.size, 0, 0, 0], text);
    TailSlice(p, 4, 0, |note.id|);
    assert (id + sized)[0..|note.id|] == id[..|note.id|];
    TailTail(p, 4, 20);
    TailTail(p, 24, 4);
    assert p[24] == p[24..][0];
  }

  // ----- Round trips -------------------------------------------------------

  // A stream record gives back its process, build id and name.
  lemma StreamReadsBack(names: Names, note: Note, size: u16, rest: Data)
    requires Fits(note) && names.valid(note.name)
    ensures StreamEvent(ParsersOf(names), RecordHeader(67, note.misc, size), Payload(note, rest)) == Found(Event(note))
  {
    PayloadPieces(note, rest);
    NameEnds(note.name, rest);
  }

  lemma RecordPieces(kind: u32, size: u16, note: Note, rest: Data)
    requires |note.id| <= 20
    ensures var record := FeatureRecord(kind, size, note, rest);
            ReadU16(record, 4) == Some(note.misc) && record[8..] == Payload(note, rest)
  {
    var record, payload := FeatureRecord(kind, size, note, rest), Payload(note, rest);
    var sized := Encode(size, 2) + payload;
    Front(Encode(kind, 4), Encode(note.misc, 2) + sized);
    Front(Encode(note.misc, 2), sized);
    Front(Encode(size, 2), payload);
    TailSlice(record, 4, 0, 2);
    TailTail(record, 4, 2);
    TailTail(record, 6, 2);
    Powers();
    DecodeEncode(note.misc, 2);
  }

  // A feature record does, whatever its type says.
  lemma FeatureReadsBack(names: Names, note: Note, kind: u32, size: u16, rest: Data)
    requires Fits(note) && names.valid(note.name)
    ensures ParsersOf(names).feature(FeatureRecord(kind, size, note, rest)) == Some(Event(note))
  {
    var record := FeatureRecord(kind, size, note, rest);
    RecordPieces(kind, size, note, rest);
    PayloadPieces(note, rest);
    NameEnds(note.name, rest);
    assert record[32] == record[8..][24];
    SameEvent(names, record);
  }

  lemma MapPieces(note: Note, range: Data, flags: Data, rest: Data)
    requires |note.id| <= 20 && |range| == 28 && |flags| == 8
    ensures var p := MapPayload(note, range, flags, rest);
            && U32At(p, 0) == note.pid && p[32] == note.size && p[36..36 + |note.id|] == note.id
            && p[64..] == note.name + [0] + rest
  {
    var p, id := MapPayload(note, range, flags, rest), Padded(note.id, 20);
    var text := note.name + [0] + rest;
    var stored := id + (flags + text);
    var sized := [note.size, 0, 0, 0] + stored;
    Front(Encode(note.pid, 4), range + sized);
    Powers();
    DecodeEncode(note.pid, 4);
    Front(range, sized);
    Front([note.size, 0, 0, 0], stored);
    Front(id, flags + text);
    Front(flags, text);
    TailTail(p, 4, 28);
    TailTail(p, 32, 4);
    TailSlice(p, 36, 0, |note.id|);
    assert stored[0..|note.id|] == id[..|note.id|];
    TailTail(p, 36, 20);
    TailTail(p, 56, 8);
    assert p[32] == p[32..][0];
  }

  // A map record with the build-id bit gives back its process, build id and name; without that
  // bit it says nothing, and neither does a record of any other type.
  lemma MapReadsBack(names: Names, note: Note, range: Data, flags: Data, size: u16, rest: Data)
    requires |note.id| <= 20 && note.size == |note.id| && 0 !in note.name && |range| == 28 && |flags| == 8
    ensures StreamEvent(ParsersOf(names), RecordHeader(10, note.misc, size), MapPayload(note, range, flags, rest)) ==
            var e := BuildIdEvent(note.pid, note.misc, note.id, names.lossy(note.name));
            if note.misc % 0x8000 >= 0x4000 then Found(e) else Ignored
  {
    MapPieces(note, range, flags, rest);
    NameEnds(note.name, rest);
  }

  lemma OthersIgnored(names: Names, h: RecordHeader, payload: Data)
    requires h.kind != 67 && h.kind != 10
    ensures StreamEvent(ParsersOf(names), h, payload) == Ignored
  {
  }

  // ----- What is refused ---------------------------------------------------

  lemma StreamAccepts(names: Names, misc: u16, size: u16, payload: Data)
    ensures StreamEvent(ParsersOf(names), RecordHeader(67, misc, size), payload).Bad? <==>
            |payload| < 28 || (misc >= 0x8000 && payload[24] > 24) || !names.valid(CString(payload[28..]))
  {
  }

  lemma FeatureAccepts(names: Names, record: Data)
    ensures ParsersOf(names).feature(record).None? <==>
            |record| < 36 || (U16At(record, 4) >= 0x8000 && record[32] > 20) || !names.valid(CString(record[36..]))
  {
  }

  lemma MapAccepts(names: Names, misc: u16, size: u16, payload: Data)
    requires misc % 0x8000 >= 0x4000
    ensures StreamEvent(ParsersOf(names), RecordHeader(10, misc, size), payload).Bad? <==>
            |payload| < 64 || payload[32] > 20
  {
  }

  // ----- The kernel's build id ---------------------------------------------

  // The event names the kernel and some byte of its build id is not zero.
  ghost predicate NamesKernel(q: Parsers, e: BuildIdEvent) {
    q.kernel(e.filename) && exists i :: 0 <= i < |e.buildId| && e.buildId[i] != 0
  }

  lemma {:induction false} DefinedIs(id: Data)
    ensures Defined(id) <==> exists i :: 0 <= i < |id| && id[i] != 0
  {
    if id != [] {
      DefinedIs(id[1..]);
      if i :| 0 <= i < |id[1..]| && id[1..][i] != 0 { assert id[i + 1] != 0; }
      forall i | 0 < i < |id| ensures id[i] == id[1..][i - 1] { }
    }
  }

  // The id found is that of the first event of the kernel; none is found when there is none.
  lemma {:induction false} FirstKernelIs(q: Parsers, events: seq<BuildIdEvent>)
    ensures match FirstKernel(q, events)
            case None => forall i :: 0 <= i < |events| ==> !NamesKernel(q, events[i])
            case Some(id) =>
              exists i :: 0 <= i < |events| && NamesKernel(q, events[i]) && events[i].buildId == id
                          && forall j :: 0 <= j < i ==> !NamesKernel(q, events[j])
  {
    if events != [] {
      DefinedIs(events[0].buildId);
      if !IsKernel(q, events[0]) {
        var rest := events[1..];
        FirstKernelIs(q, rest);
        forall i | 0 < i < |events| ensures events[i] == rest[i - 1] { }
        if FirstKernel(q, rest).Some? {
          var i :| 0 <= i < |rest| && NamesKernel(q, rest[i]) && rest[i].buildId == FirstKernel(q, rest).value
                   && forall j :: 0 <= j < i ==> !NamesKernel(q, rest[j]);
          assert NamesKernel(q, events[i + 1]);
          forall j | 0 <= j < i + 1 ensures !NamesKernel(q, events[j]) { }
        }
      }
    }
  }

  // The first section of a feature is the one found.
  lemma {:induction false} FindSectionIs(sections: seq<Section>, feature: nat)
    ensures match FindSection(sections, feature)
            case None => forall i :: 0 <= i < |sections| ==> sections[i].feature != feature
            case Some(section) =>
              exists i :: 0 <= i < |sections| && sections[i] == section && section.feature == feature
                          && forall j :: 0 <= j < i ==> sections[j].feature != feature
  {
    if sections != [] && sections[0].feature != feature {
      var rest := sections[1..];
      FindSectionIs(rest, feature);
      forall i | 0 < i < |sections| ensures sections[i] == rest[i - 1] { }
      if FindSection(rest, feature).Some? {
        var i :| 0 <= i < |rest| && rest[i] == FindSection(rest, feature).value
                 && forall j :: 0 <= j < i ==> rest[j].feature != feature;
        assert sections[i + 1] == rest[i];
      }
    }
  }
}
