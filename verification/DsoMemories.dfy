// Words read from one mapped object through 4096-byte blocks. The blocks must not be visible.
module DsoMemories {
  import opened Basics
  import opened Bytes

  const BLOCK_SIZE: nat := 4096

  datatype DsoMemory = DsoMemory(
    file: Option<string>,
    path: string,
    len: nat,
    failed: bool,
    blocks: map<nat, Data>)

  function BlockStart(position: nat): nat { position / BLOCK_SIZE * BLOCK_SIZE }

  function BlockOf(content: Data, start: nat): Data
    requires start <= |content|
  {
    content[start..Min(start + BLOCK_SIZE, |content|)]
  }

  // Every cached block is the file's own block there.
  ghost predicate BlocksOf(blocks: map<nat, Data>, content: Data) {
    forall start :: start in blocks ==>
      start % BLOCK_SIZE == 0 && start < |content| && blocks[start] == BlockOf(content, start)
  }

  // A positioned read of a regular file returns all the bytes there are, up to the count.
  function ReadFileAt(content: Data, offset: nat, count: nat): Data {
    if offset <= |content| then content[offset..Min(offset + count, |content|)] else []
  }

  // The cached block covering a position, read on first use; nothing is there past the end.
  method LoadBlock(memory: DsoMemory, content: Data, start: nat) returns (block: Option<Data>, after: DsoMemory)
    requires memory.len == |content| && start <= |content| && start % BLOCK_SIZE == 0
    requires BlocksOf(memory.blocks, content)
    ensures block == if start < |content| then Some(BlockOf(content, start)) else None
    ensures BlocksOf(after.blocks, content) && after == memory.(blocks := after.blocks)
  {
    after := memory;
    if start !in after.blocks {
      var read := ReadFileAt(content, start, Min(memory.len - start, BLOCK_SIZE));
      if |read| == 0 { return None, after; }
      after := after.(blocks := after.blocks[start := read]);
    }
    block := Some(after.blocks[start]);
  }

  lemma BlockStep(content: Data, offset: nat, start: nat, position: nat, count: nat)
    requires offset <= position && start <= position && position + count <= Min(start + BLOCK_SIZE, |content|)
    ensures var block := BlockOf(content, start);
            position - start + count <= |block|
            && content[offset..position] + block[position - start..position - start + count] ==
                 content[offset..position + count]
  {
    Subslice(content, start, Min(start + BLOCK_SIZE, |content|), position - start, position - start + count);
    assert content[offset..position] + content[position..position + count] == content[offset..position + count];
  }

  // The word at an offset is the file's own eight bytes there, or nothing.
  method ReadWord(memory: DsoMemory, content: Data, offset: u64) returns (r: Option<u64>, after: DsoMemory)
    requires !memory.failed && memory.file == Some(memory.path) && memory.len == |content| < TWO_64
    requires BlocksOf(memory.blocks, content)
    ensures r == ReadU64(content, offset) && WordIs(content, offset, r)
    ensures BlocksOf(after.blocks, content) && after == memory.(blocks := after.blocks)
  {
    ReadU64Is(content, offset);
    r, after := ReadBlocks(memory, content, offset);
  }

  // It is assembled block by block.
  method ReadBlocks(memory: DsoMemory, content: Data, offset: u64) returns (r: Option<u64>, after: DsoMemory)
    requires !memory.failed && memory.file == Some(memory.path) && memory.len == |content| < TWO_64
    requires BlocksOf(memory.blocks, content)
    ensures r == ReadU64(content, offset)
    ensures BlocksOf(after.blocks, content) && after == memory.(blocks := after.blocks)
  {
    after := memory;
    if offset + 8 > U64_MAX || offset > memory.len { return None, after; }
    var bytes: Data := [];
    while |bytes| < 8
      invariant |bytes| <= 8 && offset + |bytes| <= |content|
      invariant bytes == content[offset..offset + |bytes|]
      invariant BlocksOf(after.blocks, content) && after == memory.(blocks := after.blocks)
    {
      var position := offset + |bytes|;
      var start := BlockStart(position);
      var block;
      block, after := LoadBlock(after, content, start);
      if block.None? { return None, after; }
      var within := position - start;
      if within > |block.value| { return None, after; }
      var count := Min(|block.value| - within, 8 - |bytes|);
      if count == 0 { return None, after; }
      BlockStep(content, offset, start, position, count);
      bytes := bytes + block.value[within..within + count];
    }
    r := ReadU64(bytes, 0);
    assert bytes[0..8] == bytes;
  }
}
