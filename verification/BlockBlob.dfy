/** `uploadFile` of azure/azure.go against an abstract block blob.

    The file is read in arbitrary short reads into one reused buffer; each chunk is put as an
    uncommitted block, and the list of block IDs is committed at the end.  Every request may fail,
    and a failed request may or may not have taken effect on the service. */
module BlockBlob {
  import opened Options
  import opened Base64
  import opened BlockIds

  const CHUNK_SIZE: nat := 8 * 1024 * 1024

  datatype ReadResult = Read(count: nat) | EndOfFile | ReadError(error: string)

  /** An open file whose content does not change while it is read.  It records that a read failed. */
  class File {
    const content: seq<Byte>
    var pos: nat
    var failed: bool

    ghost predicate Valid() reads this { pos <= |content| }

    constructor (content: seq<Byte>)
      ensures Valid() && this.content == content && pos == 0 && !failed
    {
      this.content := content;
      pos, failed := 0, false;
    }

    /** `Read`: any number of bytes from 1 up to what the buffer takes, end of file only at the end,
        or an error; only the first bytes of the buffer change. */
    method Read(buffer: array<Byte>) returns (r: ReadResult)
      requires Valid() && buffer.Length > 0
      modifies this, buffer
      ensures Valid() && failed == (old(failed) || r.ReadError?)
      ensures r.EndOfFile? ==> pos == old(pos) == |content|
      ensures r.ReadError? ==> pos == old(pos)
      ensures r.Read? ==> 1 <= r.count <= buffer.Length && pos == old(pos) + r.count
                          && buffer[..r.count] == content[old(pos)..pos]
    {
      var fails: bool := *;
      if fails {
        failed := true;
        return ReadError("read");
      }
      if pos == |content| {
        return EndOfFile;
      }
      var n: nat :| 1 <= n && pos + n <= |content| && n <= buffer.Length by {
        assert 1 <= 1 && pos + 1 <= |content| && 1 <= buffer.Length;
      }
      forall i | 0 <= i < n {
        buffer[i] := content[pos + i];
      }
      pos := pos + n;
      r := ReadResult.Read(n);
    }
  }

  /** The content a block list names, if every named block is there. */
  function Assemble(blocks: map<string, seq<Byte>>, ids: seq<string>): Option<seq<Byte>> {
    if ids == [] then Some([]) else
    match Assemble(blocks, ids[..|ids| - 1])
    case None => None
    case Some(front) =>
      var id := ids[|ids| - 1];
      if id in blocks then Some(front + blocks[id]) else None
  }

  /** The IDs `uploadFile` lists for its first `n` blocks. */
  function FirstIds(n: nat): (ids: seq<string>)
    ensures |ids| == n
    ensures forall i :: 0 <= i < n ==> ids[i] == BlockId(i)
  {
    seq(n, i requires 0 <= i => BlockId(i))
  }

  /** Putting block `n` leaves what the first `n` blocks assemble to alone, whatever other blocks
      were there before, because block IDs are distinct. */
  lemma {:induction false} AssembleOthers(blocks: map<string, seq<Byte>>, n: nat, m: nat, chunk: seq<Byte>)
    requires n <= m
    ensures Assemble(blocks[BlockId(m) := chunk], FirstIds(n)) == Assemble(blocks, FirstIds(n))
  {
    if n > 0 {
      AssembleOthers(blocks, n - 1, m, chunk);
      assert FirstIds(n)[..n - 1] == FirstIds(n - 1);
      if BlockId(n - 1) == BlockId(m) {
        BlockIdsDistinct(n - 1, m);
      }
    }
  }

  /** The next block extends what is assembled by exactly its chunk. */
  lemma {:induction false} AssembleNext(blocks: map<string, seq<Byte>>, n: nat, chunk: seq<Byte>)
    requires Assemble(blocks, FirstIds(n)).Some?
    ensures Assemble(blocks[BlockId(n) := chunk], FirstIds(n + 1))
         == Some(Assemble(blocks, FirstIds(n)).value + chunk)
  {
    AssembleOthers(blocks, n, n, chunk);
    assert FirstIds(n + 1)[..n] == FirstIds(n);
  }

  /** The first `n` blocks hold the first `pos` bytes of the file. */
  ghost predicate Holds(blocks: map<string, seq<Byte>>, n: nat, content: seq<Byte>, pos: nat) {
    pos <= |content| && Assemble(blocks, FirstIds(n)) == Some(content[..pos])
  }

  lemma HoldsNext(blocks: map<string, seq<Byte>>, n: nat, content: seq<Byte>, pos: nat, to: nat)
    requires Holds(blocks, n, content, pos) && pos <= to <= |content|
    ensures Holds(blocks[BlockId(n) := content[pos..to]], n + 1, content, to)
  {
    AssembleNext(blocks, n, content[pos..to]);
    SliceConcat(content, pos, to);
  }

  lemma SliceConcat(content: seq<Byte>, pos: nat, to: nat)
    requires pos <= to <= |content|
    ensures content[..pos] + content[pos..to] == content[..to]
  {
  }

  datatype Request = Create | Put | Commit

  /** A block blob on the service: the committed content readers see, if the blob exists, and the
      blocks put but not committed.  It records the requests that failed. */
  class Blob {
    var committed: Option<seq<Byte>>
    var blocks: map<string, seq<Byte>>
    var failed: seq<Request>

    constructor (committed: Option<seq<Byte>>, blocks: map<string, seq<Byte>>)
      ensures this.committed == committed && this.blocks == blocks && failed == []
    {
      this.committed := committed;
      this.blocks := blocks;
      failed := [];
    }

    /** Makes the blob empty; earlier uncommitted blocks may stay behind. */
    method CreateBlockBlob() returns (ok: bool)
      modifies this
      ensures failed == old(failed) + (if ok then [] else [Create])
      ensures ok ==> committed == Some([])
      ensures committed == Some([]) || committed == old(committed)
    {
      ok := *;
      var applied: bool := *;
      var discards: bool := *;
      if ok || applied {
        committed := Some([]);
        if discards {
          blocks := map[];
        }
      }
      failed := failed + if ok then [] else [Create];
    }

    method PutBlock(id: string, chunk: seq<Byte>) returns (ok: bool)
      modifies this`blocks, this`failed
      ensures failed == old(failed) + (if ok then [] else [Put])
      ensures ok ==> blocks == old(blocks)[id := chunk]
    {
      ok := *;
      var applied: bool := *;
      if ok || applied {
        blocks := blocks[id := chunk];
      }
      failed := failed + if ok then [] else [Put];
    }

    /** Commits the listed blocks as the content, or fails if one is missing. */
    method PutBlockList(ids: seq<string>) returns (ok: bool)
      modifies this
      ensures failed == old(failed) + (if ok then [] else [Commit])
      ensures ok ==> Assemble(old(blocks), ids).Some? && committed == Assemble(old(blocks), ids)
      ensures committed == old(committed)
              || (Assemble(old(blocks), ids).Some? && committed == Assemble(old(blocks), ids))
    {
      ok := *;
      var applied: bool := *;
      var content := Assemble(blocks, ids);
      if content.None? {
        ok := false;
      } else if ok || applied {
        committed := content;
        blocks := map[];
      }
      failed := failed + if ok then [] else [Commit];
    }
  }

  /** Where `uploadFile` gave up; `None` is success. */
  datatype UploadError = OpenFailed | CreateFailed | ReadFailed | PutFailed | CommitFailed

  lemma FirstIdsNext(n: nat)
    ensures FirstIds(n) + [BlockId(n)] == FirstIds(n + 1)
  {
  }

  lemma NothingRead(blocks: map<string, seq<Byte>>, content: seq<Byte>)
    ensures FirstIds(0) == [] && Holds(blocks, 0, content, 0)
  {
  }

  /** One turn of the chunk loop: read into the buffer, put what was read as block `i`, list its ID. */
  method PutNextChunk(file: File, blob: Blob, buffer: array<Byte>, i: nat, ids: seq<string>)
    returns (r: ReadResult, put: bool, longer: seq<string>)
    requires file.Valid() && buffer.Length > 0
    requires ids == FirstIds(i) && Holds(blob.blocks, i, file.content, file.pos)
    modifies file, buffer, blob`blocks, blob`failed
    ensures file.Valid() && file.failed == (old(file.failed) || r.ReadError?)
    ensures blob.failed == old(blob.failed) + (if r.Read? && !put then [Put] else [])
    ensures r.EndOfFile? ==> Assemble(blob.blocks, ids) == Some(file.content)
    ensures r.Read? ==> old(file.pos) < file.pos
    ensures r.Read? && put ==> longer == FirstIds(i + 1) && Holds(blob.blocks, i + 1, file.content, file.pos)
  {
    put, longer := false, ids;
    ghost var from := file.pos;
    r := file.Read(buffer);
    if r.Read? {
      HoldsNext(blob.blocks, i, file.content, from, file.pos);
      put := blob.PutBlock(BlockId(i), buffer[..r.count]);
      FirstIdsNext(i);
      longer := ids + [BlockId(i)];
    } else if r.EndOfFile? {
      assert file.content[..file.pos] == file.content;
    }
  }

  /** The chunk loop, lines 64-85. */
  method PutChunks(file: File, blob: Blob) returns (err: Option<UploadError>, ids: seq<string>)
    requires file.Valid() && file.pos == 0 && !file.failed
    modifies file, blob`blocks, blob`failed
    ensures err.None? ==> Assemble(blob.blocks, ids) == Some(file.content)
    ensures err == (if file.failed then Some(ReadFailed) else if blob.failed != old(blob.failed) then Some(PutFailed) else None)
    ensures blob.failed == old(blob.failed) + (if err == Some(PutFailed) then [Put] else [])
  {
    var buffer := new Byte[CHUNK_SIZE](_ => 0);
    ids := [];
    var i: nat := 0;
    NothingRead(blob.blocks, file.content);
    while true
      invariant file.Valid() && fresh(buffer)
      invariant ids == FirstIds(i)
      invariant Holds(blob.blocks, i, file.content, file.pos)
      invariant !file.failed && blob.failed == old(blob.failed)
      decreases |file.content| - file.pos
    {
      var r, put, longer := PutNextChunk(file, blob, buffer, i, ids);
      if r.EndOfFile? {
        return None, ids;
      }
      if r.ReadError? {
        return Some(ReadFailed), ids;
      }
      if !put {
        return Some(PutFailed), ids;
      }
      ids := longer;
      i := i + 1;
    }
  }

  /** For every content, every sequence of read sizes and every leftover set of uncommitted blocks:
      `uploadFile` stops at the first failure, be it the open (no file), the creation, a read, a put or the
      commit, and the error says which; nil means that there was none, and then the committed blob is the
      file byte for byte.  On an error the readers of the blob see what was there before (only if
      creation failed), nothing, or the whole file (only if the commit's answer was lost); never a
      non-empty proper prefix. */
  method UploadFile(file: Option<File>, blob: Blob) returns (err: Option<UploadError>)
    requires file.Some? ==> file.value.Valid() && file.value.pos == 0 && !file.value.failed
    requires blob.failed == []
    modifies blob
    modifies if file.Some? then {file.value} else {}
    ensures err.None? <==> file.Some? && !file.value.failed && blob.failed == []
    ensures err == Some(OpenFailed) <==> file.None?
    ensures err == Some(ReadFailed) <==> file.Some? && file.value.failed
    ensures err == Some(CreateFailed) <==> blob.failed == [Create]
    ensures err == Some(PutFailed) <==> blob.failed == [Put]
    ensures err == Some(CommitFailed) <==> blob.failed == [Commit]
    ensures err.None? ==> blob.committed == Some(file.value.content)
    ensures err == Some(OpenFailed) ==> blob.committed == old(blob.committed) && blob.blocks == old(blob.blocks)
    ensures err == Some(CreateFailed) ==> blob.committed == old(blob.committed) || blob.committed == Some([])
    ensures err == Some(ReadFailed) || err == Some(PutFailed) ==> blob.committed == Some([])
    ensures err == Some(CommitFailed) ==> blob.committed == Some([]) || blob.committed == Some(file.value.content)
  {
    if file.None? {
      return Some(OpenFailed);
    }
    var created := blob.CreateBlockBlob();
    if !created {
      return Some(CreateFailed);
    }
    var ids: seq<string>;
    err, ids := PutChunks(file.value, blob);
    if err.Some? {
      assert blob.failed == [] || blob.failed == [Put];
      assert [Put][0] != [Create][0] && [Put][0] != [Commit][0];
      return;
    }
    var committed := blob.PutBlockList(ids);
    err := if committed then None else Some(CommitFailed);
  }
}
