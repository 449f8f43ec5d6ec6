/** Moving one object between nodes: chunked sending, collecting, replaying through a reader, sniffing the first
    bytes, and writing header and rest to a file. End to end this is the identity on the content. */
module Transfer {
  import opened Prelude

  const CHUNK_SIZE: nat := 65536
  const COPY_BUFFER_SIZE: nat := 32768
  const HEADER_SIZE: nat := 512

  type Name = (string, string)

  /** How one read may behave: deliver at most so many bytes (but one, if there is one), and report the end of
      the data together with the last bytes or only afterwards. */
  datatype Behaviour = Behaviour(most: nat, eager: bool)

  datatype Chunk = Meta(bucket: string, key: string, size: nat) | Data(bytes: Bytes)

  datatype Error = ObjectNotFound | HashMismatch | NoMetadata

  /** What a write reports. */
  datatype Stored = Stored(size: nat, hash: string, contentType: string)

  /** SHA-256 in hex, and content sniffing with its fall-back to the file name: any functions. */
  datatype Oracles = Oracles(digest: Bytes -> string, sniff: (Bytes, string) -> string)

  /** The data bytes of a stream, in order. */
  function Payload(stream: seq<Chunk>): Bytes {
    if stream == [] then [] else
      var last := stream[|stream| - 1];
      Payload(stream[..|stream| - 1]) + if last.Data? then last.bytes else []
  }

  /** The metadata a receiver ends up with: the last one sent. */
  function LastMeta(stream: seq<Chunk>): (meta: Option<Chunk>)
    ensures meta.Some? ==> meta.value.Meta? && meta.value in stream
    ensures meta.None? ==> forall i | 0 <= i < |stream| :: stream[i].Data?
  {
    if stream == [] then None
    else if stream[|stream| - 1].Meta? then Some(stream[|stream| - 1])
    else LastMeta(stream[..|stream| - 1])
  }

  /** Data after it does not change that, other metadata replaces it. */
  lemma {:induction false} LastMetaStands(stream: seq<Chunk>, more: seq<Chunk>)
    ensures LastMeta(stream + more) == if LastMeta(more).Some? then LastMeta(more) else LastMeta(stream)
  {
    if more == [] {
      assert stream + more == stream;
    } else {
      var init := more[..|more| - 1];
      assert (stream + more)[..|stream + more| - 1] == stream + init;
      LastMetaStands(stream, init);
    }
  }

  /** A well-formed transfer stream: metadata first, then non-empty data chunks of bounded size. */
  ghost predicate WellChunked(stream: seq<Chunk>) {
    && stream != [] && stream[0].Meta?
    && forall i | 1 <= i < |stream| :: stream[i].Data? && 1 <= |stream[i].bytes| <= 65536
  }

  lemma {:induction false} OneMeta(stream: seq<Chunk>)
    requires WellChunked(stream)
    ensures LastMeta(stream) == Some(stream[0])
  {
    if |stream| > 1 {
      OneMeta(stream[..|stream| - 1]);
    }
  }

  function Joined(pieces: seq<Bytes>): Bytes {
    if pieces == [] then [] else Joined(pieces[..|pieces| - 1]) + pieces[|pieces| - 1]
  }

  /** However a content is cut into data chunks, the payload is the content. */
  lemma {:induction false} PayloadOfPieces(stream: seq<Chunk>, pieces: seq<Bytes>)
    requires |stream| == |pieces| + 1 && stream[0].Meta?
    requires forall i | 0 <= i < |pieces| :: stream[i + 1] == Data(pieces[i])
    ensures Payload(stream) == Joined(pieces)
  {
    if pieces != [] {
      PayloadOfPieces(stream[..|stream| - 1], pieces[..|pieces| - 1]);
    } else {
      assert Payload(stream[..0]) == [];
    }
  }

  /** A reader over fixed data. Its next reads follow `plan`; once that is used up, and so from the start for a
      reader over a received byte slice, each read fills the buffer as far as the data goes. */
  class Reader {
    const data: Bytes
    var pos: nat
    var plan: seq<Behaviour>

    ghost predicate Valid()
      reads this
    {
      pos <= |data|
    }

    ghost function Remaining(): Bytes
      reads this
      requires Valid()
    {
      data[pos..]
    }

    constructor (data: Bytes, plan: seq<Behaviour>)
      ensures this.data == data && this.plan == plan && Valid() && Remaining() == data
    {
      this.data, this.pos, this.plan := data, 0, plan;
    }

    /** Reads into `p[off..]`. */
    method Read(p: array<Byte>, off: nat) returns (n: nat, eof: bool)
      requires Valid() && off < p.Length
      modifies this`pos, this`plan, p
      ensures Valid() && n <= p.Length - off && n <= |old(Remaining())|
      ensures Remaining() == old(Remaining())[n..]
      ensures p[..off] == old(p[..off]) && p[off..off + n] == old(Remaining())[..n]
      ensures n == 0 ==> eof
      ensures eof ==> Remaining() == []
      ensures old(plan) == [] ==>
                plan == [] && n == Min(p.Length - off, |old(Remaining())|) && (eof <==> old(Remaining()) == [])
    {
      var behaviour := if plan == [] then Behaviour(p.Length, false) else plan[0];
      plan := if plan == [] then [] else plan[1..];
      if pos >= |data| {
        return 0, true;
      }
      n := Min(Min(Max(1, behaviour.most), p.Length - off), |data| - pos);
      var from := pos;
      forall i | 0 <= i < n {
        p[off + i] := data[from + i];
      }
      pos := pos + n;
      eof := behaviour.eager && pos == |data|;
    }
  }

  /** io.ReadFull: reads until the buffer is full or the data ends. */
  method ReadFull(r: Reader, buf: array<Byte>) returns (n: nat)
    requires r.Valid()
    modifies r, buf
    ensures r.Valid()
    ensures n == Min(buf.Length, |old(r.Remaining())|)
    ensures buf[..n] == old(r.Remaining())[..n] && r.Remaining() == old(r.Remaining())[n..]
  {
    n := 0;
    var eof := false;
    while n < buf.Length && !eof
      invariant r.Valid() && n <= buf.Length && n <= |old(r.Remaining())|
      invariant buf[..n] == old(r.Remaining())[..n] && r.Remaining() == old(r.Remaining())[n..]
      invariant eof ==> r.Remaining() == []
      decreases buf.Length - n, !eof
    {
      var more;
      more, eof := r.Read(buf, n);
      assert buf[..n + more] == buf[..n] + buf[n..n + more];
      n := n + more;
    }
  }

  /** The first bytes, as far as there are any. */
  function Header(data: Bytes): Bytes {
    data[..Min(512, |data|)]
  }

  /** DetectFromReader: the type is sniffed from the front of the data alone, and nothing else is consumed. */
  method DetectFromReader(r: Reader, filename: string, oracles: Oracles) returns (contentType: string, header: Bytes)
    requires r.Valid()
    modifies r
    ensures r.Valid()
    ensures header == Header(old(r.Remaining())) == old(r.Remaining())[..Min(512, |old(r.Remaining())|)]
    ensures contentType == oracles.sniff(header, filename)
    ensures header + r.Remaining() == old(r.Remaining())
  {
    var buf := new Byte[HEADER_SIZE];
    var n := ReadFull(r, buf);
    header := buf[..n];
    contentType := oracles.sniff(header, filename);
  }

  /** io.Copy to a growing file and to the hasher beside it. */
  method Copy(file: Bytes, hashed: Bytes, r: Reader) returns (file': Bytes, hashed': Bytes, copied: nat)
    requires r.Valid()
    modifies r
    ensures r.Valid() && r.Remaining() == []
    ensures file' == file + old(r.Remaining()) && hashed' == hashed + old(r.Remaining())
    ensures copied == |old(r.Remaining())|
  {
    var buf := new Byte[COPY_BUFFER_SIZE];
    file', hashed', copied := file, hashed, 0;
    var eof := false;
    while !eof
      invariant r.Valid()
      invariant file' + r.Remaining() == file + old(r.Remaining())
      invariant hashed' + r.Remaining() == hashed + old(r.Remaining())
      invariant copied + |r.Remaining()| == |old(r.Remaining())|
      invariant eof ==> r.Remaining() == []
      decreases |r.Remaining()|, !eof
    {
      ghost var left := r.Remaining();
      var n;
      n, eof := r.Read(buf, 0);
      assert left == buf[..n] + r.Remaining();
      if n > 0 {
        file' := file' + buf[..n];
        hashed' := hashed' + buf[..n];
        copied := copied + n;
      }
    }
  }

  lemma DataAppended(stream: seq<Chunk>, bytes: Bytes)
    requires WellChunked(stream) && 1 <= |bytes| <= CHUNK_SIZE
    ensures var more := stream + [Data(bytes)];
            WellChunked(more) && more[0] == stream[0] && Payload(more) == Payload(stream) + bytes
  {
    assert (stream + [Data(bytes)])[..|stream|] == stream;
  }

  /** Reads a whole object and sends it in chunks behind its metadata. */
  method SendAll(meta: Chunk, r: Reader) returns (stream: seq<Chunk>)
    requires meta.Meta? && r.Valid()
    modifies r
    ensures WellChunked(stream) && stream[0] == meta
    ensures Payload(stream) == old(r.Remaining())
  {
    var buf := new Byte[CHUNK_SIZE];
    stream := [meta];
    assert [meta][..0] == [];
    assert WellChunked(stream) && Payload(stream) == [];
    hide Payload, WellChunked;
    ghost var sent := 0;
    var eof := false;
    while !eof
      invariant r.Valid() && sent <= |old(r.Remaining())|
      invariant WellChunked(stream) && stream != [] && stream[0] == meta
      invariant Payload(stream) == old(r.Remaining())[..sent] && r.Remaining() == old(r.Remaining())[sent..]
      invariant eof ==> r.Remaining() == []
      decreases |old(r.Remaining())| - sent, !eof
    {
      var n;
      n, eof := r.Read(buf, 0);
      assert old(r.Remaining())[..sent + n] == old(r.Remaining())[..sent] + old(r.Remaining())[sent..][..n];
      if n > 0 {
        DataAppended(stream, buf[..n]);
        stream := stream + [Data(buf[..n])];
        sent := sent + n;
      }
    }
  }

  /** Collects a stream: data is appended, metadata remembered. */
  method Collect(stream: seq<Chunk>) returns (meta: Option<Chunk>, data: Bytes)
    ensures meta == LastMeta(stream) && data == Payload(stream)
  {
    meta, data := None, [];
    for i := 0 to |stream|
      invariant meta == LastMeta(stream[..i]) && data == Payload(stream[..i])
    {
      assert stream[..i + 1][..i] == stream[..i];
      match stream[i]
      case Meta(_, _, _) => meta := Some(stream[i]);
      case Data(bytes) => data := data + bytes;
    }
    assert stream[..|stream|] == stream;
  }

  /** What writing a content under a key reports. */
  function Report(oracles: Oracles, key: string, content: Bytes): Stored {
    Stored(|content|, oracles.digest(content), oracles.sniff(Header(content), key))
  }

  class FileStore {
    const oracles: Oracles
    var files: map<Name, Bytes>

    constructor (oracles: Oracles)
      ensures this.oracles == oracles && files == map[]
    {
      this.oracles, files := oracles, map[];
    }

    /** Writes the sniffed header, then the rest, to a temporary file and renames it into place. */
    method Put(bucket: string, key: string, r: Reader) returns (stored: Stored)
      requires r.Valid()
      modifies this, r
      ensures files == old(files)[(bucket, key) := old(r.Remaining())]
      ensures stored == Report(oracles, key, old(r.Remaining()))
      ensures stored.size == |old(r.Remaining())| && stored.hash == oracles.digest(old(r.Remaining()))
      ensures stored.contentType == oracles.sniff(old(r.Remaining())[..Min(512, |old(r.Remaining())|)], key)
    {
      var contentType, header := DetectFromReader(r, key, oracles);
      var tmp, hashed := header, header;
      var size, copied := |header|, 0;
      tmp, hashed, copied := Copy(tmp, hashed, r);
      size := size + copied;
      files := files[(bucket, key) := tmp];
      return Stored(size, oracles.digest(hashed), contentType);
    }

    /** The server side of a download. A stored object carries no hash, so any expected hash is a mismatch. The file's
        reader may behave in any way. */
    method GetObject(bucket: string, key: string, expectedHash: string, plan: seq<Behaviour>)
      returns (stream: Result<seq<Chunk>, Error>)
      ensures (bucket, key) !in files ==> stream == Err(ObjectNotFound)
      ensures (bucket, key) in files && expectedHash != "" ==> stream == Err(HashMismatch)
      ensures (bucket, key) in files && expectedHash == "" ==>
                && stream.Ok? && WellChunked(stream.value)
                && stream.value[0] == Meta(bucket, key, |files[(bucket, key)]|)
                && Payload(stream.value) == files[(bucket, key)]
    {
      if (bucket, key) !in files {
        return Err(ObjectNotFound);
      }
      var storedHash := "";
      if expectedHash != "" && storedHash != expectedHash {
        return Err(HashMismatch);
      }
      var r := new Reader(files[(bucket, key)], plan);
      var chunks := SendAll(Meta(bucket, key, |files[(bucket, key)]|), r);
      return Ok(chunks);
    }

    /** The server side of an upload: stores what was collected under the metadata's name and answers with its hash. */
    method PushObject(stream: seq<Chunk>) returns (r: Result<string, Error>)
      modifies this
      ensures LastMeta(stream).None? ==> r == Err(NoMetadata) && files == old(files)
      ensures LastMeta(stream).Some? ==>
                && r == Ok(oracles.digest(Payload(stream)))
                && files == old(files)[(LastMeta(stream).value.bucket, LastMeta(stream).value.key) := Payload(stream)]
    {
      var meta, data := Collect(stream);
      if meta.None? {
        return Err(NoMetadata);
      }
      var reader := new Reader(data, []);
      var stored := Put(meta.value.bucket, meta.value.key, reader);
      return Ok(stored.hash);
    }

    /** Pulling one object from a peer, with the hash its listing gave: exactly the peer's bytes arrive, whatever the
        reads did. */
    method Download(peer: FileStore, bucket: string, key: string, listedHash: string, plan: seq<Behaviour>)
      returns (r: Result<Stored, Error>)
      modifies this
      ensures r.Err? <==> (bucket, key) !in old(peer.files) || listedHash != ""
      ensures r.Err? ==> files == old(files)
      ensures r.Ok? ==>
                && r.value == Report(oracles, key, old(peer.files)[(bucket, key)])
                && files == old(files)[(bucket, key) := old(peer.files)[(bucket, key)]]
    {
      var stream := peer.GetObject(bucket, key, listedHash, plan);
      if stream.Err? {
        return Err(stream.error);
      }
      var _, data := Collect(stream.value);
      var reader := new Reader(data, []);
      var stored := Put(bucket, key, reader);
      return Ok(stored);
    }

    /** Pushing one object to a peer. */
    method Upload(peer: FileStore, bucket: string, key: string, plan: seq<Behaviour>) returns (r: Result<string, Error>)
      modifies peer
      ensures (bucket, key) !in old(files) ==> r == Err(ObjectNotFound) && peer.files == old(peer.files)
      ensures (bucket, key) in old(files) ==>
                && r == Ok(peer.oracles.digest(old(files)[(bucket, key)]))
                && peer.files == old(peer.files)[(bucket, key) := old(files)[(bucket, key)]]
    {
      if (bucket, key) !in files {
        return Err(ObjectNotFound);
      }
      var reader := new Reader(files[(bucket, key)], plan);
      var stream := SendAll(Meta(bucket, key, |files[(bucket, key)]|), reader);
      OneMeta(stream);
      r := peer.PushObject(stream);
    }
  }
}
