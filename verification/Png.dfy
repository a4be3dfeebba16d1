/** The pixel dumps' PNG output: a tEXt chunk with the image checksum is spliced in behind
    IHDR, and the whole written in blocks. Chunks are those of RFC 2083 section 3.2. */
module Png {
  import opened Crc

  type Byte = bv8
  type Bytes = seq<Byte>

  const TEXT_COMMENT_PREFIX: Bytes := [0x00, 0x00, 0x00, 0x29, 0x74, 0x45, 0x58, 0x74, 0x63, 0x68, 0x65, 0x63, 0x6b, 0x73, 0x75, 0x6d, 0x00]
  const CHECKSUM_LENGTH := 32
  const INSERT_OFFSET := 8 + 25
  const BLOCK := 0x8000

  const TEXT: Bytes := [0x74, 0x45, 0x58, 0x74]
  const IHDR: Bytes := [0x49, 0x48, 0x44, 0x52]
  const CHECKSUM_KEYWORD: Bytes := [0x63, 0x68, 0x65, 0x63, 0x6b, 0x73, 0x75, 0x6d, 0x00]
  const SIGNATURE: Bytes := [0x89, 0x50, 0x4e, 0x47, 0x0d, 0x0a, 0x1a, 0x0a]

  predicate Spells(b: Bytes, s: string) { |b| == |s| && forall i :: 0 <= i < |s| ==> b[i] as int == s[i] as int }

  /** The chunk types and the keyword, in letters. */
  lemma Letters()
    ensures Spells(TEXT, "tEXt") && Spells(IHDR, "IHDR")
    ensures Spells(CHECKSUM_KEYWORD[..8], "checksum") && CHECKSUM_KEYWORD[8..] == [0]
  {
  }

  // Four bytes, highest first.

  function BytesOf(number: bv32): (b: Bytes)
    ensures |b| == 4
  {
    [((number >> 24) & 0xff) as bv8, ((number >> 16) & 0xff) as bv8, ((number >> 8) & 0xff) as bv8, (number & 0xff) as bv8]
  }

  function WordOf(b0: Byte, b1: Byte, b2: Byte, b3: Byte): bv32 {
    (b0 as bv32 << 24) | (b1 as bv32 << 16) | (b2 as bv32 << 8) | b3 as bv32
  }

  function LengthOf(b0: Byte, b1: Byte, b2: Byte, b3: Byte): nat {
    b0 as nat * 0x1000000 + b1 as nat * 0x10000 + b2 as nat * 0x100 + b3 as nat
  }

  lemma ByteIsByte(b: Byte)
    ensures (b as bv32) as nat == b as nat
  {
  }

  lemma ByteBehind(w: bv32, b: Byte, v: bv32)
    requires w < 0x1000000 && v == (w << 8) | b as bv32
    ensures v as nat == w as nat * 0x100 + b as nat
  {
  }

  lemma TwoBytes(b0: Byte, b1: Byte, h: bv32)
    requires h == (b0 as bv32 << 8) | b1 as bv32
    ensures h as nat == b0 as nat * 0x100 + b1 as nat
  {
    ByteIsByte(b0);
    ByteBehind(b0 as bv32, b1, h);
  }

  lemma LastOfThree(b0: Byte, b1: Byte, b2: Byte, h: bv32, t: bv32)
    requires h == (b0 as bv32 << 8) | b1 as bv32
    requires t == (b0 as bv32 << 16) | (b1 as bv32 << 8) | b2 as bv32
    ensures h < 0x1000000 && t == (h << 8) | b2 as bv32
  {
  }

  lemma ThreeBytes(b0: Byte, b1: Byte, b2: Byte, t: bv32)
    requires t == (b0 as bv32 << 16) | (b1 as bv32 << 8) | b2 as bv32
    ensures t as nat == b0 as nat * 0x10000 + b1 as nat * 0x100 + b2 as nat
  {
    var h := (b0 as bv32 << 8) | b1 as bv32;
    TwoBytes(b0, b1, h);
    LastOfThree(b0, b1, b2, h, t);
    ByteBehind(h, b2, t);
  }

  lemma LastOfFour(b0: Byte, b1: Byte, b2: Byte, b3: Byte, t: bv32, w: bv32)
    requires t == (b0 as bv32 << 16) | (b1 as bv32 << 8) | b2 as bv32 && w == WordOf(b0, b1, b2, b3)
    ensures t < 0x1000000 && w == (t << 8) | b3 as bv32
  {
  }

  /** A stored word is the number its four bytes are as a chunk's length: the first byte is
      the highest. */
  lemma WordIsLength(b0: Byte, b1: Byte, b2: Byte, b3: Byte, w: bv32)
    requires w == WordOf(b0, b1, b2, b3)
    ensures w as nat == LengthOf(b0, b1, b2, b3)
  {
    var t := (b0 as bv32 << 16) | (b1 as bv32 << 8) | b2 as bv32;
    ThreeBytes(b0, b1, b2, t);
    LastOfFour(b0, b1, b2, b3, t, w);
    ByteBehind(t, b3, w);
  }

  lemma WordRoundTrip(number: bv32)
    ensures var b := BytesOf(number); WordOf(b[0], b[1], b[2], b[3]) == number
  {
  }

  // Reading a file.

  datatype Option<T> = None | Some(value: T)

  datatype Chunk = Chunk(kind: Bytes, data: Bytes)

  function ChunkLength(bytes: Bytes): nat
    requires |bytes| >= 4
  {
    LengthOf(bytes[0], bytes[1], bytes[2], bytes[3])
  }

  /** The four bytes at this place are the checksum of the chunk's type and data. */
  predicate HasCrc(bytes: Bytes, at: nat)
    requires 8 <= at && at + 4 <= |bytes|
  {
    WordOf(bytes[at], bytes[at + 1], bytes[at + 2], bytes[at + 3]) == SerialCrc(bytes[4..at])
  }

  /** A chunk of n bytes of data stands at the front: length, type, data, and the checksum
      of the last two. */
  predicate IsChunk(bytes: Bytes, n: nat) {
    |bytes| >= 12 + n && ChunkLength(bytes) == n && HasCrc(bytes, 8 + n)
  }

  /** How much data the chunk at the front has, if there is one. */
  function FirstLength(bytes: Bytes): Option<nat> {
    if |bytes| >= 12 && IsChunk(bytes, ChunkLength(bytes)) then Some(ChunkLength(bytes)) else None
  }

  function ChunkOf(bytes: Bytes, n: nat): Chunk
    requires |bytes| >= 12 + n
  {
    Chunk(bytes[4..8], bytes[8..8 + n])
  }

  function Prepend(first: Chunk, rest: Option<seq<Chunk>>): Option<seq<Chunk>> {
    match rest
    case None => None
    case Some(chunks) => Some([first] + chunks)
  }

  /** Chunk after chunk, whatever tells a chunk and its length. */
  function ParseBy(first: Bytes -> Option<nat>, bytes: Bytes): Option<seq<Chunk>>
    decreases |bytes|
  {
    if bytes == [] then Some([])
    else
      match first(bytes)
      case None => None
      case Some(n) =>
        if |bytes| < 12 + n then None else Prepend(ChunkOf(bytes, n), ParseBy(first, bytes[12 + n..]))
  }

  function ParseChunks(bytes: Bytes): Option<seq<Chunk>> { ParseBy(FirstLength, bytes) }

  /** The chunks of a PNG file: a signature and chunks, the first of them a 13-byte IHDR. */
  function ParsePng(file: Bytes): Option<seq<Chunk>> {
    if |file| < 8 || file[..8] != SIGNATURE then None
    else
      match ParseChunks(file[8..])
      case None => None
      case Some(chunks) =>
        if chunks == [] || chunks[0].kind != IHDR || |chunks[0].data| != 13 then None else Some(chunks)
  }

  // The comment.

  /** appendIntToVector. */
  method AppendInt(number: bv32, vector0: Bytes) returns (vector: Bytes)
    ensures vector == vector0 + BytesOf(number)
  {
    var offset := |vector0|;
    vector := vector0 + [0, 0, 0, 0];
    vector := vector[offset := ((number >> 24) & 0xff) as bv8];
    vector := vector[offset + 1 := ((number >> 16) & 0xff) as bv8];
    vector := vector[offset + 2 := ((number >> 8) & 0xff) as bv8];
    vector := vector[offset + 3 := (number & 0xff) as bv8];
  }

  function Comment(checksum: Bytes): (b: Bytes)
    requires |checksum| == CHECKSUM_LENGTH
    ensures |b| == 53
  {
    TEXT_COMMENT_PREFIX + checksum + BytesOf(SerialCrc(TEXT_COMMENT_PREFIX[4..] + checksum))
  }

  method ConvertChecksumToPNGComment(checksum: Bytes) returns (bytesToAdd: Bytes)
    requires |checksum| == CHECKSUM_LENGTH
    ensures bytesToAdd == Comment(checksum)
  {
    bytesToAdd := TEXT_COMMENT_PREFIX + checksum;
    var dataToCrc := TEXT_COMMENT_PREFIX[4..] + checksum;
    var crc32 := ComputeCrc(dataToCrc);
    bytesToAdd := AppendInt(crc32, bytesToAdd);
  }

  lemma PrefixParts()
    ensures LengthOf(0x00, 0x00, 0x00, 0x29) == 41
    ensures TEXT_COMMENT_PREFIX[4..] == TEXT + CHECKSUM_KEYWORD
  {
  }

  lemma CommentLayout(checksum: Bytes, w: Bytes, rest: Bytes, bytes: Bytes)
    requires |checksum| == CHECKSUM_LENGTH && |w| == 4 && bytes == TEXT_COMMENT_PREFIX + checksum + w + rest
    ensures |bytes| == 53 + |rest| && ChunkLength(bytes) == 41
    ensures bytes[4..49] == TEXT_COMMENT_PREFIX[4..] + checksum
    ensures bytes[49] == w[0] && bytes[50] == w[1] && bytes[51] == w[2] && bytes[52] == w[3]
    ensures bytes[53..] == rest
  {
    PrefixParts();
  }

  lemma CommentContents(checksum: Bytes, bytes: Bytes)
    requires |bytes| >= 53 && bytes[4..49] == TEXT_COMMENT_PREFIX[4..] + checksum
    ensures bytes[4..8] == TEXT && bytes[8..49] == CHECKSUM_KEYWORD + checksum
  {
    PrefixParts();
    assert bytes[4..8] == bytes[4..49][..4];
    assert bytes[8..49] == bytes[4..49][4..];
    assert TEXT + CHECKSUM_KEYWORD + checksum == TEXT + (CHECKSUM_KEYWORD + checksum);
  }

  /** The comment is one well-formed tEXt chunk: 41 bytes of data, keyword, separator and
      checksum, with the right CRC, whatever follows. */
  lemma CommentIsChunk(checksum: Bytes, rest: Bytes, bytes: Bytes)
    requires |checksum| == CHECKSUM_LENGTH && bytes == Comment(checksum) + rest
    ensures IsChunk(bytes, 41) && ChunkOf(bytes, 41) == Chunk(TEXT, CHECKSUM_KEYWORD + checksum) && bytes[53..] == rest
  {
    var crc := SerialCrc(TEXT_COMMENT_PREFIX[4..] + checksum);
    CommentLayout(checksum, BytesOf(crc), rest, bytes);
    CommentContents(checksum, bytes);
    WordRoundTrip(crc);
  }

  lemma ParseByFirst(first: Bytes -> Option<nat>, bytes: Bytes, n: nat, rest: Bytes)
    requires |bytes| >= 12 + n && first(bytes) == Some(n) && rest == bytes[12 + n..]
    ensures ParseBy(first, bytes) == Prepend(ChunkOf(bytes, n), ParseBy(first, rest))
  {
  }

  lemma ParseFirst(bytes: Bytes, n: nat, rest: Bytes)
    requires IsChunk(bytes, n) && rest == bytes[12 + n..]
    ensures ParseChunks(bytes) == Prepend(ChunkOf(bytes, n), ParseChunks(rest))
  {
    assert FirstLength(bytes) == Some(n);
    ParseByFirst(FirstLength, bytes, n, rest);
  }

  lemma CommentParses(checksum: Bytes, rest: Bytes)
    requires |checksum| == CHECKSUM_LENGTH
    ensures ParseChunks(Comment(checksum) + rest) == Prepend(Chunk(TEXT, CHECKSUM_KEYWORD + checksum), ParseChunks(rest))
  {
    CommentIsChunk(checksum, rest, Comment(checksum) + rest);
    ParseFirst(Comment(checksum) + rest, 41, rest);
  }

  // The splice.

  function Spliced(data: Bytes, checksum: Bytes): (file: Bytes)
    requires |data| >= INSERT_OFFSET && |checksum| == CHECKSUM_LENGTH
    ensures |file| == |data| + 53
  {
    data[..INSERT_OFFSET] + Comment(checksum) + data[INSERT_OFFSET..]
  }

  lemma Unprepended(first: Chunk, rest: Option<seq<Chunk>>, chunks: seq<Chunk>)
    requires Prepend(first, rest) == Some(chunks)
    ensures chunks != [] && chunks[0] == first && rest == Some(chunks[1..])
  {
  }

  lemma FirstFits(first: Bytes -> Option<nat>, bytes: Bytes, chunks: seq<Chunk>) returns (n: nat)
    requires ParseBy(first, bytes) == Some(chunks) && chunks != []
    ensures first(bytes) == Some(n) && |bytes| >= 12 + n
  {
    n := first(bytes).value;
  }

  lemma TailParsesBy(first: Bytes -> Option<nat>, bytes: Bytes, chunks: seq<Chunk>)
    requires ParseBy(first, bytes) == Some(chunks) && chunks != [] && |chunks[0].data| == 13
    ensures |bytes| >= 25 && first(bytes) == Some(13)
    ensures chunks[0] == ChunkOf(bytes, 13) && ParseBy(first, bytes[25..]) == Some(chunks[1..])
  {
    var n := FirstFits(first, bytes, chunks);
    ParseByFirst(first, bytes, n, bytes[12 + n..]);
    Unprepended(ChunkOf(bytes, n), ParseBy(first, bytes[12 + n..]), chunks);
  }

  lemma TailParses(bytes: Bytes, chunks: seq<Chunk>)
    requires ParseChunks(bytes) == Some(chunks) && chunks != [] && |chunks[0].data| == 13
    ensures IsChunk(bytes, 13) && chunks[0] == ChunkOf(bytes, 13) && ParseChunks(bytes[25..]) == Some(chunks[1..])
  {
    TailParsesBy(FirstLength, bytes, chunks);
  }

  /** The first chunk can be followed by anything. */
  lemma FirstChunk(bytes: Bytes, chunks: seq<Chunk>, rest: Bytes)
    requires ParseChunks(bytes) == Some(chunks) && chunks != [] && |chunks[0].data| == 13
    ensures |bytes| >= 25 && ParseChunks(bytes[..25] + rest) == Prepend(chunks[0], ParseChunks(rest))
  {
    TailParses(bytes, chunks);
    SameFirst(bytes, bytes[..25] + rest, rest);
    ParseFirst(bytes[..25] + rest, 13, rest);
  }

  lemma SameFirst(bytes: Bytes, other: Bytes, rest: Bytes)
    requires IsChunk(bytes, 13) && other == bytes[..25] + rest
    ensures IsChunk(other, 13) && ChunkOf(other, 13) == ChunkOf(bytes, 13) && other[25..] == rest
  {
    assert other[4..21] == bytes[4..21];
    assert other[4..8] == bytes[4..8] && other[8..21] == bytes[8..21];
  }

  lemma SplicedBody(data: Bytes, checksum: Bytes)
    requires |data| >= INSERT_OFFSET && |checksum| == CHECKSUM_LENGTH
    ensures Spliced(data, checksum)[..8] == data[..8]
    ensures Spliced(data, checksum)[8..] == data[8..][..25] + (Comment(checksum) + data[8..][25..])
  {
    assert data[8..][..25] == data[..INSERT_OFFSET][8..];
    assert data[8..][25..] == data[INSERT_OFFSET..];
  }

  lemma PrependTwo(first: Chunk, second: Chunk, rest: seq<Chunk>)
    ensures Prepend(first, Prepend(second, Some(rest))) == Some([first, second] + rest)
  {
    assert [first] + ([second] + rest) == [first, second] + rest;
  }

  lemma BodyParses(body: Bytes, checksum: Bytes, chunks: seq<Chunk>, text: Chunk)
    requires ParseChunks(body) == Some(chunks) && chunks != [] && |chunks[0].data| == 13
    requires |checksum| == CHECKSUM_LENGTH && text == Chunk(TEXT, CHECKSUM_KEYWORD + checksum)
    ensures |body| >= 25
    ensures ParseChunks(body[..25] + (Comment(checksum) + body[25..])) == Some([chunks[0], text] + chunks[1..])
  {
    TailParses(body, chunks);
    CommentParses(checksum, body[25..]);
    FirstChunk(body, chunks, Comment(checksum) + body[25..]);
    PrependTwo(chunks[0], text, chunks[1..]);
  }

  /** The output is the same PNG with one more chunk right behind IHDR. */
  lemma SpliceParses(data: Bytes, checksum: Bytes, chunks: seq<Chunk>)
    requires ParsePng(data) == Some(chunks) && |checksum| == CHECKSUM_LENGTH
    ensures |data| >= INSERT_OFFSET
    ensures ParsePng(Spliced(data, checksum))
            == Some([chunks[0], Chunk(TEXT, CHECKSUM_KEYWORD + checksum)] + chunks[1..])
  {
    BodyParses(data[8..], checksum, chunks, Chunk(TEXT, CHECKSUM_KEYWORD + checksum));
    SplicedBody(data, checksum);
  }

  // Writing.

  /** What standard output does: of the data of its i-th write it takes as many bytes as
      `accepts(i)` allows. A write may fall short and the next one succeed. */
  type Device = nat -> nat

  function Taken(accepts: Device, call: nat, data: Bytes): (n: nat)
    ensures n <= |data|
  {
    if |data| <= accepts(call) then |data| else accepts(call)
  }

  /** How much of the data the loop gets out: blocks until one is not taken whole. */
  function TakenInBlocks(accepts: Device, call: nat, data: Bytes): (n: nat)
    ensures n <= |data|
    decreases |data|
  {
    if data == [] then 0
    else
      var size := if |data| < BLOCK then |data| else BLOCK;
      var n := Taken(accepts, call, data[..size]);
      if n < size then n else size + TakenInBlocks(accepts, call + 1, data[size..])
  }

  class Output {
    const accepts: Device
    var written: Bytes
    var calls: nat

    constructor (accepts: Device)
      ensures this.accepts == accepts && written == [] && calls == 0
    {
      this.accepts := accepts;
      written := [];
      calls := 0;
    }

    /** fwrite: how many of the bytes were taken. */
    method Fwrite(data: Bytes) returns (n: nat)
      modifies this
      ensures n == Taken(accepts, old(calls), data)
      ensures written == old(written) + data[..n] && calls == old(calls) + 1
    {
      n := Taken(accepts, calls, data);
      written := written + data[..n];
      calls := calls + 1;
    }
  }

  lemma NextBlock(accepts: Device, call: nat, data: Bytes, offset: nat, size: nat)
    requires offset < |data| && size == if |data| - offset < BLOCK then |data| - offset else BLOCK
    ensures var n := Taken(accepts, call, data[offset..offset + size]);
            TakenInBlocks(accepts, call, data[offset..])
            == if n < size then n else size + TakenInBlocks(accepts, call + 1, data[offset + size..])
  {
    assert data[offset..][..size] == data[offset..offset + size];
    assert data[offset..][size..] == data[offset + size..];
  }

  /** One round: the data written so far is the beginning up to the new offset. */
  method WriteBlock(data: Bytes, offset: nat, now: nat, out: Output, ghost start: Bytes) returns (bytesWritten: nat)
    requires offset + now <= |data| && out.written == start + data[..offset]
    modifies out
    ensures bytesWritten == Taken(out.accepts, old(out.calls), data[offset..offset + now])
    ensures out.calls == old(out.calls) + 1 && out.written == start + data[..offset + bytesWritten]
  {
    bytesWritten := out.Fwrite(data[offset..offset + now]);
    assert data[..offset] + data[offset..offset + now][..bytesWritten] == data[..offset + bytesWritten];
  }

  /** The loop of printPNG. */
  method WriteBlocks(data: Bytes, out: Output)
    modifies out
    ensures out.written == old(out.written) + data[..TakenInBlocks(out.accepts, old(out.calls), data)]
  {
    var offset, remaining := 0, |data|;
    ghost var start, total := out.written, TakenInBlocks(out.accepts, out.calls, data);
    assert data[0..] == data;
    while remaining > 0
      invariant 0 <= offset && 0 <= remaining && offset + remaining == |data|
      invariant out.written == start + data[..offset]
      invariant offset + TakenInBlocks(out.accepts, out.calls, data[offset..]) == total
    {
      var now := if remaining < BLOCK then remaining else BLOCK;
      NextBlock(out.accepts, out.calls, data, offset, now);
      var bytesWritten := WriteBlock(data, offset, now, out, start);
      if bytesWritten != now {
        return;
      }
      remaining := remaining - bytesWritten;
      offset := offset + bytesWritten;
    }
  }

  /** What is written if the device takes this much of the three parts. */
  function Parts(data: Bytes, comment: Bytes, f: nat, c: nat, r: nat): Bytes
    requires |data| >= INSERT_OFFSET && f <= INSERT_OFFSET && c <= |comment| && r <= |data| - INSERT_OFFSET
  {
    data[..INSERT_OFFSET][..f] + comment[..c] + data[INSERT_OFFSET..][..r]
  }

  function PartsTaken(data: Bytes, comment: Bytes, accepts: Device, call: nat): Bytes
    requires |data| >= INSERT_OFFSET
  {
    Parts(data, comment, Taken(accepts, call, data[..INSERT_OFFSET]), Taken(accepts, call + 1, comment),
          TakenInBlocks(accepts, call + 2, data[INSERT_OFFSET..]))
  }

  lemma Behind(s: Bytes, a: Bytes, b: Bytes, c: Bytes)
    ensures s + a + b + c == s + (a + b + c)
  {
  }

  /** The three parts in turn, the results of the first two writes ignored. */
  method WriteParts(data: Bytes, comment: Bytes, out: Output)
    requires |data| >= INSERT_OFFSET
    modifies out
    ensures out.written == old(out.written) + PartsTaken(data, comment, out.accepts, old(out.calls))
  {
    var front, rest := data[..INSERT_OFFSET], data[INSERT_OFFSET..];
    ghost var start, r := out.written, TakenInBlocks(out.accepts, out.calls + 2, rest);
    var f := out.Fwrite(front);
    var c := out.Fwrite(comment);
    WriteBlocks(rest, out);
    Behind(start, front[..f], comment[..c], rest[..r]);
  }

  // What the device has to take.

  /** Block j of n bytes is taken whole. */
  predicate BlockWhole(accepts: Device, call: nat, n: nat, j: nat) {
    var rest := n - 0x8000 * j;
    rest > 0 ==> accepts(call + j) >= (if rest < 0x8000 then rest else 0x8000)
  }

  ghost predicate BlocksWhole(accepts: Device, call: nat, n: nat) {
    forall j: nat :: BlockWhole(accepts, call, n, j)
  }

  lemma NextBlockWhole(accepts: Device, call: nat, n: nat, j: nat)
    requires n >= 0x8000
    ensures BlockWhole(accepts, call + 1, n - 0x8000, j) <==> BlockWhole(accepts, call, n, j + 1)
  {
    assert call + 1 + j == call + (j + 1);
  }

  lemma OtherBlocks(accepts: Device, call: nat, n: nat)
    requires n >= 0x8000
    ensures BlocksWhole(accepts, call, n) <==> BlockWhole(accepts, call, n, 0) && BlocksWhole(accepts, call + 1, n - 0x8000)
  {
    if BlocksWhole(accepts, call, n) {
      var next, rest := call + 1, n - 0x8000;
      forall j: nat ensures BlockWhole(accepts, next, rest, j) {
        NextBlockWhole(accepts, call, n, j);
        assert BlockWhole(accepts, call, n, j + 1);
      }
    }
    if BlockWhole(accepts, call, n, 0) && BlocksWhole(accepts, call + 1, n - 0x8000) {
      forall j: nat ensures BlockWhole(accepts, call, n, j) {
        if j > 0 {
          NextBlockWhole(accepts, call, n, j - 1);
          assert BlockWhole(accepts, call + 1, n - 0x8000, j - 1);
        }
      }
    }
  }

  lemma LastBlock(accepts: Device, call: nat, n: nat)
    requires n < 0x8000
    ensures BlocksWhole(accepts, call, n) <==> BlockWhole(accepts, call, n, 0)
  {
  }

  /** The loop gets everything out exactly if each block of 0x8000 bytes is taken whole. */
  lemma {:induction false} AllBlocks(accepts: Device, call: nat, data: Bytes)
    ensures TakenInBlocks(accepts, call, data) == |data| <==> BlocksWhole(accepts, call, |data|)
    decreases |data|
  {
    if |data| < 0x8000 {
      LastBlock(accepts, call, |data|);
      assert data[..|data|] == data;
      assert TakenInBlocks(accepts, call + 1, data[|data|..]) == 0;
    } else {
      OtherBlocks(accepts, call, |data|);
      AllBlocks(accepts, call + 1, data[0x8000..]);
    }
  }

  /** The first block that is not taken whole ends the loop. */
  lemma {:induction false} StopsAtShort(accepts: Device, call: nat, data: Bytes, j: nat)
    requires !BlockWhole(accepts, call, |data|, j) && forall i: nat :: i < j ==> BlockWhole(accepts, call, |data|, i)
    ensures TakenInBlocks(accepts, call, data) == 0x8000 * j + accepts(call + j)
    decreases j
  {
    if j == 0 {
      assert data[..|data|] == data;
    } else {
      var next, rest := call + 1, data[0x8000..];
      assert BlockWhole(accepts, call, |data|, 0);
      NextBlockWhole(accepts, call, |data|, j - 1);
      forall i: nat | i < j - 1 ensures BlockWhole(accepts, next, |rest|, i) {
        NextBlockWhole(accepts, call, |data|, i);
        assert BlockWhole(accepts, call, |data|, i + 1);
      }
      StopsAtShort(accepts, next, rest, j - 1);
    }
  }

  /** From this call on the device takes whole the beginning, the comment and each block. */
  ghost predicate TakesWhole(accepts: Device, call: nat, n: nat) {
    TakesFront(accepts, call) && (n >= 33 ==> BlocksWhole(accepts, call + 2, n - 33))
  }

  predicate TakesFront(accepts: Device, call: nat) { accepts(call) >= 33 && accepts(call + 1) >= 53 }

  /** What is written, against the file it should be. */
  predicate IsWritten(out: Bytes, whole: Bytes, taken: bool, begun: bool) {
    (out == whole <==> taken) && (|out| == |whole| <==> taken) && (begun ==> out <= whole)
  }

  lemma WrittenBehind(start: Bytes, part: Bytes, out: Bytes, whole: Bytes, taken: bool, begun: bool)
    requires IsWritten(part, whole, taken, begun) && out == start + part
    ensures out == start + whole <==> taken
    ensures |out| == |start| + |whole| <==> taken
    ensures begun ==> out <= start + whole
  {
    assert part == out[|start|..];
    assert whole == (start + whole)[|start|..];
  }

  lemma WholeIsTaken(data: Bytes, checksum: Bytes, accepts: Device, call: nat)
    requires |data| >= INSERT_OFFSET && |checksum| == CHECKSUM_LENGTH
    ensures IsWritten(PartsTaken(data, Comment(checksum), accepts, call), Spliced(data, checksum),
                      TakesWhole(accepts, call, |data|), TakesFront(accepts, call))
  {
    var front, comment, rest := data[..INSERT_OFFSET], Comment(checksum), data[INSERT_OFFSET..];
    var f, c, r := Taken(accepts, call, front), Taken(accepts, call + 1, comment), TakenInBlocks(accepts, call + 2, rest);
    AllBlocks(accepts, call + 2, rest);
    AllIsAnnounced(data, checksum, f, c, r);
    if f == 33 && c == 53 {
      ShortIsBeginning(data, checksum, r);
    }
  }

  /** The file with the comment in it comes out exactly if the device takes every write
      whole. The results of the first two writes are ignored, so a short one leaves a gap;
      the loop stops at a short block. */
  predicate IsPrinted(data: Bytes, checksum: Bytes, start: Bytes, out: Bytes, taken: bool, begun: bool)
    requires |data| >= INSERT_OFFSET && |checksum| == CHECKSUM_LENGTH
  {
    var whole := Spliced(data, checksum);
    && (out == start + whole <==> taken)
    && (|out| == |start| + |whole| <==> taken)
    && (begun ==> out <= start + whole)
  }

  lemma Printed(data: Bytes, checksum: Bytes, accepts: Device, call: nat, start: Bytes, out: Bytes)
    requires |data| >= INSERT_OFFSET && |checksum| == CHECKSUM_LENGTH
    requires out == start + PartsTaken(data, Comment(checksum), accepts, call)
    ensures IsPrinted(data, checksum, start, out, TakesWhole(accepts, call, |data|), TakesFront(accepts, call))
  {
    WholeIsTaken(data, checksum, accepts, call);
    WrittenBehind(start, PartsTaken(data, Comment(checksum), accepts, call), out, Spliced(data, checksum),
                  TakesWhole(accepts, call, |data|), TakesFront(accepts, call));
  }

  /** printPNG. The length announced is that of the whole output. */
  method PrintPNG(data: Bytes, checksum: Bytes, out: Output) returns (announced: nat)
    requires |data| >= INSERT_OFFSET && |checksum| == CHECKSUM_LENGTH
    modifies out
    ensures announced == |Spliced(data, checksum)|
    ensures out.written == old(out.written) + PartsTaken(data, Comment(checksum), out.accepts, old(out.calls))
    ensures IsPrinted(data, checksum, old(out.written), out.written,
                      TakesWhole(out.accepts, old(out.calls), |data|), TakesFront(out.accepts, old(out.calls)))
  {
    var bytesToAdd := ConvertChecksumToPNGComment(checksum);
    announced := |data| + |bytesToAdd|;
    WriteParts(data, bytesToAdd, out);
    Printed(data, checksum, out.accepts, old(out.calls), old(out.written), out.written);
  }

  /** As many bytes come out as were announced exactly if every part was taken whole, and
      then they are the spliced file. */
  lemma AllIsAnnounced(data: Bytes, checksum: Bytes, f: nat, c: nat, r: nat)
    requires |data| >= INSERT_OFFSET && |checksum| == CHECKSUM_LENGTH
    requires f <= INSERT_OFFSET && c <= 53 && r <= |data| - INSERT_OFFSET
    ensures var out, whole := Parts(data, Comment(checksum), f, c, r), Spliced(data, checksum);
            && (|out| == |whole| <==> f == INSERT_OFFSET && c == 53 && r == |data| - INSERT_OFFSET)
            && (|out| == |whole| ==> out == whole)
  {
    AllOfParts(data, Comment(checksum));
  }

  lemma AllOfParts(data: Bytes, comment: Bytes)
    requires |data| >= INSERT_OFFSET
    ensures Parts(data, comment, INSERT_OFFSET, |comment|, |data| - INSERT_OFFSET)
            == data[..INSERT_OFFSET] + comment + data[INSERT_OFFSET..]
  {
    assert comment[..|comment|] == comment;
    assert data[..INSERT_OFFSET][..INSERT_OFFSET] == data[..INSERT_OFFSET];
  }

  /** If the first two writes are taken whole, what comes out is a beginning of the file. */
  lemma ShortIsBeginning(data: Bytes, checksum: Bytes, r: nat)
    requires |data| >= INSERT_OFFSET && |checksum| == CHECKSUM_LENGTH && r <= |data| - INSERT_OFFSET
    ensures Parts(data, Comment(checksum), INSERT_OFFSET, 53, r) <= Spliced(data, checksum)
  {
    BeginningOfParts(data, Comment(checksum), r);
  }

  lemma BeginningOfParts(data: Bytes, comment: Bytes, r: nat)
    requires |data| >= INSERT_OFFSET && r <= |data| - INSERT_OFFSET
    ensures Parts(data, comment, INSERT_OFFSET, |comment|, r) <= data[..INSERT_OFFSET] + comment + data[INSERT_OFFSET..]
  {
    var front := data[..INSERT_OFFSET] + comment;
    assert comment[..|comment|] == comment;
    assert Parts(data, comment, INSERT_OFFSET, |comment|, r) == front + data[INSERT_OFFSET..][..r];
  }
}
