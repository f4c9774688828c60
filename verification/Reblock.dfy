/**
 * Re-framing of received bytes into blocks of a fixed size: the specification
 * shared by IHttpReader::procBlocks and HttpChunked::procChunkedBlocks, and the
 * class IHttpReader.  A `char` stands for one byte.
 */
module Reblock {
  import opened Common

  /** Full blocks produced, and the bytes still pending. */
  datatype Framed = Framed(blocks: seq<string>, pending: string)

  function Flatten(blocks: seq<string>): (s: string) {
    if blocks == [] then "" else blocks[0] + Flatten(blocks[1..])
  }

  /** Cuts `pending + data` into blocks of `b` bytes. */
  function Feed(b: nat, pending: string, data: string): (r: Framed)
    requires b > 0
    decreases |pending| + |data|
  {
    var all := pending + data;
    if |all| < b then Framed([], all)
    else
      var rest := Feed(b, "", all[b..]);
      Framed([all[..b]] + rest.blocks, rest.pending)
  }

  /** Nothing is lost or reordered, every block is full, and less than a block stays pending. */
  lemma {:induction false} FeedConserves(b: nat, pending: string, data: string)
    requires b > 0
    ensures var r := Feed(b, pending, data);
            && Flatten(r.blocks) + r.pending == pending + data
            && (forall k :: 0 <= k < |r.blocks| ==> |r.blocks[k]| == b)
            && |r.pending| < b
    decreases |pending| + |data|
  {
    var all := pending + data;
    if |all| >= b {
      FeedConserves(b, "", all[b..]);
      var rest := Feed(b, "", all[b..]);
      FlattenCons(all[..b], rest.blocks);
      SameParts(all, b, Flatten(rest.blocks), rest.pending);
    }
  }

  lemma {:induction false} FlattenCons(block: string, blocks: seq<string>)
    ensures Flatten([block] + blocks) == block + Flatten(blocks)
  {
    assert ([block] + blocks)[1..] == blocks;
  }

  lemma {:induction false} SameParts(all: string, b: nat, blocks: string, pending: string)
    requires b <= |all| && blocks + pending == "" + all[b..]
    ensures all[..b] + blocks + pending == all
  {
    assert all[..b] + blocks + pending == all[..b] + (blocks + pending);
  }

  /** Feeding two pieces one after the other is feeding them at once. */
  lemma {:induction false} FeedAppend(b: nat, pending: string, u: string, v: string)
    requires b > 0
    ensures var r := Feed(b, pending, u);
            var s := Feed(b, r.pending, v);
            Feed(b, pending, u + v) == Framed(r.blocks + s.blocks, s.pending)
    decreases |pending| + |u|
  {
    var all := pending + u;
    assert pending + (u + v) == all + v;
    if |all| < b {
      assert [] + Feed(b, all, v).blocks == Feed(b, all, v).blocks;
    } else {
      FeedAppend(b, "", all[b..], v);
      assert (all + v)[..b] == all[..b] && (all + v)[b..] == all[b..] + v;
      var rest := Feed(b, "", all[b..]);
      var s := Feed(b, rest.pending, v);
      assert [all[..b]] + (rest.blocks + s.blocks) == [all[..b]] + rest.blocks + s.blocks;
    }
  }

  lemma {:induction false} FlattenAppend(u: seq<string>, v: seq<string>)
    ensures Flatten(u + v) == Flatten(u) + Flatten(v)
  {
    if u == [] {
      assert u + v == v;
    } else {
      FlattenAppend(u[1..], v);
      assert (u + v)[1..] == u[1..] + v;
      assert u[0] + (Flatten(u[1..]) + Flatten(v)) == u[0] + Flatten(u[1..]) + Flatten(v);
    }
  }

  /** One turn of the loop: the buffer is filled up to a block and delivered. */
  lemma {:induction false} FeedStep(b: nat, pending: string, data: string)
    requires 0 < b && |pending| <= b && b - |pending| <= |data|
    ensures var n := b - |pending|;
            var rest := Feed(b, "", data[n..]);
            Feed(b, pending, data) == Framed([pending + data[..n]] + rest.blocks, rest.pending)
  {
    var n := b - |pending|;
    var all := pending + data;
    assert all[..b] == pending + data[..n] && all[b..] == data[n..];
  }

  /** size_t arithmetic of `block size - buffered length`. */
  function Room(b: nat, buffered: nat): (r: nat) {
    (b - buffered) % TWO_64
  }

  /**
   * What one call of procBlocks delivers and leaves pending.  Pending bytes that fit a
   * block are cut as specified, and flushed at the end.  More than a block makes the
   * room wrap around: nothing is delivered before the end, then all of it at once.
   */
  function Cut(b: nat, pending: string, data: string, isended: bool): (r: Framed)
    requires b > 0
  {
    if |pending| <= b then
      var r := Feed(b, pending, data);
      if isended then Framed(r.blocks + [r.pending], "") else r
    else if isended then Framed([pending], "")
    else Framed([], pending + data)
  }

  lemma {:induction false} CutConserves(b: nat, pending: string, data: string, isended: bool)
    requires b > 0 && (isended ==> data == "")
    ensures var r := Cut(b, pending, data, isended);
            && Flatten(r.blocks) + r.pending == pending + data
            && (!isended ==> forall k :: 0 <= k < |r.blocks| ==> |r.blocks[k]| == b)
  {
    if |pending| <= b {
      FeedConserves(b, pending, data);
      var r := Feed(b, pending, data);
      FlattenOne(r.blocks, r.pending);
    } else {
      FlattenOne([], pending);
      assert [] + [pending] == [pending];
    }
  }

  /** The result of the loop when `blocks` are already delivered. */
  ghost function CutAfter(b: nat, blocks: seq<string>, pending: string, data: string, isended: bool): (r: Framed)
    requires b > 0
    ensures blocks == [] ==> r == Cut(b, pending, data, isended)
  {
    var rest := Cut(b, pending, data, isended);
    Framed(blocks + rest.blocks, rest.pending)
  }

  /** The turn of the loop that does not fill a block. */
  lemma {:induction false} CutShort(b: nat, blocks: seq<string>, pending: string, data: string, isended: bool)
    requires b > 0 && |pending| + |data| + b < TWO_64 && Room(b, |pending|) > |data| && (isended ==> data == "")
    ensures CutAfter(b, blocks, pending, data, isended)
         == if isended then Framed(blocks + [pending], "") else Framed(blocks, pending + data)
  {
    if |pending| <= b {
      assert Feed(b, pending, data) == Framed([], pending + data);
      assert isended ==> pending + data == pending;
    }
    assert blocks + [] == blocks;
  }

  /** The turn that does. */
  lemma {:induction false} CutFull(b: nat, blocks: seq<string>, pending: string, data: string, isended: bool)
    requires b > 0 && |pending| + |data| + b < TWO_64 && Room(b, |pending|) <= |data|
    ensures var n := Room(b, |pending|);
            && n == b - |pending|
            && CutAfter(b, blocks + [pending + data[..n]], "", data[n..], isended)
               == CutAfter(b, blocks, pending, data, isended)
            && (n == 0 ==> pending + data[..n] == pending)
  {
    assert |pending| <= b;
    FeedStep(b, pending, data);
    var n := b - |pending|;
    var rest := Feed(b, "", data[n..]);
    var one := [pending + data[..n]];
    assert blocks + (one + rest.blocks) == blocks + one + rest.blocks;
    assert blocks + (one + rest.blocks + [rest.pending]) == blocks + one + (rest.blocks + [rest.pending]);
  }

  /** Lengths and contents when a tail of blocks is put behind earlier bytes. */
  lemma {:induction false} SameTotal(before: string, blocks: string, left: string, pending: string, data: string)
    requires blocks + left == pending + data
    ensures |blocks| + |left| == |pending| + |data|
    ensures before + blocks + left == before + pending + data
  {
    assert |blocks + left| == |pending + data|;
    assert before + blocks + left == before + (blocks + left);
    assert before + pending + data == before + (pending + data);
  }

  lemma {:induction false} FlattenOne(blocks: seq<string>, block: string)
    ensures Flatten(blocks + [block]) == Flatten(blocks) + block
  {
    FlattenAppend(blocks, [block]);
    assert Flatten([block]) == block + "";
  }

  // ------------------------------------------------------------- IHttpReader

  /**
   * IHttpReader over the fields of its round.  `delivered` is what the listener got;
   * callbacks succeed.
   */
  class HttpReader {
    const blockSize: nat
    const contentLength: nat   // m_uContentLength
    var recvContentLength: nat
    var readerBuffer: string   // m_sReaderBuffer
    var recvBuffer: string     // m_sRecvBuffer, bytes read together with the header
    var delivered: seq<string>

    constructor (blockSize: nat, contentLength: nat, recvBuffer: string)
      ensures this.blockSize == blockSize && this.contentLength == contentLength
      ensures this.recvBuffer == recvBuffer && readerBuffer == "" && delivered == [] && recvContentLength == 0
    {
      this.blockSize, this.contentLength, this.recvBuffer := blockSize, contentLength, recvBuffer;
      recvContentLength, readerBuffer, delivered := 0, "", [];
    }

    /** Every byte received so far is delivered or pending, and counted. */
    ghost predicate Counted()
      reads this
    {
      recvContentLength == |Flatten(delivered)| + |readerBuffer|
    }

    /** IHttpReader::reset. */
    method Reset()
      requires Counted()
      modifies this
      ensures Counted() && delivered == old(delivered)
      ensures old(recvContentLength) == 0 ==> readerBuffer == old(recvBuffer) && recvBuffer == ""
      ensures old(recvContentLength) != 0 ==> readerBuffer == old(readerBuffer) && recvBuffer == old(recvBuffer)
    {
      if recvContentLength == 0 {
        recvContentLength := |recvBuffer|;
        readerBuffer := recvBuffer;
        recvBuffer := "";
      }
    }

    /** IHttpReader::procBlocks. */
    method ProcBlocks(buffer: string, isended: bool)
      requires Counted() && |readerBuffer| + |buffer| + blockSize < TWO_64
      requires isended ==> buffer == ""
      modifies this`recvContentLength, this`readerBuffer, this`delivered
      ensures Counted() && old(delivered) <= delivered
      ensures blockSize > 0 ==> Flatten(delivered) + readerBuffer == old(Flatten(delivered) + readerBuffer) + buffer
      ensures blockSize > 0 ==>
                Cut(blockSize, old(readerBuffer), buffer, isended)
                == Framed(delivered[|old(delivered)|..], readerBuffer)
      ensures recvContentLength == old(recvContentLength) + |buffer|
      // a block size of zero passes every piece on as it comes, behind whatever is pending
      ensures blockSize == 0 ==> delivered == old(delivered) + [buffer] && readerBuffer == old(readerBuffer)
    {
      recvContentLength := recvContentLength + |buffer|;
      if blockSize == 0 {
        FlattenOne(delivered, buffer);
        delivered := delivered + [buffer];
        return;
      }
      ghost var blocks := DeliverBlocks(buffer, isended);
      CutConserves(blockSize, old(readerBuffer), buffer, isended);
      FlattenAppend(old(delivered), blocks);
      SameTotal(old(Flatten(delivered)), Flatten(blocks), readerBuffer, old(readerBuffer), buffer);
    }

    /** The loop of procBlocks. */
    method DeliverBlocks(buffer: string, isended: bool) returns (ghost blocks: seq<string>)
      requires blockSize > 0 && |readerBuffer| + |buffer| + blockSize < TWO_64
      requires isended ==> buffer == ""
      modifies this`readerBuffer, this`delivered
      ensures Cut(blockSize, old(readerBuffer), buffer, isended) == Framed(blocks, readerBuffer)
      ensures delivered == old(delivered) + blocks
    {
      hide Cut, CutAfter;
      var b := blockSize;
      var offset: nat, size: nat := 0, |buffer|;
      blocks := [];
      assert buffer[0..] == buffer;
      while true
        invariant offset + size == |buffer|
        invariant delivered == old(delivered) + blocks
        invariant |readerBuffer| + b + size < TWO_64
        invariant CutAfter(b, blocks, readerBuffer, buffer[offset..], isended)
               == Cut(b, old(readerBuffer), buffer, isended)
        decreases size, |readerBuffer|
      {
        var room := Room(b, |readerBuffer|);
        if room > size {
          CutShort(b, blocks, readerBuffer, buffer[offset..], isended);
          if isended {
            delivered := delivered + [readerBuffer];
            blocks := blocks + [readerBuffer];
            readerBuffer := "";
          } else {
            readerBuffer := readerBuffer + buffer[offset..offset + size];
          }
          return;
        }
        CutFull(b, blocks, readerBuffer, buffer[offset..], isended);
        assert buffer[offset..][room..] == buffer[offset + room..];
        assert buffer[offset..][..room] == buffer[offset..offset + room];
        if room > 0 {
          readerBuffer := readerBuffer + buffer[offset..offset + room];
        }
        delivered := delivered + [readerBuffer];
        blocks := blocks + [readerBuffer];
        readerBuffer := "";
        offset := offset + room;
        size := size - room;
      }
    }

    /** IHttpReader::readLastBlocks: flushes when the announced length has arrived. */
    method ReadLastBlocks() returns (complete: bool)
      requires Counted() && |readerBuffer| + blockSize < TWO_64
      modifies this`recvContentLength, this`readerBuffer, this`delivered
      ensures Counted()
      ensures complete <==> old(recvContentLength) == contentLength
      ensures !complete ==> delivered == old(delivered) && readerBuffer == old(readerBuffer)
      ensures complete && blockSize > 0 ==>
                readerBuffer == "" && Flatten(delivered) == old(Flatten(delivered) + readerBuffer)
      ensures complete && blockSize > 0 ==>
                old(delivered) <= delivered
                && Cut(blockSize, old(readerBuffer), "", true) == Framed(delivered[|old(delivered)|..], "")
      ensures recvContentLength == old(recvContentLength)
    {
      if recvContentLength == contentLength {
        ProcBlocks("", true);
        assert blockSize > 0 ==> readerBuffer == "";
        assert Flatten(delivered) + "" == Flatten(delivered);
        assert old(Flatten(delivered) + readerBuffer) + "" == old(Flatten(delivered) + readerBuffer);
        return true;
      }
      return false;
    }

    /** procBlocks on a piece, as seen by a session. */
    method Take(piece: string)
      requires Counted() && blockSize > 0 && |readerBuffer| + |piece| + blockSize < TWO_64
      modifies this`recvContentLength, this`readerBuffer, this`delivered
      ensures Counted()
      ensures Flatten(delivered) + readerBuffer == old(Flatten(delivered) + readerBuffer) + piece
      ensures old(|readerBuffer| <= blockSize && AllFull(blockSize, delivered)) ==>
                |readerBuffer| <= blockSize && AllFull(blockSize, delivered)
    {
      FeedConserves(blockSize, readerBuffer, piece);
      ProcBlocks(piece, false);
      assert delivered == old(delivered) + delivered[|old(delivered)|..];
    }

    /** readLastBlocks, as seen by a session. */
    method Flush() returns (complete: bool)
      requires Counted() && blockSize > 0 && |readerBuffer| + blockSize < TWO_64
      modifies this`recvContentLength, this`readerBuffer, this`delivered
      ensures Counted()
      ensures Flatten(delivered) + readerBuffer == old(Flatten(delivered) + readerBuffer)
      ensures complete <==> recvContentLength == contentLength
      ensures complete ==> readerBuffer == ""
      ensures recvContentLength == old(recvContentLength)
      ensures !complete ==> delivered == old(delivered) && readerBuffer == old(readerBuffer)
      ensures complete && old(|readerBuffer| <= blockSize && AllFull(blockSize, delivered)) ==>
                EndsShort(blockSize, delivered)
    {
      complete := ReadLastBlocks();
      if complete && |old(readerBuffer)| <= blockSize && AllFull(blockSize, old(delivered)) {
        FeedConserves(blockSize, old(readerBuffer), "");
        var tail := delivered[|old(delivered)|..];
        assert delivered == old(delivered) + tail;
        assert delivered[..|delivered| - 1] == old(delivered) + tail[..|tail| - 1];
      }
    }
  }

  // ------------------------------------------------------------ whole session

  predicate AllFull(b: nat, blocks: seq<string>) {
    forall k :: 0 <= k < |blocks| ==> |blocks[k]| == b
  }

  /** The bytes received with the header and the first `j` pieces. */
  function Received(recvBuffer: string, pieces: seq<string>, j: nat): (n: nat)
    requires j <= |pieces|
  {
    |recvBuffer| + |Flatten(pieces[..j])|
  }

  lemma {:induction false} ReceivedNext(recvBuffer: string, pieces: seq<string>, j: nat)
    requires j < |pieces|
    ensures Received(recvBuffer, pieces, j + 1) == Received(recvBuffer, pieces, j) + |pieces[j]|
  {
    assert pieces[..j + 1] == pieces[..j] + [pieces[j]];
    FlattenOne(pieces[..j], pieces[j]);
  }

  /**
   * A response body read in any pieces: reset, then one procBlocks and one
   * readLastBlocks for each piece, until the announced length has arrived.  It completes
   * exactly when one of the pieces ends there: a piece that goes beyond is never the last.
   */
  method Receive(blockSize: nat, contentLength: nat, recvBuffer: string, pieces: seq<string>)
    returns (delivered: seq<string>, complete: bool)
    requires blockSize > 0 && |recvBuffer| + |Flatten(pieces)| + blockSize < TWO_64
    ensures complete <==> exists j :: 0 <= j <= |pieces| && Received(recvBuffer, pieces, j) == contentLength
    ensures Flatten(delivered) <= recvBuffer + Flatten(pieces)
    ensures complete ==> |Flatten(delivered)| == contentLength
    ensures complete && |recvBuffer| <= blockSize && delivered != [] ==>
              AllFull(blockSize, delivered[..|delivered| - 1]) && |delivered[|delivered| - 1]| < blockSize
    ensures !complete && |recvBuffer| <= blockSize ==> AllFull(blockSize, delivered)
  {
    var reader := new HttpReader(blockSize, contentLength, recvBuffer);
    reader.Reset();
    assert Flatten(reader.delivered) + reader.readerBuffer == recvBuffer;
    assert pieces[..0] == [] && Received(recvBuffer, pieces, 0) == |recvBuffer|;
    complete := reader.Flush();
    var i := 0;
    assert pieces[0..] == pieces;
    while i < |pieces| && !complete
      invariant 0 <= i <= |pieces|
      invariant reader.Counted() && fresh(reader) && reader.blockSize == blockSize
      invariant reader.contentLength == contentLength
      invariant Flatten(reader.delivered) + reader.readerBuffer + Flatten(pieces[i..]) == recvBuffer + Flatten(pieces)
      invariant reader.recvContentLength == Received(recvBuffer, pieces, i)
      invariant complete <==> reader.recvContentLength == contentLength
      invariant complete ==> reader.readerBuffer == ""
      invariant forall j :: 0 <= j < i ==> Received(recvBuffer, pieces, j) != contentLength
      invariant !complete && |recvBuffer| <= blockSize ==>
                  |reader.readerBuffer| <= blockSize && AllFull(blockSize, reader.delivered)
      invariant complete && |recvBuffer| <= blockSize ==> EndsShort(blockSize, reader.delivered)
    {
      ghost var before := Flatten(reader.delivered) + reader.readerBuffer;
      assert |before + Flatten(pieces[i..])| == |recvBuffer + Flatten(pieces)|;
      assert pieces[i..][1..] == pieces[i + 1..];
      assert before + pieces[i] + Flatten(pieces[i + 1..]) == before + (pieces[i] + Flatten(pieces[i + 1..]));
      ReceivedNext(recvBuffer, pieces, i);
      reader.Take(pieces[i]);
      complete := reader.Flush();
      i := i + 1;
    }
    delivered := reader.delivered;
  }

  /** All blocks but the last are full, the last is not. */
  predicate EndsShort(b: nat, blocks: seq<string>) {
    blocks != [] && AllFull(b, blocks[..|blocks| - 1]) && |blocks[|blocks| - 1]| < b
  }
}
