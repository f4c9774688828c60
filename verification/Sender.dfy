/**
 * The file response of HttpdClient: a resumable machine over a socket that may
 * take any part of what it is offered, or nothing.  A `char` stands for one byte.
 *
 * The kernel's answers, the file reads and the waits are arbitrary (`*`), so every
 * contract below speaks about all their outcomes.  In a `calm` world none of them fails,
 * but sends and reads still take and give any part of what is asked for.
 */
module Sender {
  import opened Common
  import opened Inet
  import opened Range
  import opened ResponseHead

  /** What a call reports: NULL, DFW_T_CONTINUE, DFW_E_AGAIN, DFW_E_TIMEOUT, or another error. */
  datatype Status = Done | Continue | Again | Timeout | Failure

  const MAX_BUFFER: int := 102400

  // ------------------------------------------------------------------ socket

  datatype KernelAnswer = Took(n: nat) | InProgress | Refused | Closed

  /** ::send: takes between one byte and all of them, or fails. */
  method KernelSend(size: nat, calm: bool) returns (answer: KernelAnswer)
    requires size > 0
    ensures answer.Took? ==> 1 <= answer.n <= size
    ensures calm ==> answer.Took?
  {
    answer := *;
    if answer.Took? && !(1 <= answer.n <= size) {
      answer := Refused;
    }
    if calm && !answer.Took? {
      answer := Took(size);
    }
  }

  class Socket {
    /** Every byte the kernel has accepted, in order. */
    var wire: seq<char>
    var stopped: bool

    constructor ()
      ensures wire == [] && !stopped
    {
      wire := [];
      stopped := false;
    }

    /** Socket::send_raw without waiting, the form Socket::send uses. */
    method Send(data: seq<char>, calm: bool) returns (osize: nat, ret: Status)
      modifies this`wire
      ensures osize <= |data|
      ensures wire == old(wire) + data[..osize]
      ensures ret == Done <==> osize == |data|
      ensures ret == Done || ret == Timeout || ret == Failure
      ensures calm && !stopped ==> ret == Done
    {
      osize := 0;
      var offset: nat, left: nat := 0, |data|;
      assert data[..0] == [];
      while left > 0
        invariant offset + left == |data| && osize == offset
        invariant wire == old(wire) + data[..offset]
        decreases left
      {
        if stopped { return osize, Failure; }
        var answer := KernelSend(left, calm);
        match answer {
          case Took(n) =>
            assert data[..offset] + data[offset..offset + n] == data[..offset + n];
            wire := wire + data[offset..offset + n];
            left := left - n;
            offset := offset + n;
            osize := offset;
          case InProgress => return osize, Timeout;
          case Refused => return osize, Failure;
          case Closed => return osize, Failure;
        }
      }
      assert data[..offset] == data;
      ret := Done;
    }

    /** Socket::wait_send: ready, timed out, or failed. */
    method WaitSend(calm: bool) returns (ret: Status)
      ensures ret == Done || ret == Timeout || ret == Failure
      ensures calm ==> ret == Done
    {
      ret := *;
      if ret == Continue || ret == Again { ret := Failure; }
      if calm { ret := Done; }
    }
  }

  // ---------------------------------------------------------------- response

  /** The bytes a plan asks for. */
  function Body(p: Plan, file: seq<char>, isHead: bool): (r: seq<char>)
    requires |file| < TWO_64 && Inside(p, |file|)
    ensures |r| == if isHead then 0 else p.length
  {
    if isHead then [] else file[p.start..p.end + 1]
  }

  /** The whole response, for any way of writing the header of a plan. */
  function Response(render: Plan -> seq<char>, p: Plan, file: seq<char>, isHead: bool): (r: seq<char>)
    requires |file| < TWO_64 && Inside(p, |file|)
  {
    render(p) + Body(p, file, isHead)
  }

  // ------------------------------------------------------------------ client

  class Client {
    const sock: Socket
    const file: seq<char>      // the served file, of size m_iFileSize
    const request: Request     // what checkRangeBytes made of the headers
    const isHead: bool
    const render: Plan -> seq<char>  // the header makeStream writes

    var fileStatus: nat        // m_iFileStatus
    var stream: seq<char>      // m_sStream
    var streamSended: nat      // m_iStreamSended
    var sendedSize: nat        // m_iSendedSize
    const buffer: array<char>  // m_buffer
    var bufferLen: nat         // m_iBufferLen
    var fileSendLength: uint64
    var fileOffset: uint64
    var fileSended: uint64

    ghost const accepted: bool // whether the range checks pass
    ghost const plan: Plan     // the plan and header of an accepted request
    ghost const head: seq<char>

    /** What the ghost constants stand for. */
    ghost predicate Planned() {
      && |file| < TWO_64
      && accepted == PlanFor(request, |file|).Some?
      && (accepted ==>
            plan == PlanFor(request, |file|).value && head == render(plan))
    }

    /** Fields agree with each other and with the bytes on the wire, in each of the four states. */
    ghost predicate Valid()
      reads this, sock, buffer
    {
      && |file| < TWO_64 && buffer.Length == MAX_BUFFER
      && fileStatus <= 3
      && (fileStatus == 0 ==> sock.wire == [])
      && (fileStatus != 0 ==> accepted && Inside(plan, |file|) && Started())
    }

    ghost predicate Started()
      requires |file| < TWO_64 && buffer.Length == MAX_BUFFER && Inside(plan, |file|)
      reads this, sock, buffer
    {
      && stream == head && fileSendLength == plan.length
      && streamSended <= |stream|
      && fileOffset == plan.start + fileSended + bufferLen
      && fileSended + bufferLen <= fileSendLength
      && bufferLen <= MAX_BUFFER
      && buffer[..bufferLen] == file[plan.start + fileSended..fileOffset]
      && sendedSize == |sock.wire|
      && sock.wire == stream[..streamSended] + file[plan.start..plan.start + fileSended]
      && (fileStatus == 1 ==> fileSended == 0 && bufferLen == 0)
      && (fileStatus >= 2 ==> streamSended == |stream|)
      && (streamSended < |stream| ==> fileSended == 0)
      && (fileStatus == 2 ==> fileSended < fileSendLength)
      && (fileStatus == 3 && !isHead ==> fileSended == fileSendLength)
      && (isHead ==> fileSended == 0 && bufferLen == 0)
    }

    constructor (file: seq<char>, request: Request, isHead: bool, render: Plan -> seq<char>)
      requires |file| < TWO_64
      ensures Valid() && Planned() && fresh(sock) && fresh(buffer) && !sock.stopped
      ensures this.file == file && this.request == request && this.isHead == isHead && this.render == render
      ensures fileStatus == 0
    {
      sock := new Socket();
      buffer := new char[MAX_BUFFER];
      this.file, this.request, this.isHead, this.render := file, request, isHead, render;
      fileStatus, stream, streamSended, sendedSize := 0, [], 0, 0;
      bufferLen, fileSendLength, fileOffset, fileSended := 0, 0, 0, 0;
      var p := PlanFor(request, |file|);
      accepted := p.Some?;
      plan := if p.Some? then p.value else Plan(0, 0, 0, 0, false);
      head := if p.Some? then render(p.value) else [];
    }

    /** HttpdClient::sendStream: pushes what is left of the header. */
    method SendStream(calm: bool) returns (ret: Status, complete: bool)
      requires Valid() && fileStatus == 1
      modifies this`streamSended, this`sendedSize, sock`wire
      ensures Valid()
      ensures complete <==> ret == Done
      ensures complete <==> streamSended == |stream|
      ensures calm && !sock.stopped ==> complete
      ensures ret != Continue
    {
      var osize := 0;
      if |stream| != streamSended {
        ret := sock.WaitSend(calm);
        if ret != Done { return ret, false; }
        var left := stream[streamSended..];
        osize, ret := sock.Send(left, calm);
        if ret != Done && osize == 0 { return ret, false; }
        assert stream[..streamSended] + [] + left[..osize] == stream[..streamSended + osize] + [];
        sendedSize := sendedSize + osize;
        streamSended := streamSended + osize;
      }
      if |stream| == streamSended { return Done, true; }
      return Again, false;
    }

    /** HttpdClient::sendLocalFile_ready: plans the response, builds the header, starts sending it. */
    method SendLocalFileReady(calm: bool) returns (ret: Status)
      requires Valid() && Planned() && fileStatus == 0
      modifies this, sock`wire
      ensures Valid()
      ensures ret != Continue
      ensures ret == Done ==> fileStatus == 2
      ensures PlanFor(request, |file|).None? ==> ret == Failure && fileStatus == 0
      ensures calm && !sock.stopped && PlanFor(request, |file|).Some? ==> ret == Done
    {
      // the host lookup and the open of the file may fail
      var found: bool := *;
      if !found && !calm { return Failure; }
      var answer := PlanFor(request, |file|);
      if answer.None? { return Failure; }
      PlanInsideFile(request, |file|);
      var p := answer.value;
      bufferLen := 0;
      fileSendLength := p.length;
      fileOffset := p.start;
      fileSended := 0;
      sendedSize := 0;
      streamSended := 0;
      stream := render(p);
      assert stream[..0] + file[p.start..p.start] == [];
      fileStatus := 1;
      var complete;
      ret, complete := SendStream(calm);
      if ret != Done { return; }
      fileStatus := 2;
    }

    /** OriginFs::read: some of the bytes at the offset, or a failure. */
    method ReadFile(size: nat, offset: nat, calm: bool) returns (data: seq<char>, ok: bool)
      requires offset + size <= |file|
      ensures |data| <= size && data == file[offset..offset + |data|]
      ensures calm ==> ok && (size > 0 ==> |data| > 0)
    {
      var n: int := *;
      ok := *;
      ok := ok || calm;
      if !(0 < n <= size) { n := if calm then size else 0; }
      data := file[offset..offset + n];
    }

    /** State 2 of HttpdClient::sendLocalFile: refill the buffer when it is empty, send what it holds. */
    method SendBody(calm: bool) returns (ret: Status)
      requires Valid() && fileStatus == 2
      modifies this, sock`wire, buffer
      ensures Valid() && fileStatus >= 2
      ensures ret != Done && ret != Again
      ensures old(fileSended) <= fileSended
      ensures calm && !sock.stopped ==> ret == Continue && (fileStatus == 3 || fileSended > old(fileSended))
    {
      if isHead {
        fileStatus := 3;
        return Continue;
      }
      ret := sock.WaitSend(calm);
      if ret != Done { return; }
      if bufferLen == 0 {
        var fbuf;
        fbuf, ret := Refill(calm);
        if ret != Done { return; }
        ret := SendChunk(fbuf, calm);
      } else {
        ret := SendChunk(buffer[..bufferLen], calm);
      }
    }

    /** Reads the next piece of the file; the bytes are kept even when the host has gone. */
    method Refill(calm: bool) returns (fbuf: seq<char>, ret: Status)
      requires Valid() && fileStatus == 2 && !isHead && bufferLen == 0
      modifies this`bufferLen, this`fileOffset, buffer
      ensures ret == Done || (ret == Failure && Valid())
      ensures calm ==> ret == Done
      ensures ret == Done ==>
                0 < |fbuf| <= MAX_BUFFER && fileSended + |fbuf| <= fileSendLength
                && fileOffset == plan.start + fileSended + |fbuf|
                && fbuf == file[plan.start + fileSended..fileOffset]
    {
      var remaining := fileSendLength - fileSended;
      var readable := if MAX_BUFFER > remaining then remaining else MAX_BUFFER;
      var ok;
      fbuf, ok := ReadFile(readable, fileOffset, calm);
      if !ok || |fbuf| == 0 { return fbuf, Failure; }
      bufferLen := |fbuf|;
      fileOffset := fileOffset + |fbuf|;
      var hasHost: bool := *;
      if !hasHost && !calm {
        Keep(fbuf);
        return fbuf, Failure;
      }
      ret := Done;
    }

    /** The memcpy into m_buffer. */
    method Keep(data: seq<char>)
      requires |data| <= buffer.Length
      modifies buffer
      ensures buffer[..|data|] == data
    {
      forall k | 0 <= k < |data| { buffer[k] := data[k]; }
    }

    /** The second half of state 2: one send of the buffered bytes, and the bookkeeping after it. */
    method SendChunk(fbuf: seq<char>, calm: bool) returns (ret: Status)
      requires |file| < TWO_64 && buffer.Length == MAX_BUFFER && !isHead && fileStatus == 2
      requires accepted && Inside(plan, |file|) && stream == head && streamSended == |stream|
      requires fileSendLength == plan.length && sendedSize == |sock.wire|
      requires 0 < |fbuf| <= MAX_BUFFER && fileSended + |fbuf| <= fileSendLength
      requires fileOffset == plan.start + fileSended + |fbuf|
      requires fbuf == file[plan.start + fileSended..fileOffset]
      requires sock.wire == stream + file[plan.start..plan.start + fileSended]
      modifies this, sock`wire, buffer
      ensures Valid() && fileStatus >= 2
      ensures ret != Done && ret != Again
      ensures old(fileSended) <= fileSended
      ensures calm && !sock.stopped ==> ret == Continue && fileSended > old(fileSended)
    {
      hide Body, Response, PlanFor, U64;
      var osize;
      osize, ret := sock.Send(fbuf, calm);
      ChunkSent(stream, file, plan.start, plan.start + fileSended, fbuf, osize);
      Keep(fbuf[osize..]);
      if osize > 0 {
        sendedSize, fileSended, bufferLen := sendedSize + osize, fileSended + osize, |fbuf| - osize;
      } else {
        bufferLen := |fbuf|;
      }
      if !(fileSended < fileSendLength) { fileStatus := 3; }
      if ret == Done { ret := Continue; }
    }

    /** How many calls may still be needed in a calm world. */
    function Left(): (n: int)
      reads this
    {
      if fileStatus == 0 then |file| + 3
      else if fileStatus == 1 then |file| + 2
      else if fileStatus == 2 then fileSendLength - fileSended + 1
      else 0
    }

    /** HttpdClient::sendLocalFile: one step of the machine. */
    method SendLocalFile(calm: bool) returns (ret: Status)
      requires Valid() && Planned()
      modifies this, sock`wire, buffer
      ensures Valid()
      ensures old(fileStatus) <= fileStatus
      ensures ret == Done ==> fileStatus == 3
      ensures calm && !sock.stopped && PlanFor(request, |file|).Some? ==>
                ret == Done || (ret == Continue && Left() < old(Left()))
    {
      var stop: bool := *;
      if stop && !calm { return Failure; }
      match fileStatus {
        case 0 =>
          ret := SendLocalFileReady(calm);
          if ret == Done { ret := Continue; }
        case 1 =>
          var complete;
          ret, complete := SendStream(calm);
          if ret != Done { return; }
          fileStatus := 2;
          ret := Continue;
        case 2 =>
          ret := SendBody(calm);
        case _ =>
          // the kernel's send buffer may still hold bytes
          var drained: bool := *;
          var failed: bool := *;
          if failed && !calm { return Failure; }
          ret := if drained || calm then Done else Again;
      }
    }
  }

  /** The wire grows by the next bytes of the file; what was not taken starts where it ends. */
  lemma {:induction false} ChunkSent(head: seq<char>, file: seq<char>, start: nat, at: nat, chunk: seq<char>, n: nat)
    requires start <= at && at + |chunk| <= |file| && chunk == file[at..at + |chunk|] && n <= |chunk|
    ensures head + file[start..at] + chunk[..n] == head[..|head|] + file[start..at + n]
    ensures chunk[n..] == file[at + n..at + |chunk|]
  {
    assert file[start..at] + chunk[..n] == file[start..at + n];
    assert head + file[start..at] + chunk[..n] == head + (file[start..at] + chunk[..n]);
  }

  /** The retry loop of HttpdClient::sendResponse: goes on after AGAIN, TIMEOUT and CONTINUE. */
  method Run(client: Client, patience: nat, calm: bool) returns (ret: Status)
    requires client.Valid() && client.Planned()
    modifies client, client.sock`wire, client.buffer
    ensures client.Valid()
    ensures ret == Done ==> client.fileStatus == 3
    ensures calm && !client.sock.stopped && PlanFor(client.request, |client.file|).Some? && patience > old(client.Left()) ==>
              ret == Done
  {
    var calls := 0;
    ret := Continue;
    while calls < patience
      invariant client.Valid()
      invariant ret == Done ==> client.fileStatus == 3
      invariant calm && !client.sock.stopped && PlanFor(client.request, |client.file|).Some? ==>
                  client.Left() + calls <= old(client.Left())
    {
      ret := client.SendLocalFile(calm);
      if ret == Done || ret == Failure { break; }
      calls := calls + 1;
    }
  }

  /**
   * A whole response after the file was found, in at most `patience` calls of the machine.
   *
   * In every run the wire holds a prefix of the response; a finished run has sent all
   * of it, and a request without a valid range sends nothing.
   */
  method Serve(file: seq<char>, request: Request, isHead: bool, render: Plan -> seq<char>, patience: nat, calm: bool)
    returns (wire: seq<char>, ret: Status)
    requires |file| < TWO_64
    ensures PlanFor(request, |file|).None? ==> wire == [] && ret != Done
    ensures PlanFor(request, |file|).Some? && calm && patience > |file| + 3 ==> ret == Done
    ensures PlanFor(request, |file|).Some? ==> Inside(PlanFor(request, |file|).value, |file|)
    ensures PlanFor(request, |file|).Some? ==>
              wire <= Response(render, PlanFor(request, |file|).value, file, isHead)
    ensures PlanFor(request, |file|).Some? && ret == Done ==>
              wire == Response(render, PlanFor(request, |file|).value, file, isHead)
  {
    PlanInsideFile(request, |file|);
    var client := new Client(file, request, isHead, render);
    ret := Run(client, patience, calm);
    wire := client.sock.wire;
    if client.fileStatus != 0 {
      WireOf(client.plan, file, client.head, client.streamSended, client.fileSended, isHead);
    }
  }

  lemma {:induction false} WireOf(p: Plan, file: seq<char>, head: seq<char>, h: nat, b: nat, isHead: bool)
    requires |file| < TWO_64 && Inside(p, |file|) && b <= p.length
    requires h <= |head| && (h < |head| ==> b == 0) && (isHead ==> b == 0)
    ensures head[..h] + file[p.start..p.start + b] <= head + Body(p, file, isHead)
    ensures h == |head| && (isHead || b == p.length) ==>
              head[..h] + file[p.start..p.start + b] == head + Body(p, file, isHead)
  {
    SentIsPrefix(head, file[p.start..p.end + 1], h, b);
    assert file[p.start..p.end + 1][..b] == file[p.start..p.start + b];
    assert head + [] == head;
  }

  /** Part of a header, or all of it and part of the body, is a prefix of both. */
  lemma {:induction false} SentIsPrefix(head: seq<char>, body: seq<char>, h: nat, b: nat)
    requires h <= |head| && b <= |body| && (h < |head| ==> b == 0)
    ensures head[..h] + body[..b] <= head + body
    ensures b == 0 ==> head[..h] + body[..b] <= head
    ensures h == |head| && b == |body| ==> head[..h] + body[..b] == head + body
    ensures h == |head| && b == 0 ==> head[..h] + body[..b] == head
  {}

  /** Without a range the plan is the whole file, with one it is a part of it. */
  lemma {:induction false} PlanKinds(request: Request, fileSize: uint64)
    requires PlanFor(request, fileSize).Some?
    ensures var p := PlanFor(request, fileSize).value;
            && Inside(p, fileSize)
            && p.status == (if p.ranged then 206 else 200)
            && (!p.ranged ==> p.start == 0 && p.end == fileSize - 1)
  {
    PlanInsideFile(request, fileSize);
    assert fileSize > 0 ==> U64(fileSize - 1) == fileSize - 1;
    hide U64;
  }

  /** What a client that has read `seen` from a finished response knows about the file. */
  ghost predicate Truthful(seen: Seen, file: seq<char>, isHead: bool) {
    && seen.length.Some?
    && (if isHead then seen.body == [] else seen.length.value == |seen.body|)
    && match seen.range
       case None => seen.status == Some(200) && seen.length.value == |file| && (!isHead ==> seen.body == file)
       case Some(span) =>
         && seen.status == Some(206)
         && span.first <= span.last < span.size == |file|
         && seen.length.value == span.last + 1 - span.first
         && (!isHead ==> seen.body == file[span.first..span.last + 1])
  }

  /** It is what the plan says. */
  ghost predicate Announces(seen: Seen, p: Plan, fileSize: nat) {
    && seen.status == Some(p.status) && seen.length == Some(p.length)
    && seen.range == if p.ranged then Some(Span(p.start, p.end, fileSize)) else None
  }

  lemma {:induction false} ResponseIsTruthful(request: Request, file: seq<char>, isHead: bool, o: Others)
    requires |file| < TWO_64 && o.Neutral() && PlanFor(request, |file|).Some?
    ensures var p := PlanFor(request, |file|).value;
            && Inside(p, |file|)
            && var seen := ReadResponse(Response((q: Plan) => Head(q, |file|, o), p, file, isHead), NOTHING);
            Truthful(seen, file, isHead) && Announces(seen, p, |file|)
  {
    hide Head, ReadResponse, PlanFor;
    PlanKinds(request, |file|);
    var p := PlanFor(request, |file|).value;
    HeadRead(p, |file|, o, Body(p, file, isHead));
    assert file[0..|file|] == file;
  }

  /**
   * A whole response with the header makeStream writes, from the request's headers.  What a
   * client reads off the wire of a finished run, knowing only the header names, is true: the
   * announced length is that of the bytes that follow, and they are the announced part of the
   * file, or all of it.  Without a live range they are the file.
   */
  method ServeFile(file: seq<char>, range: Option<string>, stale: bool, accept: Option<string>, isHead: bool,
                   o: Others, patience: nat, calm: bool)
    returns (wire: seq<char>, ret: Status)
    requires |file| < TWO_64 && o.Neutral()
    ensures var plan := PlanFor(CheckRange(range, stale, accept), |file|);
            if plan.None? then wire == [] && ret != Done
            else (ret == Done ==> Announces(ReadResponse(wire, NOTHING), plan.value, |file|))
                 && (calm && patience > |file| + 3 ==> ret == Done)
    ensures ret == Done ==> Truthful(ReadResponse(wire, NOTHING), file, isHead)
    ensures ret == Done && (range.None? || range.value == "" || stale) && !isHead ==> ReadResponse(wire, NOTHING).body == file
  {
    hide PlanFor, CheckRange, Head, ReadResponse, Truthful, Response, Announces;
    var request := CheckRange(range, stale, accept);
    wire, ret := Serve(file, request, isHead, (q: Plan) => Head(q, |file|, o), patience, calm);
    if ret == Done {
      ResponseIsTruthful(request, file, isHead, o);
      if range.None? || range.value == "" || stale {
        NoLiveRange(range, stale, accept, |file|);
        if !isHead { WholeIsFile(ReadResponse(wire, NOTHING), PlanFor(request, |file|).value, file, isHead); }
      }
    }
  }

  lemma {:induction false} WholeIsFile(seen: Seen, p: Plan, file: seq<char>, isHead: bool)
    requires Truthful(seen, file, isHead) && Announces(seen, p, |file|) && !p.ranged && !isHead
    ensures seen.body == file
  {}
}
