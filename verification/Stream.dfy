/** The receiving half of a stream (stream.go): frames are checked by flow control and pushed into a sorter, and
    read from there. */
module ReceiveStreams {
  import opened Frames
  import opened StreamFrameSorters
  import FC = FlowControl

  datatype AddResult = Added | TooMuchData | UnknownStream | Refused(verdict: PushResult)

  datatype ReadResult = Read(eof: bool) | WouldBlock

  /** `a` after `k` frames were taken from its head. */
  function Popped(a: Assembly, k: nat): Assembly {
    if k == 0 then a else Popped(a, k - 1).Pop()
  }

  /** The frame at the head carries a FIN. */
  predicate FinAtHead(a: Assembly) {
    a.Head().Some? && a.Head().value.fin
  }

  /** `got` is what was delivered, and the start of the frame that is being read. */
  ghost predicate ReadUpTo(a: Assembly, got: seq<byte>) {
    && a.delivered <= got
    && (got != a.delivered ==> a.Head().Some? && got < a.delivered + a.Head().value.data)
  }

  /** What was read are the accepted bytes, from offset 0 on. */
  lemma ReadIsContent(a: Assembly, got: seq<byte>, o: nat)
    requires a.Coherent() && ReadUpTo(a, got) && o < |got|
    ensures o in a.content && got[o] == a.content[o]
  {
    var n := |a.delivered|;
    if o >= n {
      assert a.QueuedAt(n, o);
      assert got[o] == (a.delivered + a.queued[n].data)[o];
    } else {
      assert got[o] == a.delivered[o];
    }
  }

  /** A push does not disturb the frame that is being read. */
  lemma PushKeepsReading(a: Assembly, got: seq<byte>, frame: StreamFrame)
    requires ReadUpTo(a, got)
    ensures ReadUpTo(a.Push(frame), got)
  {
  }

  /** Flow control counts what was read, and knows of everything that was received. */
  ghost predicate Tracks(c: FC.Controller, a: Assembly, readOffset: nat) {
    c.bytesRead == readOffset && forall o :: o in a.content ==> o < c.highestReceived
  }

  /** The frame that is being read was received completely, so reading it never outruns the controller. */
  lemma HeadIsTracked(c: FC.Controller, a: Assembly, readOffset: nat)
    requires a.Coherent() && Tracks(c, a, readOffset) && a.Head().Some?
    ensures a.Head().value.data != [] ==> |a.delivered| + |a.Head().value.data| <= c.highestReceived
  {
    var f := a.Head().value;
    if f.data != [] {
      assert f.offset == |a.delivered|;
      assert a.QueuedAt(|a.delivered|, f.End() - 1);
    }
  }

  /** What waits to be read lies between what was read and what was received, so its amount is bounded. */
  lemma WaitingIsBounded(c: FC.Controller, a: Assembly, readOffset: nat, o: int)
    requires c.Valid() && Tracks(c, a, readOffset) && o in a.content && readOffset <= o
    ensures readOffset <= o < readOffset + c.maxIncrement
  {
  }

  lemma PushTracks(c: FC.Controller, a: Assembly, readOffset: nat, frame: StreamFrame)
    requires Tracks(c, a, readOffset)
    ensures Tracks(c.UpdateHighestReceived(frame.End()), a.Push(frame), readOffset)
  {
  }

  /** Of the controllers, at most those of stream `id` and of the connection changed. */
  ghost predicate OthersStay(cs: FC.Controllers, cs': FC.Controllers, id: nat) {
    && cs'.Keys == cs.Keys
    && forall x :: x in cs && x != 0 && x != id ==> cs'[x] == cs[x]
  }

  class ReceiveStream {
    const streamID: nat
    const flowControlManager: FC.FlowControlManager
    const frameQueue: StreamFrameSorter
    var readOffset: nat
    var eof: bool
    ghost var got: seq<byte>

    ghost predicate Valid()
      reads this, frameQueue, flowControlManager
    {
      && frameQueue.Valid() && flowControlManager.Valid()
      && readOffset == |got| && ReadUpTo(frameQueue.Value(), got)
      && streamID != 0 && streamID in flowControlManager.controllers
      && Tracks(flowControlManager.controllers[streamID], frameQueue.Value(), readOffset)
    }

    constructor (streamID: nat, flowControlManager: FC.FlowControlManager)
      requires flowControlManager.Valid() && streamID != 0 && streamID in flowControlManager.controllers
      requires flowControlManager.controllers[streamID].bytesRead == 0
      ensures this.streamID == streamID && this.flowControlManager == flowControlManager && fresh(frameQueue)
      ensures Valid() && got == [] && !eof && frameQueue.Value() == Assembly(map[], map[], [])
    {
      this.streamID, this.flowControlManager := streamID, flowControlManager;
      frameQueue := new StreamFrameSorter();
      readOffset, eof, got := 0, false, [];
    }

    /** Flow control and the sorter decide about a frame; duplicates are not an error. */
    method AddStreamFrame(frame: StreamFrame) returns (r: AddResult)
      requires Valid()
      modifies frameQueue, flowControlManager`controllers, flowControlManager`log
      ensures OthersStay(old(flowControlManager.controllers), flowControlManager.controllers, streamID)
      ensures InRange(frame) || Wraps(frame) ==>
              (r == TooMuchData <==>
                 FC.ResultOf(old(flowControlManager.controllers), old(flowControlManager.contributes), streamID,
                             WrappedEnd(frame)) != FC.Ok)
      ensures InRange(frame) && r != TooMuchData ==>
              var verdict := old(frameQueue.Value()).Verdict(frame);
              || (r == Added && (verdict == Accepted || verdict == DuplicateStreamData))
              || (r == Refused(verdict) && verdict != Accepted && verdict != DuplicateStreamData)
              || (r == Refused(TooManyGaps) && verdict == Accepted && |frameQueue.gaps| > MAX_GAPS)
      ensures InRange(frame) && r == Added ==> Valid() && frameQueue.Value() == old(frameQueue.Value()).Push(frame)
      ensures Wraps(frame) && r != TooMuchData ==>
              if frame.offset in old(frameQueue.queuedFrames) ||
                 !Spanned(old(frameQueue.gaps), frame.offset, WrappedEnd(frame))
              then r == Added && Valid() && frameQueue.Value() == old(frameQueue.Value())
              else (r == Added || r == Refused(TooManyGaps)) && !Separated(frameQueue.gaps)
    {
      hide FC.Logged, FC.AllValid, FC.Sums, ReadUpTo;
      PushKeepsReading(frameQueue.Value(), got, frame);
      PushTracks(flowControlManager.controllers[streamID], frameQueue.Value(), readOffset, frame);
      var fc := flowControlManager.UpdateHighestReceived(streamID, WrappedEnd(frame));
      if fc == FC.StreamViolation || fc == FC.ConnectionViolation {
        return TooMuchData;
      }
      if fc == FC.UnknownStream {
        return UnknownStream;
      }
      var pushed := frameQueue.Push(frame);
      if pushed != Accepted && pushed != DuplicateStreamData {
        return Refused(pushed);
      }
      return Added;
    }

    /** Reads at most `n` bytes and takes `k` frames: reading continues where it stopped, stops early only when nothing
        more has arrived, and reports EOF exactly when the last frame it took carried a FIN. */
    method Read(n: nat) returns (p: seq<byte>, r: ReadResult, ghost k: nat)
      requires Valid()
      modifies this, frameQueue, flowControlManager`controllers, flowControlManager`log
      ensures Valid() && |p| <= n && got == old(got) + p
      ensures OthersStay(old(flowControlManager.controllers), flowControlManager.controllers, streamID)
      ensures frameQueue.Value() == Popped(old(frameQueue.Value()), k)
      ensures old(eof) ==> p == [] && eof && k == 0
      ensures !old(eof) ==> (eof <==> k > 0 && FinAtHead(Popped(old(frameQueue.Value()), k - 1)))
      ensures !old(eof) && eof ==> got == frameQueue.delivered
      ensures r.WouldBlock? ==> p == [] && n > 0 && !eof
      ensures r.WouldBlock? || (!r.eof && |p| < n) ==> frameQueue.Value().Head().None?
      ensures r.Read? ==> r.eof == eof
    {
      hide ReceiveStream.Valid, FinAtHead, Assembly.Head;
      p, k := [], 0;
      assert got + p == got;
      if eof {
        return p, ReadResult.Read(true), k;
      }
      var ended := false;
      while |p| < n && !ended
        invariant Valid() && |p| <= n && got == old(got) + p
        invariant OthersStay(old(flowControlManager.controllers), flowControlManager.controllers, streamID)
        invariant frameQueue.Value() == Popped(old(frameQueue.Value()), k)
        invariant ended <==> k > 0 && FinAtHead(Popped(old(frameQueue.Value()), k - 1))
        invariant ended ==> got == frameQueue.delivered
        decreases n - |p|, frameQueue.queuedFrames.Keys
      {
        var head := Head();
        if head.None? {
          break;
        }
        HeadFin(frameQueue.Value());
        var data, popped := ReadFrame(head.value, n - |p|);
        assert old(got) + p + data == old(got) + (p + data);
        p := p + data;
        if popped {
          k, ended := k + 1, head.value.fin;
        }
      }
      End(ended);
      r := if |p| == 0 < n && !ended then WouldBlock else ReadResult.Read(ended);
    }

    method End(ended: bool)
      requires Valid()
      modifies this`eof
      ensures Valid() && eof == ended
    {
      eof := ended;
    }

    method Head() returns (f: Option<StreamFrame>)
      requires Valid()
      ensures f == frameQueue.Value().Head()
    {
      f := frameQueue.Head();
    }

    /** Flow control counts `m` bytes that were read. */
    method Count(m: nat)
      requires flowControlManager.Valid() && streamID != 0 && streamID in flowControlManager.controllers
      requires var c := flowControlManager.controllers[streamID]; m == 0 || c.bytesRead + m <= c.highestReceived
      modifies flowControlManager`controllers, flowControlManager`log
      ensures flowControlManager.Valid() && streamID in flowControlManager.controllers
      ensures var c := old(flowControlManager.controllers)[streamID];
              flowControlManager.controllers[streamID] == c.(bytesRead := c.bytesRead + m)
      ensures OthersStay(old(flowControlManager.controllers), flowControlManager.controllers, streamID)
    {
      hide FC.Logged, FC.AllValid, FC.Sums;
      FC.Known(flowControlManager.controllers, flowControlManager.contributes, flowControlManager.log,
               flowControlManager.slots, streamID);
      var counted := flowControlManager.AddBytesRead(streamID, m);
    }

    /** Reads from the frame at the head, and takes it off the queue at its end. */
    method ReadFrame(frame: StreamFrame, room: nat) returns (data: seq<byte>, popped: bool)
      requires Valid() && frameQueue.Value().Head() == Some(frame) && room > 0
      modifies this`readOffset, this`got, frameQueue, flowControlManager`controllers, flowControlManager`log
      ensures OthersStay(old(flowControlManager.controllers), flowControlManager.controllers, streamID)
      ensures Valid() && |data| <= room && got == old(got) + data
      ensures frameQueue.Value() == if popped then old(frameQueue.Value()).Pop() else old(frameQueue.Value())
      ensures data != [] || frameQueue.queuedFrames.Keys < old(frameQueue.queuedFrames).Keys
      ensures frameQueue.queuedFrames.Keys <= old(frameQueue.queuedFrames).Keys
      ensures popped ==> got == frameQueue.delivered
    {
      hide FC.FlowControlManager.Valid, OthersStay, ReadUpTo, StreamFrameSorter.Valid, Assembly.Coherent, Assembly.Pop,
        Assembly.Head;
      ghost var a := frameQueue.Value();
      SorterCoherent(frameQueue);
      PoppedKeys(a);
      HeadPlace(a, got, frame);
      HeadIsTracked(flowControlManager.controllers[streamID], a, readOffset);
      var readPosInFrame := readOffset - frame.offset;
      var m := if room < |frame.data| - readPosInFrame then room else |frame.data| - readPosInFrame;
      ReadMore(a, got, frame, m);
      data := frame.data[readPosInFrame..readPosInFrame + m];
      got := got + data;
      readOffset := readOffset + m;
      Count(m);
      if readPosInFrame + m >= |frame.data| {
        var f := frameQueue.Pop();
        return data, true;
      }
      return data, false;
    }
  }

  lemma SorterCoherent(q: StreamFrameSorter)
    requires q.Valid()
    ensures q.Value().Coherent()
  {
  }

  lemma PoppedKeys(a: Assembly)
    requires a.Head().Some?
    ensures a.Pop().queued.Keys < a.queued.Keys && a.Pop().content == a.content
  {
    assert |a.delivered| in a.queued.Keys && |a.delivered| !in a.Pop().queued.Keys;
  }

  lemma HeadPlace(a: Assembly, got: seq<byte>, frame: StreamFrame)
    requires a.Coherent() && ReadUpTo(a, got) && a.Head() == Some(frame)
    ensures frame.offset == |a.delivered| <= |got| <= |a.delivered| + |frame.data|
  {
    assert a.Keyed();
  }

  /** After `m` more bytes of the frame at the head. */
  lemma ReadMore(a: Assembly, got: seq<byte>, frame: StreamFrame, m: nat)
    requires a.Coherent() && ReadUpTo(a, got) && a.Head() == Some(frame) && frame.offset == |a.delivered| <= |got|
    requires |got| + m <= |a.delivered| + |frame.data|
    ensures var pos := |got| - |a.delivered|;
            var got' := got + frame.data[pos..pos + m];
            if pos + m == |frame.data| then ReadUpTo(a.Pop(), got') && got' == a.Pop().delivered else ReadUpTo(a, got')
  {
    var pos := |got| - |a.delivered|;
    var got' := got + frame.data[pos..pos + m];
    assert got == a.delivered + frame.data[..pos];
    assert got' == a.delivered + frame.data[..pos + m];
    assert frame.data[..|frame.data|] == frame.data;
  }

  lemma HeadFin(a: Assembly)
    requires a.Head().Some?
    ensures FinAtHead(a) <==> a.Head().value.fin
  {
  }
}
