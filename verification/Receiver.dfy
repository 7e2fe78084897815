/** The receiving side of a connection, as far as stream data is concerned (session.go, stream_frame_sorter.go): which
    frames its sorters accepted, and what of a packet the peer reads. */
module Receivers {
  import opened Frames
  import opened StreamFrameSorters
  import opened Ledger
  import opened Conservation
  import StreamFrameCodec

  // ---------------------------------------------------------------------------------------------
  // The receiving side
  // ---------------------------------------------------------------------------------------------

  const EMPTY := Assembly(map[], map[], [])

  /** The packet numbers that were registered, the reassembled streams, and a record of all accepted frames. */
  datatype Receiver = Receiver(registered: set<int>, received: map<nat, Assembly>, accepted: set<StreamFrame>) {

    function At(id: nat): Assembly {
      if id in received then received[id] else EMPTY
    }

    /** The sorter takes the frame: it is accepted or a duplicate. Any other verdict closes the session. */
    ghost predicate Takes(y: StreamFrame) {
      At(y.streamID).Verdict(y) == Accepted || At(y.streamID).Verdict(y) == DuplicateStreamData
    }

    ghost function Push(y: StreamFrame): Receiver {
      Receiver(registered, received[y.streamID := At(y.streamID).Push(y)],
               if At(y.streamID).Verdict(y) == Accepted then accepted + {y} else accepted)
    }

    ghost predicate TakesAll(fs: seq<StreamFrame>) {
      fs == [] || (TakesAll(fs[..|fs| - 1]) && PushAll(fs[..|fs| - 1]).Takes(fs[|fs| - 1]))
    }

    ghost function PushAll(fs: seq<StreamFrame>): Receiver {
      if fs == [] then this else PushAll(fs[..|fs| - 1]).Push(fs[|fs| - 1])
    }
  }

  ghost predicate Supplies(z: StreamFrame, id: nat, o: int, b: byte) {
    z.streamID == id && z.Covers(o) && z.data[o - z.offset] == b
  }

  ghost predicate Supplied(accepted: set<StreamFrame>, id: nat, o: int, b: byte) {
    exists z :: z in accepted && Supplies(z, id, o, b)
  }

  /** What a stream holds comes from accepted frames. */
  ghost predicate Backed(a: Assembly, id: nat, accepted: set<StreamFrame>) {
    && a.Coherent()
    && (forall o :: o in a.content ==> Supplied(accepted, id, o, a.content[o]))
    && (forall k :: k in a.queued ==> a.queued[k] in accepted && a.queued[k].streamID == id)
  }

  ghost predicate AllBacked(r: Receiver) {
    forall id: nat :: Backed(r.At(id), id, r.accepted)
  }

  /** What was accepted is there. */
  ghost predicate AllHeld(r: Receiver) {
    forall z :: z in r.accepted ==> r.At(z.streamID).Has(z)
  }

  lemma BackedMore(a: Assembly, id: nat, accepted: set<StreamFrame>, accepted': set<StreamFrame>)
    requires Backed(a, id, accepted) && accepted <= accepted'
    ensures Backed(a, id, accepted')
  {
    forall o | o in a.content
      ensures Supplied(accepted', id, o, a.content[o])
    {
      assert Supplied(accepted, id, o, a.content[o]);
      var z :| z in accepted && Supplies(z, id, o, a.content[o]);
      assert z in accepted';
    }
  }

  lemma AcceptBacked(a: Assembly, y: StreamFrame, accepted: set<StreamFrame>)
    requires Backed(a, y.streamID, accepted) && a.Verdict(y) == Accepted
    ensures Backed(a.Accept(y), y.streamID, accepted + {y})
  {
    var t := a.Accept(y);
    a.PushCoherent(y);
    BackedMore(a, y.streamID, accepted, accepted + {y});
    forall o | o in t.content
      ensures Supplied(accepted + {y}, y.streamID, o, t.content[o])
    {
      if y.Covers(o) {
        assert y in accepted + {y} && Supplies(y, y.streamID, o, t.content[o]);
      } else {
        assert Supplied(accepted + {y}, y.streamID, o, a.content[o]);
      }
    }
  }

  lemma PushBacked(r: Receiver, y: StreamFrame)
    requires AllBacked(r)
    ensures AllBacked(r.Push(y))
  {
    var a, r' := r.At(y.streamID), r.Push(y);
    assert Backed(a, y.streamID, r.accepted);
    forall id: nat
      ensures Backed(r'.At(id), id, r'.accepted)
    {
      assert Backed(r.At(id), id, r.accepted);
      if id == y.streamID && a.Verdict(y) == Accepted {
        AcceptBacked(a, y, r.accepted);
      } else {
        BackedMore(r.At(id), id, r.accepted, r'.accepted);
      }
    }
  }

  lemma PushHeld(r: Receiver, y: StreamFrame)
    requires AllHeld(r)
    ensures AllHeld(r.Push(y))
  {
    var a, r' := r.At(y.streamID), r.Push(y);
    forall z | z in r'.accepted
      ensures r'.At(z.streamID).Has(z)
    {
      assert z in r.accepted ==> r.At(z.streamID).Has(z);
      assert a.Verdict(y) == Accepted ==> forall o :: o in a.content || y.Covers(o) ==> o in a.Push(y).content;
    }
  }

  lemma {:induction false} PushAllKeeps(r: Receiver, fs: seq<StreamFrame>)
    requires AllBacked(r) && AllHeld(r)
    ensures AllBacked(r.PushAll(fs)) && AllHeld(r.PushAll(fs)) && r.accepted <= r.PushAll(fs).accepted
  {
    hide AllBacked, AllHeld;
    if fs != [] {
      PushAllKeeps(r, fs[..|fs| - 1]);
      PushBacked(r.PushAll(fs[..|fs| - 1]), fs[|fs| - 1]);
      PushHeld(r.PushAll(fs[..|fs| - 1]), fs[|fs| - 1]);
    }
  }

  /** Content stays. */
  lemma {:induction false} PushAllGrows(r: Receiver, fs: seq<StreamFrame>, id: nat, o: int)
    requires o in r.At(id).content
    ensures o in r.PushAll(fs).At(id).content
  {
    if fs != [] {
      PushAllGrows(r, fs[..|fs| - 1], id, o);
    }
  }

  /** The turn of frame `i`. */
  lemma {:induction false} TurnOf(r: Receiver, fs: seq<StreamFrame>, i: nat)
    requires r.TakesAll(fs) && i < |fs|
    ensures r.TakesAll(fs[..i]) && r.PushAll(fs[..i]).Takes(fs[i])
    ensures r.PushAll(fs[..i + 1]) == r.PushAll(fs[..i]).Push(fs[i])
  {
    assert fs[..i + 1][..i] == fs[..i];
    if i == |fs| - 1 {
      assert fs[..i + 1] == fs;
    } else {
      TurnOf(r, fs[..|fs| - 1], i);
      assert fs[..|fs| - 1][..i] == fs[..i] && fs[..|fs| - 1][..i + 1] == fs[..i + 1];
    }
  }

  /** What is accepted later stays accepted. */
  lemma {:induction false} AcceptedStays(r: Receiver, fs: seq<StreamFrame>, i: nat)
    requires i <= |fs|
    ensures r.PushAll(fs[..i]).accepted <= r.PushAll(fs).accepted
  {
    if i == |fs| {
      assert fs[..i] == fs;
    } else {
      AcceptedStays(r, fs[..|fs| - 1], i);
      assert fs[..|fs| - 1][..i] == fs[..i];
    }
  }

  /** What is accepted was accepted before, or is one of the frames that were pushed. */
  lemma {:induction false} AcceptedFrom(r: Receiver, fs: seq<StreamFrame>, z: StreamFrame) returns (i: nat)
    requires z in r.PushAll(fs).accepted && z !in r.accepted
    ensures i < |fs| && fs[i] == z && r.PushAll(fs[..i]).At(z.streamID).Verdict(z) == Accepted
  {
    var init, y := fs[..|fs| - 1], fs[|fs| - 1];
    if z in r.PushAll(init).accepted {
      i := AcceptedFrom(r, init, z);
      assert init[..i] == fs[..i];
    } else {
      i := |fs| - 1;
    }
  }

  // ---------------------------------------------------------------------------------------------
  // A live piece is received as a whole
  // ---------------------------------------------------------------------------------------------

  /** The receiver accepted a frame that contains `x`. */
  ghost predicate Got(accepted: set<StreamFrame>, x: StreamFrame) {
    exists z :: z in accepted && Contains(z, x)
  }

  ghost predicate Carried(sent: set<StreamFrame>, streams: Streams) {
    forall y :: y in sent ==> Carries(streams, y)
  }

  /** Every transmission that overlaps a piece contains it. */
  ghost predicate Covered(sent: set<StreamFrame>, pieces: set<StreamFrame>) {
    forall x, y :: x in pieces && y in sent && Overlap(x, y) ==> Contains(y, x)
  }

  lemma GotMore(accepted: set<StreamFrame>, accepted': set<StreamFrame>, x: StreamFrame)
    requires Got(accepted, x) && accepted <= accepted'
    ensures Got(accepted', x)
  {
    var z :| z in accepted && Contains(z, x);
    assert z in accepted';
  }

  /** A frame with data and one that is only a FIN meet at the same offset, and the queue has room for one of them. */
  ghost predicate Clashes(a: Assembly, y: StreamFrame) {
    y.offset in a.queued && (a.queued[y.offset].data == [] <==> y.data != [])
  }

  /** A piece that the sorter takes is received, unless it was before, exactly if it does not clash: any other duplicate
      comes from a frame that contains it. */
  lemma PushGotIff(r: Receiver, y: StreamFrame, sent: set<StreamFrame>, pieces: set<StreamFrame>, streams: Streams)
    requires AllBacked(r) && r.accepted <= sent && Carried(sent, streams) && Covered(sent, pieces)
    requires y in pieces && Carries(streams, y) && r.Takes(y)
    ensures Got(r.Push(y).accepted, y) <==> Got(r.accepted, y) || !Clashes(r.At(y.streamID), y)
  {
    var a, accepted := r.At(y.streamID), r.Push(y).accepted;
    assert Backed(a, y.streamID, r.accepted);
    if Got(r.accepted, y) {
      GotMore(r.accepted, accepted, y);
    }
    if a.Verdict(y) == Accepted {
      assert y in accepted && Contains(y, y);
    } else if y.offset in a.queued {
      var q := a.queued[y.offset];
      assert a.Coherent() && q in accepted && Carries(streams, q);
      assert !Clashes(a, y) ==> Overlap(y, q);
    } else {
      assert y.Covers(y.offset);
      assert Supplied(r.accepted, y.streamID, y.offset, a.content[y.offset]);
      var z :| z in r.accepted && Supplies(z, y.streamID, y.offset, a.content[y.offset]);
      assert Overlap(y, z);
    }
  }

  /** Every FIN that was taken from a stream stands behind the last byte that was written. */
  ghost predicate FinAtEnd(streams: Streams) {
    forall id :: id in streams && streams[id].fin.Some? ==> streams[id].fin.value == |streams[id].written|
  }

  /** Frames clash only if something was written behind a FIN. */
  lemma NothingClashes(r: Receiver, y: StreamFrame, sent: set<StreamFrame>, streams: Streams)
    requires AllBacked(r) && r.accepted <= sent && Carried(sent, streams) && FinAtEnd(streams) && y in sent
    ensures !Clashes(r.At(y.streamID), y)
  {
    var a := r.At(y.streamID);
    assert Backed(a, y.streamID, r.accepted);
    if y.offset in a.queued {
      var q := a.queued[y.offset];
      assert a.Coherent() && q in sent && Carries(streams, q) && Carries(streams, y);
    }
  }

  // ---------------------------------------------------------------------------------------------
  // Packets as the peer reads them
  // ---------------------------------------------------------------------------------------------

  function Pieces(fs: seq<StreamFrame>): seq<StreamFrame> {
    seq(|fs|, i requires 0 <= i < |fs| => Piece(fs[i]))
  }

  /** The stream frames of a packet as the peer reads them. */
  function ReadAs(fs: seq<StreamFrame>): seq<StreamFrame> {
    Pieces(StreamFrameCodec.Swallow(fs))
  }

  /** How many frames the peer reads as they were sent. */
  function Intact(fs: seq<StreamFrame>): (k: nat)
    ensures k <= |fs|
  {
    if |fs| <= 1 then |fs| else if fs[0].data == [] then 0 else 1 + Intact(fs[1..])
  }

  /** A packet that reads back as it was written: no frame in front of another one is empty. */
  ghost predicate Readable(fs: seq<StreamFrame>) {
    forall i :: 0 <= i < |fs| - 1 ==> fs[i].data != []
  }

  /** Frames `rs` are `fs` up to number `k`, which swallowed the others. */
  ghost predicate SwallowedAt(fs: seq<StreamFrame>, rs: seq<StreamFrame>, k: nat) {
    && |rs| == k + 1 < |fs| && fs[k].data == []
    && rs[k].data != [] && rs[k] == Piece(fs[k]).(data := rs[k].data)
  }

  /** The packet is read as it was sent, or up to the first frame that is empty. */
  lemma {:induction false} ReadsAs(fs: seq<StreamFrame>)
    ensures var k, rs := Intact(fs), ReadAs(fs);
            && (Readable(fs) <==> k == |fs|)
            && k <= |rs| && (forall i :: 0 <= i < k ==> rs[i] == Piece(fs[i]))
            && (if k == |fs| then |rs| == k else SwallowedAt(fs, rs, k))
  {
    if |fs| > 1 {
      var rest := fs[1..];
      if fs[0].data == [] {
        assert StreamFrameCodec.StreamBytes(rest) != [] by { BytesNotEmpty(rest[0]); }
      } else {
        ReadsAs(rest);
        assert Readable(fs) <==> Readable(rest) by {
          assert forall i :: 0 <= i < |rest| - 1 ==> rest[i] == fs[i + 1];
          assert forall i :: 0 < i < |fs| - 1 ==> fs[i] == rest[i - 1];
        }
      }
    }
  }

  lemma BytesNotEmpty(f: StreamFrame)
    ensures StreamFrameCodec.Bytes(f) != []
  {
    StreamFrameCodec.BytesLength(f);
  }
}
