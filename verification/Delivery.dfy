/** What the receiver has of a stream, and what its readers get, over whole runs of two endpoints. */
module Delivery {
  import opened Frames
  import opened StreamFrameSorters
  import opened ReceiveStreams
  import opened Ledger
  import opened SenderData
  import opened Receivers
  import opened EndToEnd

  // ---------------------------------------------------------------------------------------------
  // What is received is what was written
  // ---------------------------------------------------------------------------------------------

  /** The data of `z` was written to its stream. */
  ghost predicate Agrees(z: StreamFrame, streams: Streams) {
    z.streamID in streams && z.End() <= |streams[z.streamID].written| &&
      z.data == streams[z.streamID].written[z.offset..z.End()]
  }

  /** Every byte that the receiver has of a stream was written there. */
  ghost predicate AllWritten(w: World) {
    forall id: nat, o :: o in w.receiver.At(id).content ==>
      && id in w.sender.streams && 0 <= o < |w.sender.streams[id].written|
      && w.receiver.At(id).content[o] == w.sender.streams[id].written[o]
  }

  lemma AgreeingIsWritten(w: World)
    requires AllBacked(w.receiver) && forall z :: z in w.receiver.accepted ==> Agrees(z, w.sender.streams)
    ensures AllWritten(w)
  {
    forall id: nat, o | o in w.receiver.At(id).content
      ensures id in w.sender.streams && 0 <= o < |w.sender.streams[id].written|
      ensures w.receiver.At(id).content[o] == w.sender.streams[id].written[o]
    {
      var b := w.receiver.At(id).content[o];
      assert Backed(w.receiver.At(id), id, w.receiver.accepted);
      assert Supplied(w.receiver.accepted, id, o, b);
      var z :| z in w.receiver.accepted && Supplies(z, id, o, b);
    }
  }

  lemma SentAgrees(w: World, pieces: set<StreamFrame>, z: StreamFrame)
    requires Inv(w, pieces) && z in w.sent
    ensures Agrees(z, w.sender.streams)
  {
    assert Carries(w.sender.streams, z);
  }

  /** In every run in which packets arrive clean, every byte that the receiver has was written. */
  lemma CleanIsWritten(hs: seq<Happening>, w: World, c: Care)
    requires Reached(hs, w, c) && c.clean
    ensures AllWritten(w)
  {
    hide Reached, Inv, Agrees, AllWritten;
    var pieces := RunKept(hs, w, c);
    forall z | z in w.receiver.accepted
      ensures Agrees(z, w.sender.streams)
    {
      SentAgrees(w, pieces, z);
    }
    InvBacked(w, pieces);
    AgreeingIsWritten(w);
  }

  lemma InvBacked(w: World, pieces: set<StreamFrame>)
    requires Inv(w, pieces)
    ensures AllBacked(w.receiver) && AllHeld(w.receiver)
  {
  }

  /** The frame that swallows the rest of the packet. */
  ghost function Swallower(fs: seq<StreamFrame>): StreamFrame
    requires !Readable(fs)
  {
    ReadsAs(fs);
    ReadAs(fs)[Intact(fs)]
  }

  /** Exactly when the arrival of a packet leaves the receiver with what was written: if the packet is clean, or the
      bytes that were swallowed are by chance those that were written behind the FIN. */
  lemma ArrivalIff(hs: seq<Happening>, w: World, c: Care, n: nat)
    requires Reached(hs, w, c) && c.clean && Possible(w, Arrive(n)) && n !in w.receiver.registered
    ensures AllWritten(Next(w, Arrive(n))) <==>
            Clean(w.receiver, w.packets[n]) ||
              (!Readable(w.packets[n]) && Agrees(Swallower(w.packets[n]), w.sender.streams))
  {
    hide Reached, AllWritten, Agrees, Clean, Readable, Swallower, Next;
    if Clean(w.receiver, w.packets[n]) {
      CleanArrives(hs, w, c, n);
    } else {
      UncleanArrives(hs, w, c, n);
    }
  }

  lemma CleanArrives(hs: seq<Happening>, w: World, c: Care, n: nat)
    requires Reached(hs, w, c) && c.clean && Possible(w, Arrive(n)) && n !in w.receiver.registered
    requires Clean(w.receiver, w.packets[n])
    ensures AllWritten(Next(w, Arrive(n)))
  {
    hide AllWritten, Agrees, Clean, Inv, AllGot, FinAtEnd, Reached;
    var pieces := RunKept(hs, w, c);
    var w' := Next(w, Arrive(n));
    ArriveInv(w, n, pieces);
    ArriveOnlySent(w, n, pieces);
    forall z | z in w'.receiver.accepted
      ensures Agrees(z, w'.sender.streams)
    {
      SentAgrees(w', pieces, z);
    }
    InvBacked(w', pieces);
    AgreeingIsWritten(w');
  }

  /** The last frame that is read is accepted. */
  lemma SwallowerAccepted(r: Receiver, fs: seq<StreamFrame>)
    requires !Clean(r, fs)
    ensures !Readable(fs)
    ensures var k, rs, x := Intact(fs), ReadAs(fs), Swallower(fs);
            && SwallowedAt(fs, rs, k) && x == rs[k] && rs == rs[..k] + [x]
            && r.PushAll(rs[..k]).At(x.streamID).Verdict(x) == Accepted
            && r.PushAll(rs) == r.PushAll(rs[..k]).Push(x)
  {
    hide Intact, ReadAs;
    ReadsAs(fs);
  }

  lemma UncleanArrives(hs: seq<Happening>, w: World, c: Care, n: nat)
    requires Reached(hs, w, c) && c.clean && Possible(w, Arrive(n)) && n !in w.receiver.registered
    requires !Clean(w.receiver, w.packets[n])
    ensures !Readable(w.packets[n])
    ensures AllWritten(Next(w, Arrive(n))) <==> Agrees(Swallower(w.packets[n]), w.sender.streams)
  {
    hide Clean, Intact, ReadAs, Readable, Swallower, Reached;
    var r, fs, w' := w.receiver, w.packets[n], Next(w, Arrive(n));
    SwallowerAccepted(r, fs);
    var x := Swallower(fs);
    if AllWritten(w') {
      SwallowedContent(w', x, r.PushAll(ReadAs(fs)[..Intact(fs)]));
    }
    if Agrees(x, w.sender.streams) {
      AgreeingArrives(hs, w, c, n);
    }
  }

  lemma WrittenAt(w: World, id: nat, o: int)
    requires AllWritten(w) && o in w.receiver.At(id).content
    ensures id in w.sender.streams && 0 <= o < |w.sender.streams[id].written|
    ensures w.receiver.At(id).content[o] == w.sender.streams[id].written[o]
  {
  }

  lemma AcceptedContent(a: Assembly, x: StreamFrame, i: nat)
    requires i < |x.data|
    ensures x.offset + i in a.Accept(x).content && a.Accept(x).content[x.offset + i] == x.data[i]
  {
    assert x.Covers(x.offset + i);
  }

  lemma SwallowedContent(w: World, x: StreamFrame, r: Receiver)
    requires r.At(x.streamID).Verdict(x) == Accepted && w.receiver.At(x.streamID) == r.Push(x).At(x.streamID)
    requires AllWritten(w) && x.data != []
    ensures Agrees(x, w.sender.streams)
  {
    hide AllWritten, Assembly.Verdict;
    var a := r.At(x.streamID);
    AcceptedContent(a, x, |x.data| - 1);
    WrittenAt(w, x.streamID, x.offset + (|x.data| - 1));
    var written := w.sender.streams[x.streamID].written;
    forall i | 0 <= i < |x.data|
      ensures x.data[i] == written[x.offset..x.End()][i]
    {
      AcceptedContent(a, x, i);
      WrittenAt(w, x.streamID, x.offset + i);
    }
  }

  lemma AgreeingArrives(hs: seq<Happening>, w: World, c: Care, n: nat)
    requires Reached(hs, w, c) && c.clean && Possible(w, Arrive(n)) && n !in w.receiver.registered
    requires !Clean(w.receiver, w.packets[n]) && !Readable(w.packets[n])
    requires Agrees(Swallower(w.packets[n]), w.sender.streams)
    ensures AllWritten(Next(w, Arrive(n)))
  {
    hide AllWritten, Agrees, Clean, Inv, AllGot, FinAtEnd, Reached, Intact, ReadAs, Readable, Swallower,
      Receiver.PushAll;
    var pieces := RunKept(hs, w, c);
    var r, fs, w' := w.receiver, w.packets[n], Next(w, Arrive(n));
    SwallowerAccepted(r, fs);
    ReadsAs(fs);
    ArriveInv(w, n, pieces);
    InvRecorded(w, pieces, n);
    forall z | z in w'.receiver.accepted
      ensures Agrees(z, w'.sender.streams)
    {
      if z in r.accepted {
        SentAgrees(w, pieces, z);
      } else {
        var i := AcceptedFrom(r, ReadAs(fs), z);
        if i < Intact(fs) {
          SentAgrees(w, pieces, Piece(fs[i]));
        }
      }
    }
    InvBacked(w', pieces);
    AgreeingIsWritten(w');
  }

  lemma InvRecorded(w: World, pieces: set<StreamFrame>, n: nat)
    requires Inv(w, pieces) && n in w.packets
    ensures Recorded(w.packets[n], w.sent)
  {
  }

  // ---------------------------------------------------------------------------------------------
  // Whole runs
  // ---------------------------------------------------------------------------------------------

  const CLEAN_AND_TIDY := Care(true, false, true)

  /** The receiver has something behind the end of a stream that is settled. */
  ghost predicate SpoiltAt(w: World, id: nat, o: int) {
    && id in w.sender.streams && w.sender.streams[id].fin.Some?
    && |w.sender.streams[id].written| <= o && o in w.receiver.At(id).content
  }

  ghost predicate Spoilt(w: World) {
    exists id: nat, o: int :: SpoiltAt(w, id, o)
  }

  lemma SpoiltStays(v: World, h: Happening, w: World)
    requires EndToEnd.Leads(v, h, w, TIDY) && FinAtEnd(v.sender.streams) && Spoilt(v)
    ensures Spoilt(w)
  {
    hide Step, Outgoing, FinAtEnd, ReadAs, Receiver.PushAll;
    var id: nat, o :| SpoiltAt(v, id, o);
    match h
    case Act(e) =>
      StepTidy(v.sender, e);
      assert SpoiltAt(w, id, o);
    case Arrive(n) =>
      PushAllGrows(v.receiver, ReadAs(v.packets[n]), id, o);
      assert SpoiltAt(w, id, o);
    case TakeFrame(_) => assert SpoiltAt(w, id, o);
    case Acknowledge(_) => assert SpoiltAt(w, id, o);
  }

  /** A frame that swallows others is a FIN, and what it swallows lies behind the end of its stream. */
  lemma UncleanSpoils(v: World, n: nat, pieces: set<StreamFrame>)
    requires Kept(v, pieces, TIDY) && Possible(v, Arrive(n)) && n !in v.receiver.registered
    requires !Clean(v.receiver, v.packets[n])
    ensures Spoilt(Next(v, Arrive(n)))
  {
    hide Clean, Intact, ReadAs, Readable, Swallower, HandlerInv, Tiles, Covered, AllBacked, AllHeld, AllGot;
    var r, fs, w := v.receiver, v.packets[n], Next(v, Arrive(n));
    var k := Intact(fs);
    SwallowerAccepted(r, fs);
    InvRecorded(v, pieces, n);
    var x := Swallower(fs);
    assert Carries(v.sender.streams, Piece(fs[k]));
    assert x.Covers(x.offset);
    assert SpoiltAt(w, x.streamID, x.offset);
  }

  lemma {:induction false} CleanOrSpoilt(hs: seq<Happening>, w: World)
    requires Reached(hs, w, TIDY)
    ensures Reached(hs, w, CLEAN_AND_TIDY) || Spoilt(w)
  {
    hide Kept, Spoilt, Possible, Clean, Next;
    if hs != [] {
      var init, last := hs[..|hs| - 1], hs[|hs| - 1];
      var v :| EndToEnd.Leads(v, last, w, TIDY) && Reached(init, v, TIDY);
      CleanOrSpoilt(init, v);
      var pieces := RunKept(init, v, TIDY);
      KeptTidy(v, pieces);
      if Spoilt(v) {
        SpoiltStays(v, last, w);
      } else if Careful(v, last, CLEAN_AND_TIDY) {
        assert EndToEnd.Leads(v, last, w, CLEAN_AND_TIDY);
      } else {
        UncleanSpoils(v, last.number, pieces);
      }
    }
  }

  lemma KeptTidy(w: World, pieces: set<StreamFrame>)
    requires Kept(w, pieces, TIDY)
    ensures FinAtEnd(w.sender.streams)
  {
  }

  /** If nothing is written to a stream when its FIN was sent, the receiver has nothing but what was written exactly if
      every packet arrived clean. */
  lemma WrittenIffClean(hs: seq<Happening>, w: World)
    requires Reached(hs, w, TIDY)
    ensures AllWritten(w) <==> Reached(hs, w, CLEAN_AND_TIDY)
  {
    hide Reached;
    CleanOrSpoilt(hs, w);
    if Reached(hs, w, CLEAN_AND_TIDY) {
      CleanIsWritten(hs, w, CLEAN_AND_TIDY);
    } else {
      var id: nat, o :| SpoiltAt(w, id, o);
    }
  }

  // ---------------------------------------------------------------------------------------------
  // What readers get
  // ---------------------------------------------------------------------------------------------

  /** In every run in which packets arrive clean: what the peer's readers got is a prefix of what was written. */
  lemma DeliveredIsPrefix(hs: seq<Happening>, w: World, c: Care, id: nat)
    requires Reached(hs, w, c) && c.clean
    ensures w.receiver.At(id).delivered <= if id in w.sender.streams then w.sender.streams[id].written else []
  {
    hide Reached, Kept, AllWritten;
    var a, written := w.receiver.At(id), if id in w.sender.streams then w.sender.streams[id].written else [];
    CleanIsWritten(hs, w, c);
    RunCoherent(hs, w, c, id);
    forall o | 0 <= o < |a.delivered|
      ensures o < |written| && a.delivered[o] == written[o]
    {
      assert a.content[o] == a.delivered[o];
      WrittenAt(w, id, o);
    }
    assert |a.delivered| > 0 ==> a.delivered[|a.delivered| - 1] == a.content[|a.delivered| - 1];
    assert |a.delivered| <= |written|;
  }

  lemma RunCoherent(hs: seq<Happening>, w: World, c: Care, id: nat)
    requires Reached(hs, w, c)
    ensures Backed(w.receiver.At(id), id, w.receiver.accepted)
  {
    hide Reached, Inv;
    var pieces := RunKept(hs, w, c);
    InvBacked(w, pieces);
  }

  /** In every run in which packets arrive clean: a reader that meets the FIN has got everything that was written when
      the FIN was sent, and if nothing may be written later, everything. */
  lemma EofIsTheEnd(hs: seq<Happening>, w: World, c: Care, id: nat)
    requires Reached(hs, w, c) && c.clean && FinAtHead(w.receiver.At(id))
    ensures id in w.sender.streams
    ensures var s, delivered := w.sender.streams[id], w.receiver.At(id).Pop().delivered;
            && s.fin.Some? && s.fin.value <= |s.written| && delivered == s.written[..s.fin.value]
            && (c.tidy ==> delivered == s.written)
  {
    hide Reached, Tiles, Covered, HandlerInv, AllBacked, AllHeld, AllGot, PacketsSent;
    var a := w.receiver.At(id);
    RunCoherent(hs, w, c, id);
    DeliveredIsPrefix(hs, w, c, id);
    var f := a.queued[|a.delivered|];
    assert f.offset == |a.delivered| by { assert a.Coherent(); }
    var pieces := RunKept(hs, w, c);
    assert f in w.sent && Carries(w.sender.streams, f);
    var written := w.sender.streams[id].written;
    assert a.delivered == written[..f.offset];
    assert a.delivered + f.data == written[..f.End()];
  }

  /** The reader of stream `id` takes `k` frames. */
  lemma {:induction false} TakesFrames(hs: seq<Happening>, w: World, c: Care, id: nat, k: nat)
    returns (hs': seq<Happening>, w': World)
    requires Reached(hs, w, c)
    ensures Reached(hs', w', c) && w'.sender == w.sender && w'.receiver.At(id) == Popped(w.receiver.At(id), k)
    decreases k
  {
    hide Reached, EndToEnd.Leads, Next, Possible, Receiver.At;
    hs', w' := hs, w;
    if k > 0 {
      var hs1, w1 := TakesFrames(hs, w, c, id, k - 1);
      TakeLeads(w1, c, id);
      w' := Next(w1, TakeFrame(id));
      hs' := OneMore(hs1, w1, TakeFrame(id), w', c);
    }
  }

  lemma TakeLeads(w: World, c: Care, id: nat)
    ensures Possible(w, TakeFrame(id)) && EndToEnd.Leads(w, TakeFrame(id), Next(w, TakeFrame(id)), c)
    ensures Next(w, TakeFrame(id)).sender == w.sender &&
            Next(w, TakeFrame(id)).receiver.At(id) == w.receiver.At(id).Pop()
  {
  }

  lemma OneMore(hs: seq<Happening>, w: World, h: Happening, w': World, c: Care) returns (hs': seq<Happening>)
    requires Reached(hs, w, c) && EndToEnd.Leads(w, h, w', c)
    ensures Reached(hs', w', c)
  {
    hide EndToEnd.Leads;
    hs' := hs + [h];
    assert hs'[..|hs|] == hs;
  }

  /** `Read` of `ReceiveStreams.ReceiveStream` reports EOF when the last of the `k` frames that it took carried a FIN.
      Then it took everything that was written. */
  lemma ReaderGetsAll(hs: seq<Happening>, w: World, c: Care, id: nat, k: nat)
    requires Reached(hs, w, c) && c.clean && k > 0 && FinAtHead(Popped(w.receiver.At(id), k - 1))
    ensures id in w.sender.streams
    ensures var s, delivered := w.sender.streams[id], Popped(w.receiver.At(id), k).delivered;
            && s.fin.Some? && s.fin.value <= |s.written| && delivered == s.written[..s.fin.value]
            && (c.tidy ==> delivered == s.written)
  {
    hide Reached;
    var hs', w' := TakesFrames(hs, w, c, id, k - 1);
    EofIsTheEnd(hs', w', c, id);
  }

  /** In every run in which nothing is written behind a FIN and no packet arrives with an empty frame inside: readers
      get a prefix of what was written, and all of it when `Read` reports EOF. */
  lemma PlainDelivery(hs: seq<Happening>, w: World, id: nat, k: nat)
    requires ReachedPlainly(hs, w)
    ensures w.receiver.At(id).delivered <= if id in w.sender.streams then w.sender.streams[id].written else []
    ensures k > 0 && FinAtHead(Popped(w.receiver.At(id), k - 1)) ==>
            id in w.sender.streams && Popped(w.receiver.At(id), k).delivered == w.sender.streams[id].written
  {
    hide Reached, ReachedPlainly;
    PlainIsCareful(hs, w);
    DeliveredIsPrefix(hs, w, CAREFUL, id);
    if k > 0 && FinAtHead(Popped(w.receiver.At(id), k - 1)) {
      ReaderGetsAll(hs, w, CAREFUL, id, k);
    }
  }
}
