/** Reassembly of one stream's frames (stream_frame_sorter.go): a list of gaps, a map of queued frames
    and a read position, checked against a plain record of which byte was accepted at which offset. */
module StreamFrameSorters {
  import opened Frames

  const MAX_GAPS := 1000

  /** The half-open interval of offsets [start, end). */
  datatype Interval = Interval(start: nat, end: nat)

  datatype PushResult = Accepted | DuplicateStreamData | EmptyStreamData | OverlappingStreamData | TooManyGaps

  // ---------------------------------------------------------------------------------------------
  // The gap list
  // ---------------------------------------------------------------------------------------------

  ghost predicate InGaps(gaps: seq<Interval>, o: nat) {
    exists i :: 0 <= i < |gaps| && gaps[i].start <= o < gaps[i].end
  }

  /** Gaps are non-empty, in ascending order, and at least one received byte lies between two of them. */
  ghost predicate Separated(gaps: seq<Interval>) {
    && (forall i :: 0 <= i < |gaps| ==> gaps[i].start < gaps[i].end <= MAX_BYTE_COUNT)
    && (forall i, j :: 0 <= i < j < |gaps| ==> gaps[i].end < gaps[j].start)
  }

  /** What is left of gap `g` once the bytes [start, end) inside it have arrived. */
  function Remainder(g: Interval, start: nat, end: nat): seq<Interval> {
    (if g.start < start then [Interval(g.start, start)] else []) +
    (if end < g.end then [Interval(end, g.end)] else [])
  }

  /** Cutting [start, end) out of gap `i`. */
  function Cut(gaps: seq<Interval>, i: nat, start: nat, end: nat): seq<Interval>
    requires i < |gaps|
  {
    gaps[..i] + Remainder(gaps[i], start, end) + gaps[i + 1..]
  }

  /** Where each interval of the cut list comes from. */
  lemma CutOrigin(gaps: seq<Interval>, i: nat, start: nat, end: nat, k: nat) returns (j: nat)
    requires i < |gaps| && gaps[i].start <= start < end <= gaps[i].end
    requires k < |Cut(gaps, i, start, end)|
    ensures j < |gaps|
    ensures var c := Cut(gaps, i, start, end)[k];
            if j == i then c in Remainder(gaps[i], start, end) else c == gaps[j]
    ensures j < i ==> k == j
    ensures j == i ==>
            && i <= k < i + |Remainder(gaps[i], start, end)|
            && Cut(gaps, i, start, end)[k] == Remainder(gaps[i], start, end)[k - i]
    ensures j > i ==> k == j + |Remainder(gaps[i], start, end)| - 1
  {
    var mid := Remainder(gaps[i], start, end);
    if k < i {
      j := k;
    } else if k < i + |mid| {
      j := i;
    } else {
      j := k + 1 - |mid|;
    }
  }

  lemma CutSeparated(gaps: seq<Interval>, i: nat, start: nat, end: nat)
    requires Separated(gaps) && i < |gaps|
    requires gaps[i].start <= start < end <= gaps[i].end
    ensures Separated(Cut(gaps, i, start, end))
  {
    var cut := Cut(gaps, i, start, end);
    forall k | 0 <= k < |cut|
      ensures cut[k].start < cut[k].end <= MAX_BYTE_COUNT
    {
      var j := CutOrigin(gaps, i, start, end, k);
    }
    forall k, l | 0 <= k < l < |cut|
      ensures cut[k].end < cut[l].start
    {
      var j := CutOrigin(gaps, i, start, end, k);
      var m := CutOrigin(gaps, i, start, end, l);
    }
  }

  /** Cutting removes exactly the offsets [start, end) from the gaps. */
  lemma CutRemoves(gaps: seq<Interval>, i: nat, start: nat, end: nat, o: nat)
    requires Separated(gaps) && i < |gaps|
    requires gaps[i].start <= start < end <= gaps[i].end
    ensures InGaps(Cut(gaps, i, start, end), o) <==> InGaps(gaps, o) && !(start <= o < end)
  {
    var cut := Cut(gaps, i, start, end);
    if InGaps(cut, o) {
      var k :| 0 <= k < |cut| && cut[k].start <= o < cut[k].end;
      var j := CutOrigin(gaps, i, start, end, k);
      assert gaps[j].start <= o < gaps[j].end;
    }
    if InGaps(gaps, o) && !(start <= o < end) {
      CutKeeps(gaps, i, start, end, o);
    }
  }

  lemma CutKeeps(gaps: seq<Interval>, i: nat, start: nat, end: nat, o: nat)
    requires i < |gaps| && gaps[i].start <= start < end <= gaps[i].end
    requires InGaps(gaps, o) && !(start <= o < end)
    ensures InGaps(Cut(gaps, i, start, end), o)
  {
    var cut := Cut(gaps, i, start, end);
    var mid := Remainder(gaps[i], start, end);
    var k :| 0 <= k < |gaps| && gaps[k].start <= o < gaps[k].end;
    if k < i {
      assert cut[k] == gaps[k];
    } else if k > i {
      assert cut[k + |mid| - 1] == gaps[k];
    } else if o < start {
      assert cut[i] == mid[0];
    } else {
      assert cut[i + |mid| - 1] == mid[|mid| - 1];
    }
  }

  // ---------------------------------------------------------------------------------------------
  // The reference: what was accepted, what is queued, what was handed to the reader
  // ---------------------------------------------------------------------------------------------

  /** `content` records the byte accepted at each offset; `delivered` is everything popped so far. */
  datatype Assembly = Assembly(content: map<int, byte>, queued: map<int, StreamFrame>, delivered: seq<byte>) {

    /** The byte at `o` sits in the queued frame that starts at `k`. */
    ghost predicate QueuedAt(k: int, o: int) {
      k in queued && queued[k].Covers(o)
    }

    /** Delivered bytes are the accepted bytes from offset 0 on. */
    ghost predicate Delivered() {
      forall o :: 0 <= o < |delivered| ==> o in content && content[o] == delivered[o]
    }

    /** Queued frames sit under their own offset; an empty one carries a FIN. */
    ghost predicate Keyed() {
      forall k :: k in queued ==> queued[k].offset == k && (queued[k].data == [] ==> queued[k].fin)
    }

    /** Queued frames hold accepted bytes that were not delivered yet. */
    ghost predicate Held() {
      forall k, o :: QueuedAt(k, o) ==>
        |delivered| <= k <= o && o in content && content[o] == queued[k].data[o - queued[k].offset]
    }

    /** Every accepted byte that was not delivered is in a queued frame ... */
    ghost predicate Found() {
      forall o :: o in content && |delivered| <= o ==> exists k :: QueuedAt(k, o)
    }

    /** ... and in no other. */
    ghost predicate Disjoint() {
      forall k, l, o :: QueuedAt(k, o) && QueuedAt(l, o) ==> k == l
    }

    ghost predicate Coherent() {
      Delivered() && Keyed() && Held() && Found() && Disjoint() && forall o :: o in content ==> 0 <= o
    }

    ghost predicate Has(frame: StreamFrame) {
      forall o :: frame.Covers(o) ==> o in content
    }

    ghost predicate HasNone(frame: StreamFrame) {
      forall o :: frame.Covers(o) ==> o !in content
    }

    /** The verdict on a frame, in terms of bytes alone (the limit on the number of gaps aside). */
    ghost function Verdict(frame: StreamFrame): PushResult {
      if frame.offset in queued then DuplicateStreamData
      else if frame.data == [] then if frame.fin then Accepted else EmptyStreamData
      else if Has(frame) then DuplicateStreamData
      else if HasNone(frame) then Accepted
      else OverlappingStreamData
    }

    ghost function Accept(frame: StreamFrame): (t: Assembly)
      ensures forall o :: o in t.content <==> o in content || frame.Covers(o)
      ensures forall o :: o in t.content ==>
                t.content[o] == if frame.Covers(o) then frame.data[o - frame.offset] else content[o]
    {
      Assembly(map o | o in content.Keys + frame.Offsets() ::
                 if frame.Covers(o) then frame.data[o - frame.offset] else content[o],
               queued[frame.offset := frame], delivered)
    }

    /** The assembly after a push that did not run into the limit on gaps. */
    ghost function Push(frame: StreamFrame): Assembly {
      if Verdict(frame) == Accepted then Accept(frame) else this
    }

    function Head(): Option<StreamFrame> {
      if |delivered| in queued then Some(queued[|delivered|]) else None
    }

    function Pop(): Assembly {
      match Head()
      case None => this
      case Some(f) => Assembly(content, queued - {|delivered|}, delivered + f.data)
    }

    lemma AcceptQueued(frame: StreamFrame)
      ensures forall k, o :: Accept(frame).QueuedAt(k, o) <==>
              if k == frame.offset then frame.Covers(o) else QueuedAt(k, o)
    {
    }

    lemma AcceptHeld(frame: StreamFrame)
      requires Coherent() && Verdict(frame) == Accepted
      ensures Accept(frame).Held() && Accept(frame).Disjoint()
    {
      assert frame.data != [] ==> HasNone(frame);
      AcceptQueued(frame);
      assert frame.data != [] ==> frame.Covers(frame.offset);
    }

    lemma AcceptFound(frame: StreamFrame)
      requires Coherent() && Verdict(frame) == Accepted
      ensures Accept(frame).Found()
    {
      var t := Accept(frame);
      AcceptQueued(frame);
      forall o | o in t.content && |delivered| <= o
        ensures exists k :: t.QueuedAt(k, o)
      {
        if o in content {
          var k :| QueuedAt(k, o);
          assert t.QueuedAt(k, o);
        } else {
          assert t.QueuedAt(frame.offset, o);
        }
      }
    }

    /** A push keeps the assembly coherent and never alters an accepted byte. */
    lemma PushCoherent(frame: StreamFrame)
      requires Coherent()
      ensures Push(frame).Coherent()
      ensures forall o :: o in content ==> o in Push(frame).content && Push(frame).content[o] == content[o]
    {
      if Verdict(frame) == Accepted {
        AcceptHeld(frame);
        AcceptFound(frame);
        assert frame.data != [] ==> HasNone(frame);
      }
    }

    /** Data that was accepted once is a duplicate for ever, and changes nothing any more. */
    lemma NeverTwice(frame: StreamFrame, later: Assembly)
      requires frame.data != [] && Verdict(frame) == Accepted
      requires forall o :: o in Push(frame).content ==> o in later.content
      ensures later.Verdict(frame) == DuplicateStreamData && later.Push(frame) == later
    {
    }

    /** Two frames that are both new and have no byte in common can arrive in any order. */
    lemma OrderIsFree(f: StreamFrame, g: StreamFrame)
      requires f.data != [] && g.data != [] && forall o :: f.Covers(o) ==> !g.Covers(o)
      requires Verdict(f) == Accepted && Verdict(g) == Accepted
      ensures Push(f).Push(g) == Push(g).Push(f) && Push(f).Verdict(g) == Accepted
    {
      assert f.Covers(f.offset) && g.Covers(g.offset);
      var a, b := Push(f).Push(g), Push(g).Push(f);
      assert a.content == b.content;
      assert a.queued == b.queued;
    }

    /** Popping delivers the frame at the end of what was delivered, which leaves the queue. */
    lemma PopTakesHead()
      requires Head().Some?
      ensures |Pop().delivered| == |delivered| + |Head().value.data| && |Pop().queued| < |queued|
    {
      assert queued == Pop().queued[|delivered| := queued[|delivered|]];
    }

    /** Popping keeps the assembly coherent and extends what was delivered. */
    lemma PopCoherent()
      requires Coherent()
      ensures Pop().Coherent()
      ensures delivered <= Pop().delivered
    {
      var n := |delivered|;
      if n in queued {
        var t := Pop();
        assert forall o :: n <= o < n + |queued[n].data| ==> QueuedAt(n, o);
        assert forall k, o :: t.QueuedAt(k, o) <==> QueuedAt(k, o) && k != n;
        forall k, o | t.QueuedAt(k, o)
          ensures |t.delivered| <= k
        {
          assert QueuedAt(k, k) && !QueuedAt(n, k);
        }
        forall o | o in t.content && |t.delivered| <= o
          ensures exists k :: t.QueuedAt(k, o)
        {
          var k :| QueuedAt(k, o);
          assert t.QueuedAt(k, o);
        }
      }
    }

    /** Reassembly never stalls: there is a head exactly when the next byte arrived or a FIN waits there. */
    lemma HeadIffReceived()
      requires Coherent()
      ensures var n := |delivered|;
              Head().Some? <==> n in content || (n in queued && queued[n].data == [] && queued[n].fin)
    {
      var n := |delivered|;
      if n in content {
        var k :| QueuedAt(k, n);
      } else if n in queued {
        assert !QueuedAt(n, n);
      }
    }

    /** The first received byte behind a gap starts a frame that is still queued. */
    lemma GapEndIsQueued(o: nat)
      requires Coherent() && 0 < o
      requires o in content && o - 1 !in content
      ensures o in queued
    {
      assert |delivered| <= o - 1;
      var k :| QueuedAt(k, o);
      assert k < o ==> QueuedAt(k, o - 1);
    }
  }

  predicate InRange(frame: StreamFrame) {
    frame.End() <= MAX_BYTE_COUNT
  }

  /** The offset one past the last byte, in 64 bits. */
  function WrappedEnd(frame: StreamFrame): nat {
    if InRange(frame) then frame.End() else frame.End() % (MAX_BYTE_COUNT + 1)
  }

  /** A frame whose end, computed with 64 bits, lies in front of its offset. */
  predicate Wraps(frame: StreamFrame) {
    frame.offset <= MAX_BYTE_COUNT < frame.End() && |frame.data| <= MAX_BYTE_COUNT
  }

  /** Some gap reaches from before `end` up to `start`. */
  ghost predicate Spanned(gaps: seq<Interval>, start: nat, end: nat) {
    exists i :: 0 <= i < |gaps| && gaps[i].start < end && start <= gaps[i].end
  }

  lemma SpannedNext(gaps: seq<Interval>, i: nat, start: nat, end: nat)
    requires i < |gaps|
    ensures Spanned(gaps[..i + 1], start, end) <==>
            Spanned(gaps[..i], start, end) || (gaps[i].start < end && start <= gaps[i].end)
    ensures gaps[i].start < end && start <= gaps[i].end ==> Spanned(gaps, start, end)
  {
    var a, b := gaps[..i + 1], gaps[..i];
    assert a[i] == gaps[i] && forall j :: 0 <= j < i ==> a[j] == b[j];
  }

  /** Cutting a frame that wraps around leaves two gaps that overlap. */
  lemma CutOverlaps(gaps: seq<Interval>, i: nat, start: nat, end: nat)
    requires i < |gaps| && gaps[i].start < end < start <= gaps[i].end
    ensures !Separated(gaps[..i] + Remainder(gaps[i], start, end) + gaps[i + 1..])
  {
    var cut := gaps[..i] + Remainder(gaps[i], start, end) + gaps[i + 1..];
    assert cut[i].end == start && cut[i + 1].start == end;
  }

  /** The complement of the accepted bytes, as a list of gaps. */
  ghost predicate GapsOf(a: Assembly, gaps: seq<Interval>) {
    && Separated(gaps)
    && (forall o :: o in a.content ==> o < MAX_BYTE_COUNT)
    && (forall o: nat :: o < MAX_BYTE_COUNT ==> (InGaps(gaps, o) <==> o !in a.content))
  }

  /** In bytes: nothing was received between the byte in front of `end` and `start`. So a frame that wraps around is
      dropped as a duplicate exactly if something was. */
  lemma SpannedIff(a: Assembly, gaps: seq<Interval>, start: nat, end: nat)
    requires GapsOf(a, gaps) && 0 < end < start <= MAX_BYTE_COUNT
    ensures Spanned(gaps, start, end) <==> forall o :: end - 1 <= o < start ==> o !in a.content
  {
    if Spanned(gaps, start, end) {
      var i :| 0 <= i < |gaps| && gaps[i].start < end && start <= gaps[i].end;
      forall o | end - 1 <= o < start
        ensures o !in a.content
      {
        assert gaps[i].start <= o < gaps[i].end;
        assert InGaps(gaps, o);
      }
    }
    if forall o :: end - 1 <= o < start ==> o !in a.content {
      assert InGaps(gaps, end - 1);
      var i :| 0 <= i < |gaps| && gaps[i].start <= end - 1 < gaps[i].end;
      assert !InGaps(gaps, gaps[i].end);
    }
  }

  /** A frame that is not queued never starts right behind a gap: its predecessor at that offset would
      still be queued. So the walk over the gaps meets a gap only if the frame reaches into it. */
  lemma NotBehindGap(a: Assembly, gaps: seq<Interval>, i: nat, frame: StreamFrame)
    requires a.Coherent() && GapsOf(a, gaps) && i < |gaps|
    requires frame.offset !in a.queued && frame.data != [] && frame.End() <= MAX_BYTE_COUNT
    ensures frame.offset != gaps[i].end
  {
    var o := gaps[i].end;
    if frame.offset == o {
      assert InGaps(gaps, o - 1);
      assert !InGaps(gaps, o);
      a.GapEndIsQueued(o);
    }
  }

  /** A frame that reaches into gap `i` but not into an earlier one, and does not fit, is partly received. */
  lemma NoFit(a: Assembly, gaps: seq<Interval>, i: nat, frame: StreamFrame)
    requires a.Coherent() && GapsOf(a, gaps) && i < |gaps|
    requires frame.offset !in a.queued && frame.data != [] && frame.End() <= MAX_BYTE_COUNT
    requires forall j :: 0 <= j < i ==> frame.End() <= gaps[j].start || gaps[j].end <= frame.offset
    requires gaps[i].start < frame.End() && frame.offset < gaps[i].end
    requires frame.offset < gaps[i].start || gaps[i].end < frame.End()
    ensures a.Verdict(frame) == OverlappingStreamData
  {
    var inside := if frame.offset < gaps[i].start then gaps[i].start else frame.offset;
    assert InGaps(gaps, inside) && frame.Covers(inside);
    var outside := if frame.offset < gaps[i].start then frame.offset else gaps[i].end;
    assert !InGaps(gaps, outside) && frame.Covers(outside);
  }

  /** A frame inside gap `i` is accepted, and cutting it out leaves the complement of the new content. */
  lemma Fits(a: Assembly, gaps: seq<Interval>, i: nat, frame: StreamFrame)
    requires a.Coherent() && GapsOf(a, gaps) && i < |gaps|
    requires frame.offset !in a.queued && frame.data != []
    requires gaps[i].start <= frame.offset && frame.End() <= gaps[i].end
    ensures a.Verdict(frame) == Accepted
    ensures GapsOf(a.Accept(frame), Cut(gaps, i, frame.offset, frame.End()))
  {
    var cut := Cut(gaps, i, frame.offset, frame.End());
    CutSeparated(gaps, i, frame.offset, frame.End());
    assert forall o :: frame.Covers(o) ==> InGaps(gaps, o);
    assert frame.Covers(frame.offset);
    forall o: nat | o < MAX_BYTE_COUNT
      ensures InGaps(cut, o) <==> o !in a.Accept(frame).content
    {
      CutRemoves(gaps, i, frame.offset, frame.End(), o);
    }
  }

  /** A frame that reaches into no gap was received completely. */
  lemma NoGap(a: Assembly, gaps: seq<Interval>, frame: StreamFrame)
    requires a.Coherent() && GapsOf(a, gaps)
    requires frame.offset !in a.queued && frame.data != [] && frame.End() <= MAX_BYTE_COUNT
    requires forall j :: 0 <= j < |gaps| ==> frame.End() <= gaps[j].start || gaps[j].end <= frame.offset
    ensures a.Verdict(frame) == DuplicateStreamData
  {
    assert forall o :: frame.Covers(o) ==> !InGaps(gaps, o);
  }

  /** The frame lies before or behind the first `i` gaps. */
  ghost predicate Untouched(gaps: seq<Interval>, i: int, start: nat, end: nat) {
    forall j :: 0 <= j < i <= |gaps| ==> end <= gaps[j].start || gaps[j].end <= start
  }

  /** The first gap that a frame does not lie before or behind decides about it. */
  lemma Meets(a: Assembly, gaps: seq<Interval>, i: nat, frame: StreamFrame)
    requires a.Coherent() && GapsOf(a, gaps) && i < |gaps| && Untouched(gaps, i, frame.offset, frame.End())
    requires frame.offset !in a.queued && frame.data != [] && InRange(frame)
    requires gaps[i].start < frame.End() && frame.offset <= gaps[i].end
    ensures frame.offset < gaps[i].end
    ensures if gaps[i].start <= frame.offset && frame.End() <= gaps[i].end
            then a.Verdict(frame) == Accepted && GapsOf(a.Accept(frame), Cut(gaps, i, frame.offset, frame.End()))
            else a.Verdict(frame) == OverlappingStreamData
  {
    NotBehindGap(a, gaps, i, frame);
    if gaps[i].start <= frame.offset && frame.End() <= gaps[i].end {
      Fits(a, gaps, i, frame);
    } else {
      NoFit(a, gaps, i, frame);
    }
  }

  // ---------------------------------------------------------------------------------------------
  // The sorter
  // ---------------------------------------------------------------------------------------------

  class StreamFrameSorter {
    var queuedFrames: map<int, StreamFrame>
    var readPosition: nat
    var gaps: seq<Interval>
    ghost var content: map<int, byte>
    ghost var delivered: seq<byte>

    ghost function Value(): Assembly
      reads this
    {
      Assembly(content, queuedFrames, delivered)
    }

    /** The gaps are exactly the complement of the accepted bytes. */
    ghost predicate Valid()
      reads this
    {
      && readPosition == |delivered|
      && Value().Coherent()
      && GapsOf(Value(), gaps)
    }

    constructor ()
      ensures Valid() && Value() == Assembly(map[], map[], [])
    {
      queuedFrames, readPosition, gaps := map[], 0, [Interval(0, MAX_BYTE_COUNT)];
      content, delivered := map[], [];
      new;
      assert gaps[0] == Interval(0, MAX_BYTE_COUNT);
    }

    /** Every frame whose end is a 64-bit number is judged by its bytes alone. */
    method Push(frame: StreamFrame) returns (r: PushResult)
      requires Valid()
      modifies this
      ensures InRange(frame) && r != TooManyGaps ==>
              Valid() && r == old(Value()).Verdict(frame) && Value() == old(Value()).Push(frame)
      ensures InRange(frame) && r != TooManyGaps && r != Accepted ==> gaps == old(gaps)
      ensures InRange(frame) && r == TooManyGaps ==>
              old(Value()).Verdict(frame) == Accepted && |gaps| > MAX_GAPS && Value() == old(Value())
      ensures InRange(frame) && |old(gaps)| < MAX_GAPS ==> r != TooManyGaps
      ensures Wraps(frame) ==>
              if frame.offset in old(queuedFrames) || !Spanned(old(gaps), frame.offset, WrappedEnd(frame))
              then r == DuplicateStreamData && unchanged(this)
              else (r == Accepted || r == TooManyGaps) && !Separated(gaps)
    {
      if frame.offset in queuedFrames {
        return DuplicateStreamData;
      }
      var start, end := frame.offset, WrappedEnd(frame);
      if start == end {
        if frame.fin {
          Value().PushCoherent(frame);
          queuedFrames := queuedFrames[frame.offset := frame];
          assert InRange(frame) ==> content == old(Value()).Accept(frame).content;
          return Accepted;
        }
        return EmptyStreamData;
      }

      r := FillGap(frame);
      if r != Accepted {
        return r;
      }
      if |gaps| > MAX_GAPS {
        return TooManyGaps;
      }
      Value().PushCoherent(frame);
      queuedFrames := queuedFrames[frame.offset := frame];
      content := old(Value()).Accept(frame).content;
    }

    /** The walk over the gap list: removes a non-empty frame from the gap it fits in. */
    method FillGap(frame: StreamFrame) returns (r: PushResult)
      requires Value().Coherent() && GapsOf(Value(), gaps)
      requires frame.offset !in queuedFrames && frame.offset != WrappedEnd(frame)
      modifies this`gaps
      ensures InRange(frame) ==> r == Value().Verdict(frame)
      ensures InRange(frame) ==>
              if r == Accepted then GapsOf(Value().Accept(frame), gaps) &&
                |gaps| <= |old(gaps)| + 1 else gaps == old(gaps)
      ensures Wraps(frame) ==>
              if Spanned(old(gaps), frame.offset, WrappedEnd(frame)) then r == Accepted && !Separated(gaps)
              else r == DuplicateStreamData && gaps == old(gaps)
    {
      hide Assembly.Coherent, Assembly.Accept, Separated, InGaps, Assembly.Has, Assembly.HasNone;
      ghost var value := Value();
      var start, end := frame.offset, WrappedEnd(frame);
      var foundInGap := false;
      var i := 0;
      while i < |gaps|
        invariant 0 <= i <= |gaps| && gaps == old(gaps)
        invariant InRange(frame) ==> !foundInGap && Untouched(gaps, i, start, end)
        invariant Wraps(frame) ==> !foundInGap && !Spanned(gaps[..i], start, end)
      {
        var gap := gaps[i];
        SpannedNext(gaps, i, start, end);
        if end <= gap.start || start > gap.end {
          i := i + 1;
          continue;
        }
        if InRange(frame) {
          Meets(value, gaps, i, frame);
        }
        if start < gap.start || (start < gap.end && end > gap.end) {
          return OverlappingStreamData;
        }
        foundInGap := true;
        if end > gap.end {
          // only a frame that starts where the gap ends
          i := i + 1;
          continue;
        }
        if Wraps(frame) {
          CutOverlaps(gaps, i, start, end);
        }
        var left := CutGap(gap, start, end);
        gaps := gaps[..i] + left + gaps[i + 1..];
        break;
      }

      if !foundInGap {
        assert gaps[..|gaps|] == gaps;
        if InRange(frame) {
          NoGap(value, gaps, frame);
        }
        return DuplicateStreamData;
      }
      return Accepted;
    }

    static method CutGap(gap: Interval, start: nat, end: nat) returns (left: seq<Interval>)
      requires end <= gap.end
      ensures gap.start <= start ==> left == Remainder(gap, start, end)
    {
      if start == gap.start {
        return if end == gap.end then [] else [gap.(start := end)];
      }
      if end == gap.end {
        return [gap.(end := start)];
      }
      return [gap.(end := start), Interval(end, gap.end)];
    }

    method Head() returns (f: Option<StreamFrame>)
      requires Valid()
      ensures f == Value().Head()
    {
      if readPosition in queuedFrames {
        return Some(queuedFrames[readPosition]);
      }
      return None;
    }

    method Pop() returns (f: Option<StreamFrame>)
      requires Valid()
      modifies this
      ensures Valid() && gaps == old(gaps)
      ensures f == old(Value()).Head() && Value() == old(Value()).Pop()
    {
      Value().PopCoherent();
      f := Head();
      if f.Some? {
        readPosition := readPosition + |f.value.data|;
        delivered := delivered + f.value.data;
        queuedFrames := queuedFrames - {f.value.offset};
      }
    }
  }
}
