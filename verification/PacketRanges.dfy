/** Lists of packet-number ranges, both ends included. The received-packet history keeps them in
    ascending order, ACK frames carry them in descending order. */
module PacketRanges {

  datatype PacketRange = PacketRange(first: int, last: int) {

    predicate Contains(p: int) {
      first <= p <= last
    }
  }

  ghost predicate InRanges(rs: seq<PacketRange>, p: int) {
    exists i :: 0 <= i < |rs| && rs[i].Contains(p)
  }

  /** Non-empty ranges of non-negative numbers. */
  predicate NonEmpty(rs: seq<PacketRange>) {
    forall i :: 0 <= i < |rs| ==> 0 <= rs[i].first <= rs[i].last
  }

  /** Maximal ranges in ascending order: at least one number is missing between two of them. */
  predicate Ascending(rs: seq<PacketRange>) {
    && NonEmpty(rs)
    && (forall i, j :: 0 <= i < j < |rs| ==> rs[i].last + 1 < rs[j].first)
  }

  /** Maximal ranges in descending order. */
  predicate Descending(rs: seq<PacketRange>) {
    && NonEmpty(rs)
    && (forall i, j :: 0 <= i < j < |rs| ==> rs[j].last + 1 < rs[i].first)
  }

  /** The ranges hold exactly the numbers of `s`. */
  ghost predicate Decomposes(rs: seq<PacketRange>, s: set<int>) {
    Ascending(rs) && forall p :: InRanges(rs, p) <==> p in s
  }

  /** The first maximal range is determined by the set alone. */
  lemma FirstRange(rs: seq<PacketRange>, ts: seq<PacketRange>)
    requires Ascending(rs) && Ascending(ts)
    requires forall p :: InRanges(rs, p) <==> InRanges(ts, p)
    requires rs != []
    ensures ts != [] && ts[0].first <= rs[0].first && rs[0].last <= ts[0].last
  {
    var a := rs[0].first;
    assert InRanges(rs, a) && InRanges(ts, a);
    assert InRanges(ts, ts[0].first) && InRanges(rs, ts[0].first);
    var b := ts[0].last + 1;
    assert !InRanges(ts, b);
    assert rs[0].Contains(b) ==> InRanges(rs, b);
  }

  /** A set of packet numbers has at most one decomposition into maximal ranges. */
  lemma {:induction false} DecompositionUnique(rs: seq<PacketRange>, ts: seq<PacketRange>)
    requires Ascending(rs) && Ascending(ts)
    requires forall p :: InRanges(rs, p) <==> InRanges(ts, p)
    ensures rs == ts
  {
    if rs == [] || ts == [] {
      assert rs != [] ==> InRanges(rs, rs[0].first);
      assert ts != [] ==> InRanges(ts, ts[0].first);
    } else {
      FirstRange(rs, ts);
      FirstRange(ts, rs);
      SameTails(rs, ts);
      DecompositionUnique(rs[1..], ts[1..]);
      assert rs == [rs[0]] + rs[1..] && ts == [ts[0]] + ts[1..];
    }
  }

  lemma SameTails(rs: seq<PacketRange>, ts: seq<PacketRange>)
    requires Ascending(rs) && Ascending(ts) && rs != [] && ts != [] && rs[0] == ts[0]
    requires forall p :: InRanges(rs, p) <==> InRanges(ts, p)
    ensures forall p :: InRanges(rs[1..], p) <==> InRanges(ts[1..], p)
  {
    forall p
      ensures InRanges(rs[1..], p) <==> InRanges(ts[1..], p)
    {
      TailRanges(rs, p);
      TailRanges(ts, p);
    }
  }

  lemma TailRanges(rs: seq<PacketRange>, p: int)
    requires Ascending(rs) && rs != []
    ensures InRanges(rs[1..], p) <==> InRanges(rs, p) && rs[0].last < p
  {
    if InRanges(rs[1..], p) {
      var i :| 0 <= i < |rs[1..]| && rs[1..][i].Contains(p);
      assert rs[i + 1].Contains(p);
    }
    if InRanges(rs, p) && rs[0].last < p {
      var i :| 0 <= i < |rs| && rs[i].Contains(p);
      assert rs[1..][i - 1] == rs[i];
    }
  }

  // ---------------------------------------------------------------------------------------------
  // Replacing a stretch of ranges by others
  // ---------------------------------------------------------------------------------------------

  lemma InConcat(rs: seq<PacketRange>, ts: seq<PacketRange>, p: int)
    ensures InRanges(rs + ts, p) <==> InRanges(rs, p) || InRanges(ts, p)
  {
    if InRanges(rs, p) {
      var i :| 0 <= i < |rs| && rs[i].Contains(p);
      assert (rs + ts)[i] == rs[i];
    }
    if InRanges(ts, p) {
      var i :| 0 <= i < |ts| && ts[i].Contains(p);
      assert (rs + ts)[|rs| + i] == ts[i];
    }
  }

  function Splice(rs: seq<PacketRange>, i: int, j: int, mid: seq<PacketRange>): seq<PacketRange>
    requires 0 <= i <= j <= |rs|
  {
    rs[..i] + mid + rs[j..]
  }

  lemma InSplice(rs: seq<PacketRange>, i: int, j: int, mid: seq<PacketRange>, p: int)
    requires 0 <= i <= j <= |rs|
    ensures InRanges(Splice(rs, i, j, mid), p) <==> InRanges(rs[..i], p) || InRanges(mid, p) || InRanges(rs[j..], p)
    ensures InRanges(rs, p) <==> InRanges(rs[..i], p) || InRanges(rs[i..j], p) || InRanges(rs[j..], p)
  {
    InConcat(rs[..i] + mid, rs[j..], p);
    InConcat(rs[..i], mid, p);
    InConcat(rs[..i] + rs[i..j], rs[j..], p);
    InConcat(rs[..i], rs[i..j], p);
    assert rs == rs[..i] + rs[i..j] + rs[j..];
  }

  /** `r` keeps clear of the ranges before `i` and from `j` on. */
  ghost predicate Between(rs: seq<PacketRange>, i: int, j: int, r: PacketRange)
    requires 0 <= i <= j <= |rs|
  {
    (i > 0 ==> rs[i - 1].last + 1 < r.first) && (j < |rs| ==> r.last + 1 < rs[j].first)
  }

  lemma SpliceAscending(rs: seq<PacketRange>, i: int, j: int, r: PacketRange)
    requires 0 <= i <= j <= |rs| && Ascending(rs) && 0 <= r.first <= r.last && Between(rs, i, j, r)
    ensures Ascending(Splice(rs, i, j, [r]))
  {
    var t := Splice(rs, i, j, [r]);
    forall k, l | 0 <= k < l < |t|
      ensures t[k].last + 1 < t[l].first
    {
      if k == i {
        assert rs[j].first <= rs[l + j - i - 1].first;
      } else if l == i {
        assert rs[k].last <= rs[i - 1].last;
      }
    }
    assert forall k :: 0 <= k < |t| ==> t[k] in rs[..i] || t[k] == r || t[k] in rs[j..];
  }

  function Reversed(rs: seq<PacketRange>): (r: seq<PacketRange>)
    ensures |r| == |rs| && forall i :: 0 <= i < |rs| ==> r[i] == rs[|rs| - 1 - i]
  {
    seq(|rs|, i requires 0 <= i < |rs| => rs[|rs| - 1 - i])
  }

  lemma ReversedRanges(rs: seq<PacketRange>, p: int)
    ensures InRanges(Reversed(rs), p) <==> InRanges(rs, p)
  {
    if InRanges(rs, p) {
      var i :| 0 <= i < |rs| && rs[i].Contains(p);
      assert Reversed(rs)[|rs| - 1 - i] == rs[i];
    }
  }
}
