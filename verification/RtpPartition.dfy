/** Splitting one RTP port range among the SIP listener and its isolated egress children. */
module RtpPartition {
  import opened Options

  const U16: nat := 65_536
  const U32: nat := 4_294_967_296

  /** Ports `low` to `high`, both included. */
  datatype Slice = Slice(low: int, high: int)

  predicate IsPort(p: int) {
    0 <= p < U16
  }

  /** Reference: the even ports that start a whole pair inside the range. */
  function PairStarts(start: int, end: int): set<int> {
    set e | start <= e < end && e % 2 == 0
  }

  /** Ordered, touching, even-to-odd slices of real ports that cover exactly `first` to `last`. */
  predicate Tiles(slices: seq<Slice>, first: int, last: int) {
    && slices != []
    && slices[0].low == first && slices[|slices| - 1].high == last
    && (forall i :: 0 <= i < |slices| ==> EvenToOdd(slices[i]))
    && (forall i :: 0 < i < |slices| ==> slices[i].low == slices[i - 1].high + 1)
  }

  predicate EvenToOdd(s: Slice) {
    IsPort(s.low) && IsPort(s.high) && s.low < s.high && s.low % 2 == 0 && s.high % 2 == 1
  }

  /** No slice is longer than another by more than one pair. */
  predicate Balanced(slices: seq<Slice>) {
    forall i, j :: 0 <= i < |slices| && 0 <= j < |slices| ==>
      slices[i].high - slices[i].low <= slices[j].high - slices[j].low + 2
  }

  function FirstEven(start: int): int {
    if start % 2 == 0 then start else start + 1
  }

  function LastOdd(end: int): int {
    if end % 2 == 1 then end else end - 1
  }

  function PairCount(start: int, end: int): nat {
    if FirstEven(start) >= LastOdd(end) then 0 else (LastOdd(end) - FirstEven(start) + 1) / 2
  }

  lemma {:induction false} PairStartsSize(first: int, last: int)
    requires first % 2 == 0 && last % 2 == 1 && first <= last + 1
    ensures |PairStarts(first, last)| == (last - first + 1) / 2
    decreases last - first + 1
  {
    if first == last + 1 {
      assert PairStarts(first, last) == {};
    } else {
      PairStartsSize(first + 2, last);
      assert PairStarts(first, last) == {first} + PairStarts(first + 2, last);
    }
  }

  /** The computed number of pairs is the number of pairs there are. */
  lemma PairCountIsExact(start: int, end: int)
    ensures PairCount(start, end) == |PairStarts(start, end)|
  {
    var first, last := FirstEven(start), LastOdd(end);
    assert PairStarts(start, end) == PairStarts(first, last);
    if first < last {
      PairStartsSize(first, last);
    } else {
      assert PairStarts(first, last) == {};
    }
  }

  /** Pairs given out before slice `index`: `q` to each, and one more to each of the first `extra`. */
  function GivenOut(q: nat, extra: nat, index: nat): nat {
    q * index + if index < extra then index else extra
  }

  lemma GivenOutStep(q: nat, extra: nat, index: nat)
    ensures GivenOut(q, extra, index + 1) == GivenOut(q, extra, index) + q + if index < extra then 1 else 0
  {
    assert q * (index + 1) == q * index + q;
  }

  lemma GivenOutBounded(q: nat, extra: nat, index: nat, n: nat)
    requires index <= n && extra <= n
    ensures GivenOut(q, extra, index) <= q * n + extra
  {
    assert q * index <= q * n by {
      assert q * (n - index) >= 0;
      assert q * n == q * index + q * (n - index);
    }
  }

  /** Slice `index` when `q` pairs go to each and one more to each of the first `extra`. */
  function NthSlice(first: int, q: nat, extra: nat, index: nat): Slice {
    Slice(first + 2 * GivenOut(q, extra, index), first + 2 * GivenOut(q, extra, index + 1) - 1)
  }

  lemma SliceFits(first: int, q: nat, extra: nat, index: nat, n: nat)
    requires index < n && extra <= n && q >= 1 && first >= 0 && first % 2 == 0
    requires first + 2 * (q * n + extra) <= U16
    ensures EvenToOdd(NthSlice(first, q, extra, index))
    ensures NthSlice(first, q, extra, index).high
         == NthSlice(first, q, extra, index).low + 2 * (q + if index < extra then 1 else 0) - 1
  {
    GivenOutStep(q, extra, index);
    GivenOutBounded(q, extra, index + 1, n);
  }

  lemma SlicesTile(slices: seq<Slice>, first: int, q: nat, extra: nat)
    requires slices != [] && extra <= |slices| && q >= 1 && first >= 0 && first % 2 == 0
    requires first + 2 * (q * |slices| + extra) <= U16
    requires forall i :: 0 <= i < |slices| ==> slices[i] == NthSlice(first, q, extra, i)
    ensures Tiles(slices, first, first + 2 * (q * |slices| + extra) - 1) && Balanced(slices)
  {
    forall i | 0 <= i < |slices|
      ensures EvenToOdd(slices[i]) && slices[i].high == slices[i].low + 2 * (q + if i < extra then 1 else 0) - 1
    {
      SliceFits(first, q, extra, i, |slices|);
    }
    assert GivenOut(q, extra, 0) == 0;
  }

  /** The split succeeds exactly when there is a pair for every part, and then tiles the aligned part
      of the range evenly; none of its checked conversions can fail. */
  method PartitionRtpPortRange(start: int, end: int, partitions: nat) returns (r: Option<seq<Slice>>)
    requires IsPort(start) && IsPort(end)
    ensures partitions == 0 ==> r == None
    ensures partitions == 1 ==> r == Some([Slice(start, end)])
    ensures partitions >= 2 ==> (r.Some? <==> |PairStarts(start, end)| >= partitions)
    ensures partitions >= 2 && r.Some? ==>
      |r.value| == partitions && Tiles(r.value, FirstEven(start), LastOdd(end)) && Balanced(r.value)
  {
    if partitions == 0 {
      return None;
    }
    if partitions == 1 {
      return Some([Slice(start, end)]);
    }
    var firstEven, pairCount := AlignedPairs(start, end);
    if pairCount < partitions {
      return None;
    }
    r := CutSlices(firstEven, pairCount, partitions);
  }

  /** The first even port of the range and the number of pairs from there on, which is zero if the
      alignment leaves the ports there are. */
  method AlignedPairs(start: int, end: int) returns (firstEven: int, pairCount: nat)
    requires IsPort(start) && IsPort(end)
    ensures pairCount == |PairStarts(start, end)|
    ensures pairCount > 0 ==> firstEven == FirstEven(start) && firstEven + 2 * pairCount - 1 == LastOdd(end)
  {
    PairCountIsExact(start, end);
    if start % 2 == 1 && start + 1 >= U16 {
      return 0, 0;
    }
    firstEven := if start % 2 == 0 then start else start + 1;
    if end % 2 == 0 && end == 0 {
      return 0, 0;
    }
    var lastOdd := if end % 2 == 1 then end else end - 1;
    if firstEven >= lastOdd {
      return 0, 0;
    }
    pairCount := (lastOdd - firstEven + 1) / 2;
  }

  /** The loop that hands out the pairs. */
  method CutSlices(firstEven: int, pairCount: nat, partitions: nat) returns (r: Option<seq<Slice>>)
    requires 1 <= partitions <= pairCount
    requires firstEven >= 0 && firstEven % 2 == 0 && firstEven + 2 * pairCount <= U16
    ensures r.Some? && |r.value| == partitions
    ensures Tiles(r.value, firstEven, firstEven + 2 * pairCount - 1) && Balanced(r.value)
  {
    var q, extra := pairCount / partitions, pairCount % partitions;
    QuotientAtLeastOne(pairCount, partitions);
    var slices: seq<Slice> := [];
    var next := firstEven;
    for index := 0 to partitions
      invariant |slices| == index
      invariant next == firstEven + 2 * GivenOut(q, extra, index)
      invariant forall i :: 0 <= i < index ==> slices[i] == NthSlice(firstEven, q, extra, i)
    {
      SliceFits(firstEven, q, extra, index, partitions);
      var pairs := q + if index < extra then 1 else 0;
      var width := 2 * pairs;
      if pairs >= U32 || width >= U32 {
        return None;
      }
      var rangeEnd := next + (width - 1);
      if rangeEnd >= U32 || next >= U16 || rangeEnd >= U16 {
        return None;
      }
      slices := slices + [Slice(next, rangeEnd)];
      next := rangeEnd + 1;
    }
    SlicesTile(slices, firstEven, q, extra);
    return Some(slices);
  }

  lemma QuotientAtLeastOne(a: nat, b: nat)
    requires 1 <= b <= a
    ensures a / b >= 1 && a == (a / b) * b + a % b
  {
    var q := a / b;
    assert a == q * b + a % b;
  }

  /** The listener takes slice 0 and egress child `i` takes slice `i + 1`, so no two of them can ever
      reserve the same port. */
  lemma {:induction false} SlicesAreDisjoint(slices: seq<Slice>, first: int, last: int, i: nat, j: nat)
    requires Tiles(slices, first, last) && i < j < |slices|
    ensures slices[i].high < slices[j].low
    decreases j - i
  {
    if i + 1 < j {
      SlicesAreDisjoint(slices, first, last, i + 1, j);
    }
  }

  /** Every port of the aligned range belongs to some slice. */
  lemma {:induction false} SlicesCover(slices: seq<Slice>, first: int, last: int, port: int) returns (i: nat)
    requires Tiles(slices, first, last) && first <= port <= last
    ensures i < |slices| && slices[i].low <= port <= slices[i].high
  {
    i := 0;
    while port > slices[i].high
      invariant i < |slices| && slices[i].low <= port
      decreases |slices| - i
    {
      i := i + 1;
    }
  }

  predicate Apart(a: Slice, b: Slice) {
    a.high < b.low || b.high < a.low
  }

  /** Even to odd, with at least one pair of ports. */
  predicate WholePairs(s: Slice) {
    s.low % 2 == 0 && s.high % 2 == 1 && s.low < s.high
  }

  /** The ranges of the two stack builders together: the listener takes the first slice of a split
      into one part more than there are egress profiles, and each child the next one. Each has a whole
      pair at least, none more than one pair more than another, and together they leave out no port but
      an odd first and an even last one. No port can be reserved by two of them, and none lies outside
      the configured range. `limit` is the signalling
      stack's limit on egress children. */
  method AssignMediaPorts(start: int, end: int, profiles: nat, limit: nat) returns (r: Option<(Slice, seq<Slice>)>)
    requires IsPort(start) && IsPort(end)
    ensures profiles == 0 ==> r == Some((Slice(start, end), []))
    ensures profiles > 0 ==> (r.Some? <==> profiles <= limit && |PairStarts(start, end)| > profiles)
    ensures r.Some? ==> |r.value.1| == profiles
    ensures r.Some? ==> forall i :: 0 <= i < profiles ==>
      Apart(r.value.0, r.value.1[i]) && start <= r.value.1[i].low && r.value.1[i].high <= end
    ensures r.Some? ==> forall i, j :: 0 <= i < j < profiles ==> Apart(r.value.1[i], r.value.1[j])
    ensures r.Some? ==> start <= r.value.0.low && r.value.0.high <= end
    ensures r.Some? && profiles > 0 ==> WholePairs(r.value.0) && Balanced([r.value.0] + r.value.1)
    ensures r.Some? && profiles > 0 ==> forall i :: 0 <= i < profiles ==> WholePairs(r.value.1[i])
    ensures r.Some? && profiles > 0 ==> r.value.0.low - start <= 1 && end - r.value.1[profiles - 1].high <= 1
    ensures r.Some? && profiles > 0 ==> r.value.1[0].low == r.value.0.high + 1
    ensures r.Some? ==> forall i :: 0 < i < profiles ==> r.value.1[i].low == r.value.1[i - 1].high + 1
  {
    if profiles > limit {
      return None;
    }
    var slices := PartitionRtpPortRange(start, end, profiles + 1);
    if slices == None {
      return None;
    }
    var s := slices.value;
    if profiles > 0 {
      forall i, j | 0 <= i < j < |s| ensures s[i].high < s[j].low {
        SlicesAreDisjoint(s, FirstEven(start), LastOdd(end), i, j);
      }
    }
    assert [s[0]] + s[1..] == s;
    return Some((s[0], s[1..]));
  }
}
