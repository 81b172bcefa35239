/** The OBT (on-board time) candidate search: scan the first 4000-byte frame for
    big-endian 4-byte words inside a known time window, then keep the offsets whose
    words grow steadily from frame to frame. */
module SearchTool {
  import opened Wrappers
  import opened Runtime
  import opened ReadTools

  const FRAME_LEN: nat := 4000
  const MIN_OBT: int := 1116547200   // 2015-05-25
  const MAX_OBT: int := 1117843200   // 2015-06-09
  const TIME_DIFFERENCE: int := 8

  /** `int.from_bytes(frame[off:off+4], "big")`: a slice cut short by the end of the
      frame reads as fewer bytes, an empty one as 0 (see `ShortWordIsBigEndian`). */
  function WordAt(frame: seq<byte>, off: int): nat
  {
    ShortWord(PySlice(frame, off, off + 4))
  }

  /** The big-endian value of at most four bytes, written out digit by digit. */
  function ShortWord(w: seq<byte>): nat
  {
    if |w| == 0 then 0
    else if |w| == 1 then w[0] as nat
    else if |w| == 2 then w[0] as nat * 0x100 + w[1] as nat
    else if |w| == 3 then w[0] as nat * 0x1_0000 + w[1] as nat * 0x100 + w[2] as nat
    else w[0] as nat * 0x100_0000 + w[1] as nat * 0x1_0000 + w[2] as nat * 0x100 + w[3] as nat
  }

  /** The digit-by-digit value is `int.from_bytes(w, "big")`. */
  lemma ShortWordIsBigEndian(w: seq<byte>)
    requires |w| <= 4
    ensures ShortWord(w) == UnsignedBE(w)
  {
    if |w| > 0 {
      var w3 := w[..|w| - 1];
      assert UnsignedBE(w) == UnsignedBE(w3) * 0x100 + w[|w| - 1] as nat;
      if |w3| > 0 {
        var w2 := w3[..|w3| - 1];
        assert UnsignedBE(w3) == UnsignedBE(w2) * 0x100 + w3[|w3| - 1] as nat;
        if |w2| > 0 {
          var w1 := w2[..|w2| - 1];
          assert UnsignedBE(w2) == UnsignedBE(w1) * 0x100 + w2[|w2| - 1] as nat;
          if |w1| > 0 {
            assert UnsignedBE(w1) == UnsignedBE(w1[..|w1| - 1]) * 0x100 + w1[|w1| - 1] as nat;
            assert w1[..|w1| - 1] == [];
          }
        }
      }
    }
  }

  predicate InObtWindow(v: int)
  {
    MIN_OBT <= v <= MAX_OBT
  }

  /** The scan loop of `find_obt_candidates`: offsets 0 up to `len(frame) - 5` (the
      window starting at `len(frame) - 4` is not visited), kept in increasing order
      exactly when their word lies in the OBT window. */
  method ScanCandidates(frame: seq<byte>) returns (candidates: seq<int>)
    ensures forall k :: 0 <= k < |candidates| ==>
              0 <= candidates[k] < |frame| - 4 && InObtWindow(WordAt(frame, candidates[k]))
    ensures forall off :: 0 <= off < |frame| - 4 && InObtWindow(WordAt(frame, off)) ==> off in candidates
    ensures forall a, b :: 0 <= a < b < |candidates| ==> candidates[a] < candidates[b]
  {
    candidates := [];
    var last := if |frame| >= 4 then |frame| - 4 else 0;
    var offset := 0;
    ghost var hit := off => InObtWindow(WordAt(frame, off));
    while offset < last
      invariant 0 <= offset <= last
      invariant ScanInvariant(candidates, offset, hit)
    {
      var be := WordAt(frame, offset);
      ScanStep(candidates, offset, hit);
      if MIN_OBT <= be <= MAX_OBT {
        candidates := candidates + [offset];
      }
      offset := offset + 1;
    }
  }

  /** What the scan knows after visiting offsets `0 .. offset - 1`. */
  ghost predicate ScanInvariant(candidates: seq<int>, offset: int, hit: int -> bool)
  {
    && (forall k :: 0 <= k < |candidates| ==> 0 <= candidates[k] < offset && hit(candidates[k]))
    && (forall off :: 0 <= off < offset && hit(off) ==> off in candidates)
    && (forall a, b :: 0 <= a < b < |candidates| ==> candidates[a] < candidates[b])
  }

  /** Visiting one more offset keeps the scan's invariant. */
  lemma ScanStep(candidates: seq<int>, offset: int, hit: int -> bool)
    requires 0 <= offset && ScanInvariant(candidates, offset, hit)
    ensures hit(offset) ==> ScanInvariant(candidates + [offset], offset + 1, hit)
    ensures !hit(offset) ==> ScanInvariant(candidates, offset + 1, hit)
  {
  }

  /** The test `refine` applies to one offset: no frame's word exceeds the previous
      frame's word plus the frame number plus the allowed difference. */
  predicate Steady(frames: seq<seq<byte>>, off: int, tdiff: int)
  {
    forall i :: 1 <= i < |frames| ==> StepOk(frames, off, tdiff, i)
  }

  /** Frame i's word is no more than frame i-1's word plus i plus the allowed difference. */
  predicate StepOk(frames: seq<seq<byte>>, off: int, tdiff: int, i: int)
    requires 1 <= i < |frames|
  {
    WordAt(frames[i], off) - (WordAt(frames[i - 1], off) + i) <= tdiff
  }

  /** The offsets `refine` keeps, in input order. */
  function Filter(frames: seq<seq<byte>>, offsets: seq<int>, tdiff: int): seq<int>
    decreases |offsets|
  {
    if offsets == [] then []
    else
      var done := Filter(frames, offsets[..|offsets| - 1], tdiff);
      if Steady(frames, offsets[|offsets| - 1], tdiff) then done + [offsets[|offsets| - 1]] else done
  }

  /** An offset is kept iff it was given and it is steady. */
  lemma {:induction false} FilterMembership(frames: seq<seq<byte>>, offsets: seq<int>, tdiff: int, x: int)
    ensures x in Filter(frames, offsets, tdiff) <==> x in offsets && Steady(frames, x, tdiff)
    decreases |offsets|
  {
    if offsets != [] {
      var init := offsets[..|offsets| - 1];
      var last := offsets[|offsets| - 1];
      FilterMembership(frames, init, tdiff, x);
      assert offsets == init + [last];
      assert x in offsets <==> x in init || x == last;
      if Steady(frames, last, tdiff) {
        assert Filter(frames, offsets, tdiff) == Filter(frames, init, tdiff) + [last];
      } else {
        assert Filter(frames, offsets, tdiff) == Filter(frames, init, tdiff);
      }
    }
  }

  /** The input positions of the offsets `refine` keeps. */
  function KeptPositions(frames: seq<seq<byte>>, offsets: seq<int>, tdiff: int): seq<int>
    decreases |offsets|
  {
    if offsets == [] then []
    else
      var done := KeptPositions(frames, offsets[..|offsets| - 1], tdiff);
      if Steady(frames, offsets[|offsets| - 1], tdiff) then done + [|offsets| - 1] else done
  }

  /** The kept offsets are a subsequence of the given ones: the k-th kept offset is
      the one at the k-th kept position, and the positions increase. */
  lemma {:induction false} FilterIsSubsequence(frames: seq<seq<byte>>, offsets: seq<int>, tdiff: int)
    ensures var good := Filter(frames, offsets, tdiff);
      var idx := KeptPositions(frames, offsets, tdiff);
      && |idx| == |good|
      && (forall k :: 0 <= k < |idx| ==> 0 <= idx[k] < |offsets| && good[k] == offsets[idx[k]])
      && (forall a, b :: 0 <= a < b < |idx| ==> idx[a] < idx[b])
    decreases |offsets|
  {
    if offsets != [] {
      var init := offsets[..|offsets| - 1];
      FilterIsSubsequence(frames, init, tdiff);
      var done := Filter(frames, init, tdiff);
      var idx := KeptPositions(frames, init, tdiff);
      assert forall k :: 0 <= k < |idx| ==> 0 <= idx[k] < |offsets| && done[k] == offsets[idx[k]];
    }
  }

  /** With a single frame there is nothing to compare, so every offset is kept. */
  lemma {:induction false} SingleFrameKeepsAll(frames: seq<seq<byte>>, offsets: seq<int>, tdiff: int)
    requires |frames| <= 1
    ensures Filter(frames, offsets, tdiff) == offsets
    decreases |offsets|
  {
    if offsets != [] {
      SingleFrameKeepsAll(frames, offsets[..|offsets| - 1], tdiff);
      assert offsets[..|offsets| - 1] + [offsets[|offsets| - 1]] == offsets;
    }
  }

  /** `refine(frames, offsets, time_difference_between_values)`: for each offset, walk
      frames 1, 2, ... comparing with the previous frame's word and stop at the first
      jump that is too large. */
  method Refine(frames: seq<seq<byte>>, offsets: seq<int>, tdiff: int) returns (good: seq<int>)
    requires |offsets| > 0 ==> |frames| > 0
    ensures good == Filter(frames, offsets, tdiff)
  {
    good := [];
    for n := 0 to |offsets|
      invariant good == Filter(frames, offsets[..n], tdiff)
    {
      var off := offsets[n];
      var prev := WordAt(frames[0], off);
      var ok := true;
      var i := 1;
      while i < |frames|
        invariant 1 <= i <= |frames|
        invariant prev == WordAt(frames[i - 1], off)
        invariant ok ==> forall m :: 1 <= m < i ==> StepOk(frames, off, tdiff, m)
        invariant !ok ==> !Steady(frames, off, tdiff)
        decreases |frames| - i, ok
      {
        var v := WordAt(frames[i], off);
        if v - (prev + i) > tdiff {
          assert !StepOk(frames, off, tdiff, i);
          ok := false;
          break;
        }
        assert StepOk(frames, off, tdiff, i);
        prev := v;
        i := i + 1;
      }
      assert ok <==> Steady(frames, off, tdiff);
      FilterSnoc(frames, offsets, n, tdiff);
      if ok {
        good := good + [off];
      }
    }
    assert offsets[..|offsets|] == offsets;
  }

  /** Looking at one more offset adds it to the kept ones exactly when it is steady. */
  lemma FilterSnoc(frames: seq<seq<byte>>, offsets: seq<int>, n: nat, tdiff: int)
    requires n < |offsets|
    ensures Filter(frames, offsets[..n + 1], tdiff) ==
      if Steady(frames, offsets[n], tdiff) then Filter(frames, offsets[..n], tdiff) + [offsets[n]]
      else Filter(frames, offsets[..n], tdiff)
  {
    assert offsets[..n + 1][..n] == offsets[..n];
  }

  /** Where frame k ends: 4000 bytes after it starts, or at the end of the data. */
  function FrameEnd(len: nat, k: nat): nat
  {
    if (k + 1) * FRAME_LEN < len then (k + 1) * FRAME_LEN else len
  }

  /** `frames` is the data cut as `data[i:i+4000]` for `i` in `range(0, len(data), 4000)`:
      frame k starts at `4000k`, inside the data, and the frames reach the end of it. */
  ghost predicate SlicedEvery4000(frames: seq<seq<byte>>, data: seq<byte>)
  {
    && (forall k :: 0 <= k < |frames| ==>
          k * FRAME_LEN < |data| && frames[k] == data[k * FRAME_LEN .. FrameEnd(|data|, k)])
    && |data| <= |frames| * FRAME_LEN
  }

  /** `[data[i:i+4000] for i in range(0, len(data), 4000)]`. */
  function Chunks(data: seq<byte>): (frames: seq<seq<byte>>)
    ensures |frames| == 0 <==> |data| == 0
    ensures |frames| > 0 ==> frames[0] == data[..if |data| < FRAME_LEN then |data| else FRAME_LEN]
    ensures forall k :: 0 <= k < |frames| ==> 0 < |frames[k]| <= FRAME_LEN
    ensures SlicedEvery4000(frames, data)
    decreases |data|
  {
    if data == [] then []
    else if |data| <= FRAME_LEN then
      assert data[0 * FRAME_LEN .. FrameEnd(|data|, 0)] == data;
      [data]
    else
      var rest := Chunks(data[FRAME_LEN..]);
      SlicedPrepend(data, rest);
      [data[..FRAME_LEN]] + rest
  }

  /** The first frame followed by the frames of the remaining data is the data sliced
      every 4000 bytes. */
  lemma SlicedPrepend(data: seq<byte>, rest: seq<seq<byte>>)
    requires |data| > FRAME_LEN && SlicedEvery4000(rest, data[FRAME_LEN..])
    requires forall k :: 0 <= k < |rest| ==> 0 < |rest[k]| <= FRAME_LEN
    ensures SlicedEvery4000([data[..FRAME_LEN]] + rest, data)
    ensures forall k :: 0 <= k < |[data[..FRAME_LEN]] + rest| ==> 0 < |([data[..FRAME_LEN]] + rest)[k]| <= FRAME_LEN
  {
    var frames := [data[..FRAME_LEN]] + rest;
    assert forall k :: 1 <= k < |frames| ==> frames[k] == rest[k - 1];
    forall k | 0 <= k < |frames|
      ensures k * FRAME_LEN < |data| && frames[k] == data[k * FRAME_LEN .. FrameEnd(|data|, k)]
    {
      if k == 0 {
        assert FrameEnd(|data|, 0) == FRAME_LEN;
      } else {
        assert frames[k] == rest[k - 1];
        SliceShift(data, k);
      }
    }
  }

  /** Frame k - 1 of the data after the first frame is frame k of the data. */
  lemma SliceShift(data: seq<byte>, k: nat)
    requires |data| > FRAME_LEN && 1 <= k && (k - 1) * FRAME_LEN < |data| - FRAME_LEN
    ensures (k - 1) * FRAME_LEN <= FrameEnd(|data| - FRAME_LEN, k - 1) <= |data| - FRAME_LEN
    ensures data[FRAME_LEN..][(k - 1) * FRAME_LEN .. FrameEnd(|data| - FRAME_LEN, k - 1)] ==
            data[k * FRAME_LEN .. FrameEnd(|data|, k)]
  {
    var a := (k - 1) * FRAME_LEN;
    var b := FrameEnd(|data| - FRAME_LEN, k - 1);
    assert a + FRAME_LEN == k * FRAME_LEN;
    assert b + FRAME_LEN == FrameEnd(|data|, k);
    assert data[FRAME_LEN..][a..b] == data[FRAME_LEN + a .. FRAME_LEN + b];
  }

  /** The chunks, laid end to end, give back the data. */
  lemma {:induction false} ChunksConcat(data: seq<byte>)
    ensures Flatten(Chunks(data)) == data
    decreases |data|
  {
    if |data| > FRAME_LEN {
      ChunksConcat(data[FRAME_LEN..]);
      assert data == data[..FRAME_LEN] + data[FRAME_LEN..];
    }
  }

  function Flatten(frames: seq<seq<byte>>): seq<byte>
  {
    if frames == [] then [] else frames[0] + Flatten(frames[1..])
  }

  /** `find_obt_candidates` on the bytes already read: no data gives no candidates;
      otherwise an offset is returned iff the scan of the first frame finds it and it is
      steady over all frames, in increasing order. */
  method FindObtCandidates(data: seq<byte>) returns (candidates: seq<int>)
    ensures data == [] ==> candidates == []
    ensures data != [] ==>
      var frames := Chunks(data);
      forall off :: off in candidates <==>
        0 <= off < |frames[0]| - 4 && InObtWindow(WordAt(frames[0], off)) &&
        Steady(frames, off, TIME_DIFFERENCE)
    ensures forall a, b :: 0 <= a < b < |candidates| ==> candidates[a] < candidates[b]
  {
    var frames := Chunks(data);
    if |frames| == 0 {
      return [];
    }
    var frame := frames[0];
    var scanned := ScanCandidates(frame);
    candidates := Refine(frames, scanned, TIME_DIFFERENCE);
    forall off
      ensures off in candidates <==>
        0 <= off < |frame| - 4 && InObtWindow(WordAt(frame, off)) && Steady(frames, off, TIME_DIFFERENCE)
    {
      FilterMembership(frames, scanned, TIME_DIFFERENCE, off);
    }
    FilterIsSubsequence(frames, scanned, TIME_DIFFERENCE);
  }
}
