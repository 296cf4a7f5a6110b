/**
 The circular producer of the DDR bitstream ring (arm/misterplexd/fpga_spi.cpp),
 with 32-bit wrapping counters, against an unbounded FIFO of records.

 True byte counts since the last flush are unbounded; the code sees them modulo
 2^32. Each poll of the consumer's mailbox is an input: whether the transport
 reports a fatal state, whether the mailbox was readable, and the count it held.
 */
module BitstreamRing {
  import opened Options
  import opened BitstreamCodec

  const TWO31: nat := 0x8000_0000
  const TWO32: nat := 0x1_0000_0000

  /** Ring offset of a stream position. */
  function Slot(k: nat): nat { k % RING_BYTES }

  // ------------------------------------------------------------------ wrapping counters

  function Wrap32(n: int): u32 { n % TWO32 }

  /** static_cast<int32_t>. */
  function Signed32(n: u32): int { if n < TWO31 then n else n - TWO32 }

  /** The guard of the wait loop, in 32-bit unsigned arithmetic (size_t has 32 bits on the target). */
  predicate RoomFor(writeCount: u32, readCount: u32, len: nat) {
    Wrap32(Wrap32(writeCount - readCount) + len) <= RING_BYTES
  }

  /** The guard decides true free space exactly, at any distance past 2^32. */
  lemma RoomIsExact(written: nat, consumed: nat, len: nat)
    requires consumed <= written <= consumed + RING_BYTES && len <= RING_BYTES
    ensures RoomFor(Wrap32(written), Wrap32(consumed), len) <==> written - consumed + len <= RING_BYTES
  {
    DifferenceWraps(written, consumed);
  }

  lemma DifferenceWraps(a: nat, b: nat)
    requires b <= a < b + TWO32
    ensures Wrap32(Wrap32(a) - Wrap32(b)) == a - b
  {
  }

  /** The signed-difference wait test equals the comparison of true counts, within half the range. */
  lemma WaitTestIsExact(count: nat, target: nat)
    requires target - 0x8000_0000 <= count < target + 0x8000_0000
    ensures Signed32(Wrap32(Wrap32(count) - Wrap32(target))) >= 0 <==> count >= target
  {
  }

  /** Slots less than a ring apart are different. */
  lemma SlotsDiffer(a: nat, b: nat)
    requires a < b < a + RING_BYTES
    ensures Slot(a) != Slot(b)
  {
  }

  /** `count & (kRingBytes - 1)` is the remainder. */
  lemma MaskIsRemainder(count: bv32)
    ensures count & 0x3_FFFF == count % 0x4_0000
  {
  }

  /** Masking the wrapped count gives the slot of the true count: its remainder by 262144. */
  lemma SlotOfWrapped(w: nat)
    ensures Wrap32(w) % RING_BYTES == Slot(w) == w % 262144
  {
  }

  /** An offset of at most a ring wraps once. */
  lemma SlotOfOffset(w: nat, i: nat)
    requires i <= RING_BYTES
    ensures Slot(w + i) == if Slot(w) + i < RING_BYTES then Slot(w) + i else Slot(w) + i - RING_BYTES
  {
  }

  /** Writing `len` bytes at `written` hits an unread byte exactly when the ring lacks the room. */
  lemma OverwriteIffNoRoom(consumed: nat, written: nat, len: nat)
    requires consumed <= written <= consumed + RING_BYTES && 0 < len <= RING_BYTES
    ensures (exists k, j :: consumed <= k < written && written <= j < written + len && Slot(k) == Slot(j))
            <==> written - consumed + len > RING_BYTES
  {
    if written - consumed + len > RING_BYTES {
      var k := if written >= RING_BYTES && consumed <= written - RING_BYTES then written - RING_BYTES else consumed;
      assert Slot(k) == Slot(k + RING_BYTES);
    } else {
      forall k, j | consumed <= k < written && written <= j < written + len ensures Slot(k) != Slot(j) {
        SlotsDiffer(k, j);
      }
    }
  }

  // ------------------------------------------------------------------ the producer

  datatype Poll = Poll(fatal: bool, readable: bool, count: u32)

  datatype PushResult = Ok | Full | Desync | Fatal

  /** The published control word: epoch bit, 31 count bits. */
  datatype Ctrl = Ctrl(epoch: bool, count: nat)

  /** The count the loop works with after `n` polls: the last readable one, or its own write count. */
  function Seen(writeCount: u32, polls: seq<Poll>, n: nat): u32
    requires n <= |polls|
  {
    if n == 0 then writeCount
    else if polls[n - 1].readable then polls[n - 1].count
    else Seen(writeCount, polls, n - 1)
  }

  /** The ring holds stream bytes `lo` and up at their slots. */
  ghost predicate Holds(data: seq<byte>, stream: seq<byte>, lo: nat) {
    |data| == RING_BYTES && forall k :: lo <= k < |stream| ==> data[Slot(k)] == stream[k]
  }

  function Splice(d: seq<byte>, at: nat, x: seq<byte>): (r: seq<byte>)
    requires at + |x| <= |d|
    ensures |r| == |d|
  {
    d[..at] + x + d[at + |x|..]
  }

  /** `src` sits at stream position `w`, and a ring's worth of older positions is untouched. */
  ghost predicate Placed(before: seq<byte>, after: seq<byte>, w: nat, src: seq<byte>) {
    && |before| == |after| == RING_BYTES
    && (forall i :: 0 <= i < |src| ==> after[Slot(w + i)] == src[i])
    && (forall k: nat :: w + |src| - RING_BYTES <= k < w ==> after[Slot(k)] == before[Slot(k)])
  }

  /** The two split copies. */
  function Spliced(d: seq<byte>, at: nat, first: nat, src: seq<byte>): (r: seq<byte>)
    requires first <= |src| && at + first <= |d| && |src| - first <= |d|
    ensures |r| == |d|
  {
    var once := Splice(d, at, src[..first]);
    if first < |src| then Splice(once, 0, src[first..]) else once
  }

  lemma WrapAdds(w: nat, n: nat)
    ensures Wrap32(Wrap32(w) + n) == Wrap32(w + n)
  {
  }

  lemma SplicesPlace(before: seq<byte>, after: seq<byte>, w: nat, src: seq<byte>, first: nat)
    requires |before| == RING_BYTES && |src| <= RING_BYTES
    requires first == if |src| < RING_BYTES - Slot(w) then |src| else RING_BYTES - Slot(w)
    requires after == Spliced(before, Slot(w), first, src)
    ensures Placed(before, after, w, src)
  {
    forall i | 0 <= i < |src| ensures after[Slot(w + i)] == src[i] {
      SlotOfOffset(w, i);
    }
    forall k: nat | w + |src| - RING_BYTES <= k < w ensures after[Slot(k)] == before[Slot(k)] {
      SlotOfOffset(k, w - k);
    }
  }

  lemma PlacedTwice(before: seq<byte>, mid: seq<byte>, after: seq<byte>, w: nat, x: seq<byte>, y: seq<byte>)
    requires Placed(before, mid, w, x) && Placed(mid, after, w + |x|, y) && |x| + |y| <= RING_BYTES
    ensures Placed(before, after, w, x + y)
  {
  }

  /** Appending to the stream keeps every unread byte, old and new, at its slot. */
  lemma HoldsGrows(before: seq<byte>, after: seq<byte>, stream: seq<byte>, x: seq<byte>, was: nat, lo: nat)
    requires Holds(before, stream, was) && Placed(before, after, |stream|, x)
    requires was <= lo <= |stream| && |stream| + |x| <= lo + RING_BYTES
    ensures Holds(after, stream + x, lo)
  {
  }

  lemma RecordLands(before: seq<byte>, mid: seq<byte>, after: seq<byte>, w: nat, r: Record)
    requires Placed(before, mid, w, Header(r)) && |Encode(r)| <= RING_BYTES
    requires if r.payload == [] then after == mid else Placed(mid, after, w + HEADER_BYTES, r.payload)
    ensures Placed(before, after, w, Encode(r))
  {
    if r.payload == [] {
      assert Encode(r) == Header(r);
    } else {
      PlacedTwice(before, mid, after, w, Header(r), r.payload);
    }
  }

  lemma StreamGrows(rs: seq<Record>, r: Record)
    ensures Stream(rs + [r]) == Stream(rs) + Encode(r)
  {
  }

  /** What an append of the bytes `x` of a record leaves: a longer stream, and every byte from `lo` at its slot. */
  lemma AppendKeepsRing(before: seq<byte>, after: seq<byte>, rs: seq<Record>, r: Record,
                        stream: seq<byte>, x: seq<byte>, was: nat, lo: nat)
    requires stream == Stream(rs) && x == Encode(r)
    requires Holds(before, stream, was) && Placed(before, after, |stream|, x)
    requires was <= lo <= |stream|
    ensures Stream(rs + [r]) == stream + x && |x| == HEADER_BYTES + |r.payload|
    ensures Wrap32(|stream + x|) % TWO31 == |stream + x| % TWO31
    ensures |stream + x| <= lo + RING_BYTES ==> Holds(after, stream + x, lo)
  {
    StreamGrows(rs, r);
    WrapAgrees(|stream + x|);
    if |stream + x| <= lo + RING_BYTES {
      HoldsGrows(before, after, stream, x, was, lo);
    }
  }

  /** Every readable poll reports a true consumer count in range, modulo 2^32. */
  ghost predicate Truthful(polls: seq<Poll>, counts: seq<nat>, lo: nat, hi: nat) {
    && |polls| == |counts|
    && forall i :: 0 <= i < |polls| && polls[i].readable ==> polls[i].count == Wrap32(counts[i]) && lo <= counts[i] <= hi
  }

  /** A reader that reports its count as it is, modulo 2^32, is truthful. */
  lemma PlainReportsAreTruthful(counts: seq<nat>, lo: nat, hi: nat)
    requires forall i :: 0 <= i < |counts| ==> lo <= counts[i] <= hi
    ensures Truthful(seq(|counts|, i requires 0 <= i < |counts| => Poll(false, true, counts[i] % 0x1_0000_0000)), counts, lo, hi)
  {
  }

  lemma WrapAgrees(n: nat)
    ensures Wrap32(n) % TWO31 == n % TWO31
  {
  }

  /** The true count behind `Seen`. */
  ghost function LastCount(polls: seq<Poll>, counts: seq<nat>, n: nat): nat
    requires 1 <= n <= |polls| == |counts|
  {
    if polls[n - 1].readable || n == 1 then counts[n - 1] else LastCount(polls, counts, n - 1)
  }

  lemma {:induction false} SeenIsLastCount(writeCount: u32, polls: seq<Poll>, counts: seq<nat>, n: nat, lo: nat, hi: nat)
    requires 1 <= n <= |polls| == |counts| && polls[0].readable && Truthful(polls, counts, lo, hi)
    ensures Seen(writeCount, polls, n) == Wrap32(LastCount(polls, counts, n)) && lo <= LastCount(polls, counts, n) <= hi
  {
    if !polls[n - 1].readable {
      SeenIsLastCount(writeCount, polls, counts, n - 1, lo, hi);
    }
  }

  /** The loop let the record through because the true free space was there. */
  lemma RoomWasSeen(written: nat, len: nat, polls: seq<Poll>, counts: seq<nat>, n: nat, lo: nat)
    requires 1 <= n <= |polls| && polls[0].readable && Truthful(polls, counts, lo, written)
    requires written <= lo + RING_BYTES && len <= RING_BYTES
    requires RoomFor(Wrap32(written), Seen(Wrap32(written), polls, n), len)
    ensures lo <= LastCount(polls, counts, n) <= written && written + len <= LastCount(polls, counts, n) + RING_BYTES
  {
    SeenIsLastCount(Wrap32(written), polls, counts, n, lo, written);
    RoomIsExact(written, LastCount(polls, counts, n), len);
  }

  class Producer {
    const data: array<byte>
    var writeCount: u32
    var epoch: bool
    var ctrl: Ctrl
    ghost var records: seq<Record>      // written since the last flush
    ghost var stream: seq<byte>         // their bytes, end to end
    ghost var consumed: nat             // a true consumer count already reached

    ghost predicate Valid()
      reads this, data
    {
      && data.Length == RING_BYTES
      && stream == Stream(records)
      && writeCount == Wrap32(|stream|)
      && ctrl == Ctrl(epoch, |stream| % TWO31)
      && consumed <= |stream| <= consumed + RING_BYTES
      && Holds(data[..], stream, consumed)
    }

    constructor ()
      ensures Valid() && fresh(data) && records == [] && !epoch
    {
      data := new byte[RING_BYTES](_ => 0);
      writeCount, epoch, ctrl := 0, false, Ctrl(false, 0);
      records, stream, consumed := [], [], 0;
    }

    /** flushBitstreamDdr: restart the count, flip the epoch, zero the ring, publish. */
    method FlushRing()
      requires Valid()
      modifies this, data
      ensures Valid() && records == [] && epoch != old(epoch) && ctrl == Ctrl(epoch, 0)
      ensures forall p :: 0 <= p < RING_BYTES ==> data[p] == 0
    {
      writeCount := 0;
      epoch := !epoch;
      ZeroRing();
      PublishCtrl();
      records, stream, consumed := [], [], 0;
    }

    /** memset of the whole ring. */
    method ZeroRing()
      modifies data
      ensures forall p :: 0 <= p < data.Length ==> data[p] == 0
    {
      for i := 0 to data.Length
        invariant forall p :: 0 <= p < i ==> data[p] == 0
      {
        data[i] := 0;
      }
    }

    method Memcpy(at: nat, src: seq<byte>)
      requires at + |src| <= data.Length
      modifies data
      ensures data[..] == Splice(old(data[..]), at, src)
    {
      for i := 0 to |src|
        invariant forall p :: at <= p < at + i ==> data[p] == src[p - at]
        invariant forall p :: 0 <= p < data.Length && !(at <= p < at + i) ==> data[p] == old(data[p])
      {
        data[at + i] := src[i];
      }
    }

    /** Copy up to the end of the ring, then the rest at its start. */
    method CopySplit(wr: nat, first: nat, src: seq<byte>)
      requires first <= |src| && wr + first <= data.Length && |src| - first <= data.Length
      modifies data
      ensures data[..] == Spliced(old(data[..]), wr, first, src)
    {
      Memcpy(wr, src[..first]);
      if first < |src| {
        Memcpy(0, src[first..]);
      }
    }

    /** writeBytes. */
    method WriteBytes(src: seq<byte>, ghost w: nat)
      requires data.Length == RING_BYTES && writeCount == Wrap32(w) && |src| <= RING_BYTES
      modifies data, this`writeCount
      ensures writeCount == Wrap32(w + |src|)
      ensures Placed(old(data[..]), data[..], w, src)
    {
      SlotOfWrapped(w);
      WrapAdds(w, |src|);
      var wr := writeCount % RING_BYTES;
      var first := if |src| < RING_BYTES - wr then |src| else RING_BYTES - wr;
      ghost var before := data[..];
      CopySplit(wr, first, src);
      SplicesPlace(before, data[..], w, src, first);
      writeCount := Wrap32(writeCount + |src|);
    }

    method PublishCtrl()
      modifies this`ctrl
      ensures ctrl == Ctrl(epoch, writeCount % TWO31)
    {
      ctrl := Ctrl(epoch, writeCount % TWO31);
    }

    /** Header, then payload, then the control word: the count is published after both copies. */
    method CopyAndPublish(r: Record, ghost w: nat)
      requires data.Length == RING_BYTES && writeCount == Wrap32(w) && HEADER_BYTES + |r.payload| <= RING_BYTES
      modifies data, this`writeCount, this`ctrl
      ensures writeCount == Wrap32(w + HEADER_BYTES + |r.payload|)
      ensures ctrl == Ctrl(epoch, writeCount % TWO31)
      ensures Placed(old(data[..]), data[..], w, Encode(r))
    {
      WriteBytes(Header(r), w);
      ghost var mid := data[..];
      if r.payload != [] {
        WriteBytes(r.payload, w + HEADER_BYTES);
      }
      RecordLands(old(data[..]), mid, data[..], w, r);
      PublishCtrl();
    }

    /** A record, whose bytes are `x`, goes in at the end of the stream; if it fits after `lo`, the ring still
        holds all from `lo`. */
    method Append(r: Record, ghost lo: nat, ghost x: seq<byte>)
      requires x == Encode(r) && Valid() && HEADER_BYTES + |r.payload| <= RING_BYTES && consumed <= lo <= |stream|
      modifies this, data
      ensures records == old(records) + [r] && stream == old(stream) + x && epoch == old(epoch)
      ensures writeCount == Wrap32(|stream|) && ctrl == Ctrl(epoch, |stream| % TWO31) && consumed == lo
      ensures Placed(old(data[..]), data[..], |old(stream)|, x)
      ensures |stream| <= lo + RING_BYTES ==> Valid()
    {
      ghost var before, grown := data[..], stream + x;
      CopyAndPublish(r, |stream|);
      AppendKeepsRing(before, data[..], records, r, stream, x, consumed, lo);
      records, stream, consumed := records + [r], grown, lo;
    }

    /** One record: wait for room, copy, publish. `counts` are the true consumer counts behind the
        readable polls. With a readable mailbox every unread byte survives and the ring still holds
        the stream; nothing at all changes unless the result is Ok. */
    method WriteRecord(r: Record, mapped: bool, polls: seq<Poll>, ghost counts: seq<nat>)
      returns (res: PushResult, polled: nat)
      requires Valid() && 1 <= |polls| == |counts|
      requires Truthful(polls, counts, consumed, |stream|)
      modifies this, data
      ensures res.Fatal? <==> !mapped || HEADER_BYTES + |r.payload| > RING_BYTES
      ensures !res.Fatal? ==> Settles(old(writeCount), HEADER_BYTES + |r.payload|, polls, polled, res)
      ensures !res.Ok? ==> data[..] == old(data[..]) && writeCount == old(writeCount) && ctrl == old(ctrl)
                           && records == old(records) && stream == old(stream) && Valid()
      ensures epoch == old(epoch)
      ensures res.Ok? ==>
                && records == old(records) + [r] && stream == old(stream) + Encode(r)
                && writeCount == Wrap32(|stream|) && ctrl == Ctrl(epoch, |stream| % TWO31)
                && Placed(old(data[..]), data[..], |old(stream)|, Encode(r))
      ensures res.Ok? && polls[0].readable ==> Valid() && old(consumed) <= consumed
    {
      var recordLen := HEADER_BYTES + |r.payload|;
      if recordLen > RING_BYTES || !mapped {
        return Fatal, 0;
      }
      res, polled := WaitForRoom(writeCount, recordLen, polls);
      if !res.Ok? {
        return;
      }
      ghost var lo := consumed;
      if polls[0].readable {
        RoomWasSeen(|stream|, recordLen, polls, counts, polled, consumed);
        lo := LastCount(polls, counts, polled);
      }
      Append(r, lo, Encode(r));
    }
  }

  /** How the wait loop ends after `n` polls: room at last, a fatal status, or no polls left. */
  ghost predicate Settles(writeCount: u32, len: nat, polls: seq<Poll>, n: nat, res: PushResult) {
    && 1 <= n <= |polls|
    && (forall m :: 0 <= m < n - 1 ==> !polls[m].fatal)
    && (forall m :: 1 <= m < n ==> !RoomFor(writeCount, Seen(writeCount, polls, m), len))
    && match res {
         case Ok => !polls[n - 1].fatal && RoomFor(writeCount, Seen(writeCount, polls, n), len)
         case Desync => polls[n - 1].fatal
         case Full => n == |polls| && !polls[n - 1].fatal && !RoomFor(writeCount, Seen(writeCount, polls, n), len)
         case Fatal => false
       }
  }

  /** The polling loop of writeBitstreamRecord. */
  method WaitForRoom(writeCount: u32, recordLen: nat, polls: seq<Poll>) returns (res: PushResult, n: nat)
    requires 1 <= |polls|
    ensures Settles(writeCount, recordLen, polls, n, res)
  {
    n := 1;
    if polls[0].fatal {
      return Desync, n;
    }
    var readCount := if polls[0].readable then polls[0].count else writeCount;
    while !RoomFor(writeCount, readCount, recordLen)
      invariant 1 <= n <= |polls| && readCount == Seen(writeCount, polls, n)
      invariant forall m :: 0 <= m < n ==> !polls[m].fatal
      invariant forall m :: 1 <= m < n ==> !RoomFor(writeCount, Seen(writeCount, polls, m), recordLen)
      decreases |polls| - n
    {
      if n == |polls| {
        return Full, n;
      }
      if polls[n].fatal {
        return Desync, n + 1;
      }
      if polls[n].readable {
        readCount := polls[n].count;
      }
      n := n + 1;
    }
    res := Ok;
  }

  /** The polls leave the loop no choice: it ends once, in one way. */
  lemma SettlesOnce(writeCount: u32, len: nat, polls: seq<Poll>, n: nat, res: PushResult, n': nat, res': PushResult)
    requires Settles(writeCount, len, polls, n, res) && Settles(writeCount, len, polls, n', res')
    ensures n == n' && res == res'
  {
  }

  /** With a truthful reader each ending is true: on success the record fits behind the last count seen, on a full
      ring every poll was seen, none was fatal and it fitted at none, and a desync is a fatal poll, the first one. */
  lemma SettlesTruly(written: nat, len: nat, polls: seq<Poll>, counts: seq<nat>, lo: nat, n: nat, res: PushResult)
    requires Settles(Wrap32(written), len, polls, n, res) && Truthful(polls, counts, lo, written)
    requires polls[0].readable && written <= lo + RING_BYTES && len <= RING_BYTES
    ensures res.Ok? ==> !polls[n - 1].fatal && written - LastCount(polls, counts, n) + len <= 262144
    ensures res.Full? ==> n == |polls| && forall m :: 0 <= m < n ==> !polls[m].fatal
    ensures res.Full? ==> forall m :: 1 <= m <= n ==> written - LastCount(polls, counts, m) + len > 262144
    ensures res.Desync? ==> polls[n - 1].fatal && forall m :: 0 <= m < n - 1 ==> !polls[m].fatal
  {
    forall m | 1 <= m <= n
      ensures RoomFor(Wrap32(written), Seen(Wrap32(written), polls, m), len) <==>
              written - LastCount(polls, counts, m) + len <= RING_BYTES
    {
      SeenIsLastCount(Wrap32(written), polls, counts, m, lo, written);
      RoomIsExact(written, LastCount(polls, counts, m), len);
    }
  }

  /** waitBitstreamReadCount: true exactly when some poll shows the true count at the true target. */
  method WaitReadCount(target: u32, polls: seq<Poll>, ghost trueTarget: nat, ghost counts: seq<nat>) returns (ok: bool)
    requires target == Wrap32(trueTarget)
    requires Truthful(polls, counts, if trueTarget < TWO31 then 0 else trueTarget - TWO31, trueTarget + TWO31 - 1)
    ensures ok <==> exists i :: 0 <= i < |polls| && polls[i].readable && counts[i] >= trueTarget
  {
    for i := 0 to |polls|
      invariant forall j :: 0 <= j < i ==> !(polls[j].readable && counts[j] >= trueTarget)
    {
      if polls[i].readable {
        WaitTestIsExact(counts[i], trueTarget);
        if Signed32(Wrap32(polls[i].count - target)) >= 0 {
          return true;
        }
      }
    }
    return false;
  }

  // ------------------------------------------------------------------ the reader's side

  /** What a consumer reads from the ring between two true counts. */
  function RingBytesBetween(data: seq<byte>, from: nat, to: nat): seq<byte>
    requires |data| == RING_BYTES && from <= to
  {
    seq(to - from, i requires 0 <= i < to - from => data[Slot(from + i)])
  }

  lemma RingReadsStream(data: seq<byte>, head: seq<byte>, tail: seq<byte>, lo: nat)
    requires Holds(data, head + tail, lo) && lo <= |head|
    ensures RingBytesBetween(data, |head|, |head| + |tail|) == tail
  {
  }

  /** The ring refines an unbounded FIFO: a consumer standing at any record boundary that has not been
      given up reads exactly the records from there on, wherever the ring and the counters have wrapped. */
  lemma RingIsRecordFifo(data: seq<byte>, rs: seq<Record>, k: nat, lo: nat)
    requires k <= |rs| && (forall i :: 0 <= i < |rs| ==> Framed(rs[i]))
    requires Holds(data, Stream(rs), lo) && lo <= |Stream(rs[..k])|
    ensures |Stream(rs[..k])| <= |Stream(rs)|
    ensures Decode(RingBytesBetween(data, |Stream(rs[..k])|, |Stream(rs)|)) == Some(rs[k..])
  {
    var head, tail := Stream(rs[..k]), Stream(rs[k..]);
    JoinedSplits(rs, Encode, k);
    RingReadsStream(data, head, tail, lo);
    DecodeStream(rs[k..]);
  }

  /** `avail` in the FPGA reader: the 31 published bits, zero-extended, minus its own 32-bit count. */
  function ReaderAvail(ctrlCount: nat, readCount: u32): u32 { Wrap32(ctrlCount - readCount) }

  /** The reader's level is the true level exactly while bit 31 of the count is clear; otherwise it
      exceeds the ring, which latches the reader's overrun flag and stops it. */
  lemma ReaderLevelExactIff(written: nat, consumed: nat)
    requires consumed <= written <= consumed + RING_BYTES
    ensures ReaderAvail(written % 0x8000_0000, Wrap32(consumed)) == written - consumed <==>
              written % 0x1_0000_0000 < 0x8000_0000
    ensures written % 0x1_0000_0000 >= 0x8000_0000 ==> ReaderAvail(written % 0x8000_0000, Wrap32(consumed)) > 262144
  {
    WrapAgrees(written);
    DifferenceWraps(written, consumed);
  }

  /** After a flush the write count is zero. A count left over from before the flush lets the first
      record through before the reader has taken the reset exactly when it is this small or this large. */
  lemma StaleCountPassesIff(stale: u32, len: nat)
    requires HEADER_BYTES <= len <= RING_BYTES
    ensures RoomFor(0, stale, len) <==> stale <= len || stale >= 0x1_0000_0000 - 262144 + len
  {
  }
}
