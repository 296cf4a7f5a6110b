/**
 Record format of the DDR bitstream ring: 32-byte little-endian headers as
 writeBitstreamRecord lays them out (arm/misterplexd/fpga_spi.cpp), read back the
 way the FPGA reader frames them (fpga/Plex_MiSTer/rtl/ddr_bitstream_reader.sv).
 */
module BitstreamCodec {
  import opened Options

  type byte = x: int | 0 <= x < 256
  type u32 = x: int | 0 <= x < 0x1_0000_0000
  type u64 = x: int | 0 <= x < 0x1_0000_0000_0000_0000

  const RECORD_MAGIC: u32 := 0x504C_584E // PLXN
  const HEADER_BYTES: nat := 32
  const RING_BYTES: nat := 262144

  datatype Event = Begin | Nal | Flush | End | Pause | Resume

  datatype Record = Record(event: Event, nalType: byte, session: u64, seqNo: u32, payload: seq<byte>)

  function EventCode(e: Event): byte {
    match e
    case Begin => 1 case Nal => 2 case Flush => 3 case End => 4 case Pause => 5 case Resume => 6
  }

  function EventOf(code: byte): Option<Event> {
    match code
    case 1 => Some(Begin) case 2 => Some(Nal) case 3 => Some(Flush)
    case 4 => Some(End) case 5 => Some(Pause) case 6 => Some(Resume)
    case _ => None
  }

  // ------------------------------------------------------------------ writing

  lemma SplitWord(v: u32)
    ensures v == v % 256 + 256 * (v / 256 % 256) + 65536 * (v / 65536 % 256) + 16777216 * (v / 16777216)
  {
    var a := v / 256;
    var b := a / 256;
    assert b == v / 65536 && b / 256 == v / 16777216;
    assert v == v % 256 + 256 * a && a == a % 256 + 256 * b && b == b % 256 + 256 * (b / 256);
  }

  /** put32: four little-endian bytes stored at `off`. */
  function Put32(h: seq<byte>, off: nat, v: u32): (r: seq<byte>)
    requires off + 4 <= |h|
    ensures |r| == |h|
    ensures Get32(r, off) == v
    ensures forall i :: 0 <= i < |h| && !(off <= i < off + 4) ==> r[i] == h[i]
  {
    SplitWord(v);
    h[off := v % 256][off + 1 := v / 256 % 256][off + 2 := v / 65536 % 256][off + 3 := v / 16777216]
  }

  /** put64: the low word, then the high word. */
  function Put64(h: seq<byte>, off: nat, v: u64): (r: seq<byte>)
    requires off + 8 <= |h|
    ensures |r| == |h|
    ensures Get32(r, off) + Get32(r, off + 4) * 0x1_0000_0000 == v
    ensures forall i :: 0 <= i < |h| && !(off <= i < off + 8) ==> r[i] == h[i]
  {
    Put32(Put32(h, off, v % 0x1_0000_0000), off + 4, v / 0x1_0000_0000)
  }

  /** The zeroed 32-byte header with every field stored, in the source's order. */
  function Header(r: Record): (h: seq<byte>)
    ensures |h| == HEADER_BYTES
  {
    var h0: seq<byte> := Put32(seq(HEADER_BYTES, _ => 0), 0, RECORD_MAGIC);
    var h1: seq<byte> := h0[4 := EventCode(r.event)][5 := r.nalType];
    Put32(Put32(Put64(h1, 8, r.session), 16, r.seqNo), 20, |r.payload| % 0x1_0000_0000)
  }

  function Encode(r: Record): (b: seq<byte>)
    ensures |b| == HEADER_BYTES + |r.payload|
  {
    Header(r) + r.payload
  }

  /** The pieces of `xs`, each rendered by `f`, end to end. */
  function Joined<T>(xs: seq<T>, f: T -> seq<byte>): seq<byte> {
    if xs == [] then [] else Joined(xs[..|xs| - 1], f) + f(xs[|xs| - 1])
  }

  /** Everything written since the last flush, oldest byte first. */
  function Stream(rs: seq<Record>): seq<byte> { Joined(rs, Encode) }

  // ------------------------------------------------------------------ reading

  /** hdr32 of the FPGA reader. */
  function Get32(h: seq<byte>, off: nat): u32
    requires off + 4 <= |h|
  {
    h[off] as int + 256 * (h[off + 1] as int) + 65536 * (h[off + 2] as int) + 16777216 * (h[off + 3] as int)
  }

  /** The reader's framing of one record: 32 header bytes, then a payload for NAL records only. A
      bad magic or a non-zero reserved word is fatal, a payload on any other event desynchronises. */
  function Frame(b: seq<byte>): (r: Option<Record>)
    ensures r.Some? ==> |b| >= HEADER_BYTES + |r.value.payload|
  {
    if |b| < HEADER_BYTES || Get32(b, 0) != RECORD_MAGIC || Get32(b, 24) != 0 then None
    else
      var event := EventOf(b[4]);
      var len := Get32(b, 20);
      if event == None || |b| < HEADER_BYTES + len || (event != Some(Nal) && len != 0) then None
      else
        var session := Get32(b, 8) + Get32(b, 12) * 0x1_0000_0000;
        Some(Record(event.value, b[5], session, Get32(b, 16), b[HEADER_BYTES..HEADER_BYTES + len]))
  }

  function Decode(b: seq<byte>): Option<seq<Record>> {
    if b == [] then Some([])
    else
      match Frame(b)
      case None => None
      case Some(r) =>
        match Decode(b[HEADER_BYTES + |r.payload|..])
        case None => None
        case Some(rest) => Some([r] + rest)
  }

  /** Only NAL records carry a payload, and it fits the 32-bit length field. */
  predicate Framed(r: Record) {
    (r.event == Nal || r.payload == []) && |r.payload| < 0x1_0000_0000
  }

  // ------------------------------------------------------------------ round trip

  lemma HeaderFields(r: Record)
    ensures var h := Header(r);
            && Get32(h, 0) == RECORD_MAGIC && h[4] == EventCode(r.event) && h[5] == r.nalType
            && Get32(h, 8) + Get32(h, 12) * 0x1_0000_0000 == r.session
            && Get32(h, 16) == r.seqNo && Get32(h, 20) == |r.payload| % 0x1_0000_0000 && Get32(h, 24) == 0
  {
  }

  /** The header byte by byte: "PLXN" and the words little-endian, the event by its number, the reserved bytes zero. */
  lemma HeaderBytes(r: Record)
    ensures var h := Header(r);
            && |h| == 32 && h[0] == 0x4E && h[1] == 0x58 && h[2] == 0x4C && h[3] == 0x50
            && h[4] == (match r.event
                        case Begin => 1 case Nal => 2 case Flush => 3 case End => 4 case Pause => 5 case Resume => 6)
            && h[5] == r.nalType && h[6] == 0 && h[7] == 0
            && h[8] == r.session % 256 && h[12] == r.session / 0x1_0000_0000 % 256
            && h[16] == r.seqNo % 256 && h[17] == r.seqNo / 256 % 256
            && h[18] == r.seqNo / 65536 % 256 && h[19] == r.seqNo / 16777216
            && h[20] == |r.payload| % 256 && h[21] == |r.payload| / 256 % 256
            && forall k :: 24 <= k < 32 ==> h[k] == 0
  {
    HeaderFields(r);
    ReservedBytes(r);
    FieldBytes(Header(r), r);
    LowBytes(|r.payload|);
  }

  lemma LowBytes(n: nat)
    ensures n % 0x1_0000_0000 % 256 == n % 256 && n % 0x1_0000_0000 / 256 % 256 == n / 256 % 256
  {
  }

  lemma FieldBytes(h: seq<byte>, r: Record)
    requires |h| == 32 && Get32(h, 0) == 0x504C_584E && Get32(h, 8) + Get32(h, 12) * 0x1_0000_0000 == r.session
    requires Get32(h, 16) == r.seqNo && Get32(h, 20) == |r.payload| % 0x1_0000_0000
    ensures h[0] == 0x4E && h[1] == 0x58 && h[2] == 0x4C && h[3] == 0x50
    ensures h[8] == r.session % 256 && h[12] == r.session / 0x1_0000_0000 % 256
    ensures h[16] == r.seqNo % 256 && h[17] == r.seqNo / 256 % 256
    ensures h[18] == r.seqNo / 65536 % 256 && h[19] == r.seqNo / 16777216
    ensures h[20] == |r.payload| % 0x1_0000_0000 % 256 && h[21] == |r.payload| % 0x1_0000_0000 / 256 % 256
  {
    WordBytes(h, 0);
    WordBytes(h, 8);
    WordBytes(h, 12);
    WordBytes(h, 16);
    WordBytes(h, 20);
    Halves(r.session, Get32(h, 8), Get32(h, 12));
  }

  lemma Halves(v: u64, lo: u32, hi: u32)
    requires v == lo as int + hi as int * 0x1_0000_0000
    ensures lo == v % 0x1_0000_0000 && hi == v / 0x1_0000_0000 && lo % 256 == v % 256
  {
  }

  /** The bytes of a little-endian word. */
  lemma WordBytes(h: seq<byte>, off: nat)
    requires off + 4 <= |h|
    ensures var v := Get32(h, off);
            h[off] == v % 256 && h[off + 1] == v / 256 % 256 && h[off + 2] == v / 65536 % 256 && h[off + 3] == v / 16777216
  {
    Bytes(h[off], h[off + 1], h[off + 2], h[off + 3]);
  }

  lemma Bytes(a: byte, b: byte, c: byte, d: byte)
    ensures var v := a as int + 256 * (b as int) + 65536 * (c as int) + 16777216 * (d as int);
            a == v % 256 && b == v / 256 % 256 && c == v / 65536 % 256 && d == v / 16777216
  {
    var m2 := c as int + 256 * (d as int);
    var m1 := b as int + 256 * m2;
    var v := a as int + 256 * m1;
    LowByte(v, a, m1);
    LowByte(m1, b, m2);
    LowByte(m2, c, d);
    assert v / 65536 == v / 256 / 256 && v / 16777216 == v / 256 / 256 / 256;
  }

  lemma LowByte(v: nat, a: byte, m: nat)
    requires v == a as int + 256 * m
    ensures v % 256 == a && v / 256 == m
  {
  }

  lemma ReservedBytes(r: Record)
    ensures var h := Header(r);
            h[6] == 0 && h[7] == 0 && forall k :: 24 <= k < 32 ==> h[k] == 0
  {
  }

  /** Any 32 bytes with a record's fields, then its payload, frame as that record. */
  lemma FrameFields(h: seq<byte>, r: Record, rest: seq<byte>)
    requires |h| == HEADER_BYTES && Framed(r)
    requires Get32(h, 0) == RECORD_MAGIC && h[4] == EventCode(r.event) && h[5] == r.nalType
    requires Get32(h, 8) + Get32(h, 12) * 0x1_0000_0000 == r.session
    requires Get32(h, 16) == r.seqNo && Get32(h, 20) == |r.payload| && Get32(h, 24) == 0
    ensures Frame(h + r.payload + rest) == Some(r)
  {
  }

  /** Exactly what the reader takes for a record: the magic, a known event, a zero word after the length, the
      whole payload, and none but on a NAL record. */
  lemma FramedIff(b: seq<byte>)
    ensures Frame(b).Some? <==>
              && |b| >= 32 && Get32(b, 0) == 0x504C584E && 1 <= b[4] <= 6 && Get32(b, 24) == 0
              && |b| >= 32 + Get32(b, 20) && (b[4] != 2 ==> Get32(b, 20) == 0)
    ensures Frame(b).Some? ==> Frame(b).value.payload == b[32..32 + Get32(b, 20)]
  {
  }

  function Prepend(r: Record, rest: Option<seq<Record>>): Option<seq<Record>> {
    match rest
    case None => None
    case Some(rs) => Some([r] + rs)
  }

  lemma DecodeFirst(r: Record, rest: seq<byte>)
    requires Framed(r)
    ensures Decode(Encode(r) + rest) == Prepend(r, Decode(rest))
  {
    HeaderFields(r);
    FrameFields(Header(r), r, rest);
    assert (Encode(r) + rest)[HEADER_BYTES + |r.payload|..] == rest;
  }

  type Reader = seq<byte> -> Option<seq<Record>>
  type Writer = Record -> seq<byte>

  /** `write` renders `r` so that `read` takes it off the front of anything. */
  ghost predicate Peels(read: Reader, write: Writer, r: Record) {
    forall rest: seq<byte> :: read(write(r) + rest) == Prepend(r, read(rest))
  }

  lemma DecodePeels(r: Record)
    requires Framed(r)
    ensures Peels(Decode, Encode, r)
  {
    forall rest: seq<byte> ensures Decode(Encode(r) + rest) == Prepend(r, Decode(rest)) {
      DecodeFirst(r, rest);
    }
  }

  lemma {:induction false} ReadJoined(read: Reader, write: Writer, rs: seq<Record>, rest: seq<byte>)
    requires forall i :: 0 <= i < |rs| ==> Peels(read, write, rs[i])
    ensures read(rest).Some? ==> read(Joined(rs, write) + rest) == Some(rs + read(rest).value)
    decreases |rs|
  {
    if rs == [] {
      assert Joined(rs, write) + rest == rest;
      assert read(rest).Some? ==> rs + read(rest).value == read(rest).value;
    } else {
      var front, last := rs[..|rs| - 1], rs[|rs| - 1];
      assert Joined(rs, write) + rest == Joined(front, write) + (write(last) + rest);
      assert Peels(read, write, last);
      ReadJoined(read, write, front, write(last) + rest);
      if read(rest).Some? {
        assert front + ([last] + read(rest).value) == rs + read(rest).value;
      }
    }
  }

  /** Decoding the bytes of any run of records gives exactly those records back, in order. */
  lemma DecodeStream(rs: seq<Record>)
    requires forall i :: 0 <= i < |rs| ==> (rs[i].event == Nal || rs[i].payload == []) && |rs[i].payload| < 0x1_0000_0000
    ensures Decode(Stream(rs)) == Some(rs)
  {
    forall i | 0 <= i < |rs| ensures Peels(Decode, Encode, rs[i]) {
      DecodePeels(rs[i]);
    }
    ReadJoined(Decode, Encode, rs, []);
    assert Joined(rs, Encode) + [] == Stream(rs) && rs + [] == rs;
  }

  lemma {:induction false} JoinedSplits<T>(xs: seq<T>, f: T -> seq<byte>, k: nat)
    requires k <= |xs|
    ensures Joined(xs, f) == Joined(xs[..k], f) + Joined(xs[k..], f)
    decreases |xs|
  {
    if k == |xs| {
      assert xs[..k] == xs && xs[k..] == [];
    } else {
      var front := xs[..|xs| - 1];
      JoinedSplits(front, f, k);
      assert front[..k] == xs[..k] && front[k..] == xs[k..][..|xs| - k - 1];
    }
  }
}
