/** RREQ and RREP headers and their byte layout (model/payroute-packet.cc, section 5 of RFC 3561). */
module Packets {
  import opened Types

  // ---------- flag bits ----------

  datatype Flag = GratuitousRrep | DestinationOnly | UnknownSeqno | AckRequired

  function Mask(f: Flag): bv8 {
    match f
    case GratuitousRrep => 1 << 5
    case DestinationOnly => 1 << 4
    case UnknownSeqno => 1 << 3
    case AckRequired => 1 << 6
  }

  function SetFlag(flags: bv8, f: Flag, on: bool): bv8 {
    if on then flags | Mask(f) else flags & !Mask(f)
  }

  predicate GetFlag(flags: bv8, f: Flag) {
    flags & Mask(f) != 0
  }

  /** A write sets its own flag and leaves every other flag alone. */
  lemma SetThenGet(flags: bv8, f: Flag, on: bool, g: Flag)
    ensures GetFlag(SetFlag(flags, f, on), g) == if f == g then on else GetFlag(flags, g)
  {
    match f { case _ => match g { case _ => } }
  }

  datatype Write = Write(flag: Flag, on: bool)

  function SetAll(flags: bv8, writes: seq<Write>): bv8 {
    if writes == [] then flags
    else SetFlag(SetAll(flags, writes[..|writes| - 1]), writes[|writes| - 1].flag, writes[|writes| - 1].on)
  }

  /** `k` is the last write to `f`. */
  predicate IsLastWrite(writes: seq<Write>, f: Flag, k: nat) {
    k < |writes| && writes[k].flag == f && forall j :: k < j < |writes| ==> writes[j].flag != f
  }

  /** After any sequence of writes a flag has its last written value, or its first value if never written. */
  lemma {:induction false} LastWriteWins(flags: bv8, writes: seq<Write>, f: Flag)
    ensures forall k: nat :: IsLastWrite(writes, f, k) ==> GetFlag(SetAll(flags, writes), f) == writes[k].on
    ensures (forall w :: w in writes ==> w.flag != f) ==> GetFlag(SetAll(flags, writes), f) == GetFlag(flags, f)
  {
    if writes != [] {
      var front, last := writes[..|writes| - 1], writes[|writes| - 1];
      LastWriteWins(flags, front, f);
      SetThenGet(SetAll(flags, front), last.flag, last.on, f);
      forall k: nat | IsLastWrite(writes, f, k) ensures GetFlag(SetAll(flags, writes), f) == writes[k].on {
        if k < |front| {
          assert IsLastWrite(front, f, k);
        }
      }
    }
  }

  // ---------- bytes ----------

  function BytesOf(x: uint32): (s: seq<uint8>)
    ensures |s| == 4
  {
    [x / 0x100_0000, x / 0x1_0000 % 0x100, x / 0x100 % 0x100, x % 0x100]
  }

  function FromBytes(s: seq<uint8>): uint32
    requires |s| == 4
  {
    s[0] as int * 0x100_0000 + s[1] as int * 0x1_0000 + s[2] as int * 0x100 + s[3]
  }

  lemma WordRoundTrip(x: uint32)
    ensures FromBytes(BytesOf(x)) == x
  {
    var a, b, c := x / 0x100_0000, x / 0x1_0000, x / 0x100;
    assert b == a * 0x100 + b % 0x100;
    assert c == b * 0x100 + c % 0x100;
  }

  lemma BytesRoundTrip(s: seq<uint8>)
    requires |s| == 4
    ensures BytesOf(FromBytes(s)) == s
  {
    var a, b, c, d := s[0] as int, s[1] as int, s[2] as int, s[3] as int;
    LowByte(a * 0x1_0000 + b * 0x100 + c, d);
    LowHalf(a * 0x100 + b, c * 0x100 + d);
    LowThree(a, b * 0x1_0000 + c * 0x100 + d);
    LowByte(a * 0x100 + b, c);
    LowByte(a, b);
  }

  lemma LowByte(q: int, r: int)
    requires 0 <= r < 0x100
    ensures (q * 0x100 + r) / 0x100 == q && (q * 0x100 + r) % 0x100 == r
  {
  }

  lemma LowHalf(q: int, r: int)
    requires 0 <= r < 0x1_0000
    ensures (q * 0x1_0000 + r) / 0x1_0000 == q
  {
  }

  lemma LowThree(q: int, r: int)
    requires 0 <= r < 0x100_0000
    ensures (q * 0x100_0000 + r) / 0x100_0000 == q
  {
  }

  function Word(s: seq<uint8>, i: nat): uint32
    requires i + 4 <= |s|
  {
    FromBytes(s[i..i + 4])
  }

  /** Consecutive words in network byte order. */
  function Words(ws: seq<uint32>): (s: seq<uint8>)
    ensures |s| == 4 * |ws|
  {
    if ws == [] then [] else Words(ws[..|ws| - 1]) + BytesOf(ws[|ws| - 1])
  }

  lemma WordsAppend(ws: seq<uint32>, x: uint32)
    ensures Words(ws + [x]) == Words(ws) + BytesOf(x)
  {
    assert (ws + [x])[..|ws|] == ws;
  }

  lemma WordsOfSuffix(s: seq<uint8>, k: nat)
    requires k <= |s|
    ensures forall j :: 0 <= j && k + j + 4 <= |s| ==> Word(s[k..], j) == Word(s, k + j)
  {
    forall j | 0 <= j && k + j + 4 <= |s| ensures Word(s[k..], j) == Word(s, k + j) {
      assert s[k..][j..j + 4] == s[k + j..k + j + 4];
    }
  }

  /** Each word can be read back, whatever comes before and after. */
  lemma {:induction false} WordsAt(before: seq<uint8>, ws: seq<uint32>, after: seq<uint8>, i: nat)
    requires i < |ws|
    ensures Word(before + Words(ws) + after, |before| + 4 * i) == ws[i]
    decreases |ws|
  {
    hide BytesOf, FromBytes;
    var front, last := ws[..|ws| - 1], BytesOf(ws[|ws| - 1]);
    var s := before + Words(ws) + after;
    if i == |front| {
      assert s[|before| + 4 * i..|before| + 4 * i + 4] == last;
      WordRoundTrip(ws[i]);
    } else {
      assert s == before + Words(front) + (last + after);
      WordsAt(before, front, last + after, i);
    }
  }

  lemma SliceTwo(s: seq<uint8>, i: nat, j: nat, k: nat)
    requires i <= j <= k <= |s|
    ensures s[i..k] == s[i..j] + s[j..k]
  {
  }

  /** Re-encoding the words read from some bytes gives the bytes back. */
  lemma {:induction false} WordsOfBytes(s: seq<uint8>, k: nat, ws: seq<uint32>)
    requires k + 4 * |ws| <= |s| && forall i :: 0 <= i < |ws| ==> ws[i] == Word(s, k + 4 * i)
    ensures Words(ws) == s[k..k + 4 * |ws|]
  {
    hide BytesOf, FromBytes;
    if ws != [] {
      var n := |ws| - 1;
      var end := k + 4 * n;
      WordsOfBytes(s, k, ws[..n]);
      BytesRoundTrip(s[end..end + 4]);
      assert ws[n] == FromBytes(s[end..end + 4]);
      SliceTwo(s, k, end, end + 4);
    }
  }

  lemma FlagsAsByte(b: bv8)
    ensures (b as int) as bv8 == b
  {
  }

  lemma {:induction false} ByteAsFlags(x: uint8)
    ensures (x as bv8) as int == x
    decreases x
  {
    if x > 0 {
      ByteAsFlags(x - 1);
      var b := (x - 1) as bv8;
      assert (b + 1) as int == x && x as bv8 == b + 1;
    }
  }

  // ---------- RREQ ----------

  const RREQ_SIZE := 27

  /** What an originator knows of the destination's sequence number. */
  datatype Knowledge = Unknown | Known(seqNo: uint32)

  datatype Rreq = Rreq(
    flags: bv8,
    reserved: uint8,
    hopCount: uint8,
    requestId: uint32,
    dst: Address,
    dstSeqNo: uint32,
    origin: Address,
    originSeqNo: uint32,
    amount: uint32)
  {
    predicate Has(f: Flag) {
      GetFlag(flags, f)
    }

    function With(f: Flag, on: bool): Rreq {
      this.(flags := SetFlag(flags, f, on))
    }

    function Knowing(k: Knowledge): Rreq {
      match k
      case Unknown => With(UnknownSeqno, true)
      case Known(s) => this.(dstSeqNo := s)
    }
  }

  function RreqWords(h: Rreq): seq<uint32> {
    [h.requestId, h.dst, h.dstSeqNo, h.origin, h.originSeqNo, h.amount]
  }

  function EncodeRreq(h: Rreq): (s: seq<uint8>)
    ensures |s| == RREQ_SIZE
  {
    [h.flags as int, h.reserved, h.hopCount] + Words(RreqWords(h))
  }

  function DecodeRreq(s: seq<uint8>): Rreq
    requires |s| >= RREQ_SIZE
  {
    Rreq(s[0] as bv8, s[1], s[2], Word(s, 3), Word(s, 7), Word(s, 11), Word(s, 15), Word(s, 19), Word(s, 23))
  }

  /** Whatever bytes follow an encoded RREQ, decoding gives the header back. */
  lemma RreqRoundTrip(h: Rreq, rest: seq<uint8>)
    ensures DecodeRreq(EncodeRreq(h) + rest) == h
  {
    hide Word, Words;
    var head, ws := [h.flags as int as uint8, h.reserved, h.hopCount], RreqWords(h);
    WordsAt(head, ws, rest, 0);
    WordsAt(head, ws, rest, 1);
    WordsAt(head, ws, rest, 2);
    WordsAt(head, ws, rest, 3);
    WordsAt(head, ws, rest, 4);
    WordsAt(head, ws, rest, 5);
    FlagsAsByte(h.flags);
  }

  /** Every 27 bytes are the encoding of the header decoded from them. */
  lemma RreqBytesRoundTrip(s: seq<uint8>)
    requires |s| >= RREQ_SIZE
    ensures EncodeRreq(DecodeRreq(s)) == s[..RREQ_SIZE]
  {
    hide Word, Words;
    WordsOfBytes(s, 3, RreqWords(DecodeRreq(s)));
    ByteAsFlags(s[0]);
    assert s[..RREQ_SIZE] == [s[0], s[1], s[2]] + s[3..27];
  }

  /** Flag writes survive the wire: each flag arrives with its last written value. */
  lemma RreqFlagsOnTheWire(h: Rreq, writes: seq<Write>, rest: seq<uint8>, f: Flag)
    ensures var sent := h.(flags := SetAll(h.flags, writes));
            var received := DecodeRreq(EncodeRreq(sent) + rest);
            forall k: nat :: IsLastWrite(writes, f, k) ==> sent.Has(f) == received.Has(f) == writes[k].on
  {
    RreqRoundTrip(h.(flags := SetAll(h.flags, writes)), rest);
    LastWriteWins(h.flags, writes, f);
  }

  // ---------- the bytes on the wire ----------

  /** Four bytes, the most significant first. */
  function BigEndian(s: seq<uint8>, i: nat): int
    requires i + 4 <= |s|
  {
    s[i] as int * 0x100_0000 + s[i + 1] as int * 0x1_0000 + s[i + 2] as int * 0x100 + s[i + 3]
  }

  /** A write changes one bit and no other: bit 5, 4, 3 or 6. */
  lemma WriteOneBit(flags: bv8, on: bool)
    ensures SetFlag(flags, GratuitousRrep, on) == if on then flags | 0x20 else flags & 0xDF
    ensures SetFlag(flags, DestinationOnly, on) == if on then flags | 0x10 else flags & 0xEF
    ensures SetFlag(flags, UnknownSeqno, on) == if on then flags | 0x08 else flags & 0xF7
    ensures SetFlag(flags, AckRequired, on) == if on then flags | 0x40 else flags & 0xBF
  {
  }

  lemma FlagsByBit(flags: bv8)
    ensures GetFlag(flags, GratuitousRrep) <==> flags & 32 != 0
    ensures GetFlag(flags, DestinationOnly) <==> flags & 16 != 0
    ensures GetFlag(flags, UnknownSeqno) <==> flags & 8 != 0
    ensures GetFlag(flags, AckRequired) <==> flags & 64 != 0
  {
  }

  lemma Bit3(b: bv8)
    ensures b as int / 8 % 2 == 1 <==> b & 8 != 0
  {
  }

  lemma Bit4(b: bv8)
    ensures b as int / 16 % 2 == 1 <==> b & 16 != 0
  {
  }

  lemma Bit5(b: bv8)
    ensures b as int / 32 % 2 == 1 <==> b & 32 != 0
  {
  }

  lemma Bit6(b: bv8)
    ensures b as int / 64 % 2 == 1 <==> b & 64 != 0
  {
  }

  lemma WordIsBigEndian(s: seq<uint8>, i: nat)
    requires i + 4 <= |s|
    ensures BigEndian(s, i) == Word(s, i)
  {
  }

  /** Where each field of an RREQ is, and which bit each flag is. */
  lemma RreqLayout(h: Rreq)
    ensures var s := EncodeRreq(h);
            && |s| == 27
            && (s[0] / 32 % 2 == 1 <==> h.Has(GratuitousRrep))
            && (s[0] / 16 % 2 == 1 <==> h.Has(DestinationOnly))
            && (s[0] / 8 % 2 == 1 <==> h.Has(UnknownSeqno))
            && s[1] == h.reserved && s[2] == h.hopCount
            && BigEndian(s, 3) == h.requestId
            && BigEndian(s, 7) == h.dst && BigEndian(s, 11) == h.dstSeqNo
            && BigEndian(s, 15) == h.origin && BigEndian(s, 19) == h.originSeqNo
            && BigEndian(s, 23) == h.amount
  {
    hide Word, Words, GetFlag, BigEndian;
    var s := EncodeRreq(h);
    FlagsByBit(h.flags);
    Bit5(h.flags);
    Bit4(h.flags);
    Bit3(h.flags);
    RreqRoundTrip(h, []);
    assert s + [] == s;
    WordIsBigEndian(s, 3);
    WordIsBigEndian(s, 7);
    WordIsBigEndian(s, 11);
    WordIsBigEndian(s, 15);
    WordIsBigEndian(s, 19);
    WordIsBigEndian(s, 23);
  }

  // ---------- RREP ----------

  const RREP_SIZE := 23

  /** A duration in the simulator's own resolution. */
  type Nanoseconds = int

  const NANOSECONDS_PER_MILLISECOND := 1_000_000

  /** `Time::GetMilliSeconds`, which truncates toward zero. */
  function InMilliseconds(t: Nanoseconds): int {
    if t >= 0 then t / NANOSECONDS_PER_MILLISECOND else -(-t / NANOSECONDS_PER_MILLISECOND)
  }

  datatype Rrep = Rrep(
    flags: bv8,
    prefixSize: uint8,
    hopCount: uint8,
    dst: Address,
    dstSeqNo: uint32,
    origin: Address,
    lifeTime: uint32,
    accRewards: uint32)
  {
    predicate Has(f: Flag) {
      GetFlag(flags, f)
    }

    /** The lifetime travels as an unsigned count of milliseconds. */
    function WithLifeTime(t: Nanoseconds): Rrep {
      this.(lifeTime := InMilliseconds(t) % TWO32)
    }

    function GetLifeTime(): Nanoseconds {
      lifeTime * NANOSECONDS_PER_MILLISECOND
    }
  }

  function RrepWords(h: Rrep): seq<uint32> {
    [h.dst, h.dstSeqNo, h.origin, h.lifeTime, h.accRewards]
  }

  function EncodeRrep(h: Rrep): (s: seq<uint8>)
    ensures |s| == RREP_SIZE
  {
    [h.flags as int, h.prefixSize, h.hopCount] + Words(RrepWords(h))
  }

  function DecodeRrep(s: seq<uint8>): Rrep
    requires |s| >= RREP_SIZE
  {
    Rrep(s[0] as bv8, s[1], s[2], Word(s, 3), Word(s, 7), Word(s, 11), Word(s, 15), Word(s, 19))
  }

  lemma RrepRoundTrip(h: Rrep, rest: seq<uint8>)
    ensures DecodeRrep(EncodeRrep(h) + rest) == h
  {
    hide Word, Words;
    var head, ws := [h.flags as int as uint8, h.prefixSize, h.hopCount], RrepWords(h);
    WordsAt(head, ws, rest, 0);
    WordsAt(head, ws, rest, 1);
    WordsAt(head, ws, rest, 2);
    WordsAt(head, ws, rest, 3);
    WordsAt(head, ws, rest, 4);
    FlagsAsByte(h.flags);
  }

  lemma RrepBytesRoundTrip(s: seq<uint8>)
    requires |s| >= RREP_SIZE
    ensures EncodeRrep(DecodeRrep(s)) == s[..RREP_SIZE]
  {
    hide Word, Words;
    WordsOfBytes(s, 3, RrepWords(DecodeRrep(s)));
    ByteAsFlags(s[0]);
    assert s[..RREP_SIZE] == [s[0], s[1], s[2]] + s[3..23];
  }

  lemma RrepFlagsOnTheWire(h: Rrep, writes: seq<Write>, rest: seq<uint8>, f: Flag)
    ensures var sent := h.(flags := SetAll(h.flags, writes));
            var received := DecodeRrep(EncodeRrep(sent) + rest);
            forall k: nat :: IsLastWrite(writes, f, k) ==> sent.Has(f) == received.Has(f) == writes[k].on
  {
    RrepRoundTrip(h.(flags := SetAll(h.flags, writes)), rest);
    LastWriteWins(h.flags, writes, f);
  }

  /** Where each field of an RREP is, and which bit asks for an acknowledgement. */
  lemma RrepLayout(h: Rrep)
    ensures var s := EncodeRrep(h);
            && |s| == 23
            && (s[0] / 64 % 2 == 1 <==> h.Has(AckRequired))
            && s[1] == h.prefixSize && s[2] == h.hopCount
            && BigEndian(s, 3) == h.dst && BigEndian(s, 7) == h.dstSeqNo
            && BigEndian(s, 11) == h.origin
            && BigEndian(s, 15) == h.lifeTime && BigEndian(s, 19) == h.accRewards
  {
    hide Word, Words, GetFlag, BigEndian;
    var s := EncodeRrep(h);
    FlagsByBit(h.flags);
    Bit6(h.flags);
    RrepRoundTrip(h, []);
    assert s + [] == s;
    WordIsBigEndian(s, 3);
    WordIsBigEndian(s, 7);
    WordIsBigEndian(s, 11);
    WordIsBigEndian(s, 15);
    WordIsBigEndian(s, 19);
  }

  /** What is written is the duration in milliseconds without its fraction, whatever its sign, in 32 bits. */
  lemma MillisecondsTruncate(h: Rrep, t: Nanoseconds) returns (ms: int)
    ensures t >= 0 ==> 0 <= t - ms * 1_000_000 < 1_000_000
    ensures t <= 0 ==> -1_000_000 < t - ms * 1_000_000 <= 0
    ensures h.WithLifeTime(t).lifeTime == ms % 0x1_0000_0000
  {
    ms := InMilliseconds(t);
  }

  /**
   A reply's lifetime survives the 32-bit field exactly when it is a whole number of
   milliseconds, not negative, and fits.
   */
  lemma LifeTimeSurvivesExactly(h: Rrep, t: Nanoseconds, rest: seq<uint8>)
    ensures DecodeRrep(EncodeRrep(h.WithLifeTime(t)) + rest).GetLifeTime() == t
            <==> t % NANOSECONDS_PER_MILLISECOND == 0 && 0 <= t < TWO32 * NANOSECONDS_PER_MILLISECOND
  {
    hide EncodeRrep, DecodeRrep;
    RrepRoundTrip(h.WithLifeTime(t), rest);
  }

  // ---------- headers as objects ----------

  /** `Buffer::Iterator`. */
  class BufferIterator {
    const data: array<uint8>
    var pos: nat

    constructor (data: array<uint8>, pos: nat)
      ensures this.data == data && this.pos == pos
    {
      this.data := data;
      this.pos := pos;
    }

    method WriteU8(b: uint8)
      requires pos < data.Length
      modifies this`pos, data
      ensures pos == old(pos) + 1 && data[..pos] == old(data[..pos]) + [b]
      ensures forall k :: pos <= k < data.Length ==> data[k] == old(data[k])
    {
      data[pos] := b;
      pos := pos + 1;
    }

    method WriteHtonU32(x: uint32)
      requires pos + 4 <= data.Length
      modifies this`pos, data
      ensures pos == old(pos) + 4 && data[..pos] == old(data[..pos]) + BytesOf(x)
      ensures forall k :: pos <= k < data.Length ==> data[k] == old(data[k])
    {
      data[pos], data[pos + 1], data[pos + 2], data[pos + 3] :=
        x / 0x100_0000, x / 0x1_0000 % 0x100, x / 0x100 % 0x100, x % 0x100;
      pos := pos + 4;
    }

    /** A word written after `start` and the words `ws`. */
    method WriteWordAfter(x: uint32, ghost start: seq<uint8>, ghost ws: seq<uint32>)
      requires pos + 4 <= data.Length && data[..pos] == start + Words(ws)
      modifies this`pos, data
      ensures pos == old(pos) + 4 && data[..pos] == start + Words(ws + [x])
      ensures forall k :: pos <= k < data.Length ==> data[k] == old(data[k])
    {
      hide BytesOf, Words;
      WriteHtonU32(x);
      WordsAppend(ws, x);
      assert start + Words(ws) + BytesOf(x) == start + (Words(ws) + BytesOf(x));
    }

    /** Three words in a row. */
    method WriteThreeAfter(x: uint32, y: uint32, z: uint32, ghost start: seq<uint8>, ghost ws: seq<uint32>)
      requires pos + 12 <= data.Length && data[..pos] == start + Words(ws)
      modifies this`pos, data
      ensures pos == old(pos) + 12 && data[..pos] == start + Words(ws + [x, y, z])
      ensures forall k :: pos <= k < data.Length ==> data[k] == old(data[k])
    {
      hide Words;
      WriteWordAfter(x, start, ws);
      WriteWordAfter(y, start, ws + [x]);
      WriteWordAfter(z, start, ws + [x] + [y]);
      assert ws + [x] + [y] + [z] == ws + [x, y, z];
    }

    /** The three single bytes that both headers start with. */
    method WriteHead(flags: bv8, second: uint8, third: uint8)
      requires pos + 3 <= data.Length
      modifies this`pos, data
      ensures pos == old(pos) + 3 && data[..pos] == old(data[..pos]) + [flags as int, second, third] + Words([])
      ensures forall k :: pos <= k < data.Length ==> data[k] == old(data[k])
    {
      WriteU8(flags as int);
      WriteU8(second);
      WriteU8(third);
    }

    method ReadU8() returns (b: uint8)
      requires pos < data.Length
      modifies this`pos
      ensures b == data[old(pos)] && pos == old(pos) + 1
    {
      b := data[pos];
      pos := pos + 1;
    }

    method ReadHead() returns (first: uint8, second: uint8, third: uint8)
      requires pos + 3 <= data.Length
      modifies this`pos
      ensures first == data[old(pos)] && second == data[old(pos) + 1] && third == data[old(pos) + 2]
      ensures pos == old(pos) + 3
    {
      first := ReadU8();
      second := ReadU8();
      third := ReadU8();
    }

    method ReadNtohU32() returns (x: uint32)
      requires pos + 4 <= data.Length
      modifies this`pos
      ensures x == Word(data[..], old(pos)) && pos == old(pos) + 4
    {
      x := data[pos] as int * 0x100_0000 + data[pos + 1] as int * 0x1_0000
           + data[pos + 2] as int * 0x100 + data[pos + 3];
      pos := pos + 4;
    }

    method ReadThree() returns (x: uint32, y: uint32, z: uint32)
      requires pos + 12 <= data.Length
      modifies this`pos
      ensures x == Word(data[..], old(pos)) && y == Word(data[..], old(pos) + 4) && z == Word(data[..], old(pos) + 8)
      ensures pos == old(pos) + 12
    {
      hide Word;
      x := ReadNtohU32();
      y := ReadNtohU32();
      z := ReadNtohU32();
    }
  }

  class RreqHeader {
    var flags: bv8
    var reserved: uint8
    var hopCount: uint8
    var requestId: uint32
    var dst: Address
    var dstSeqNo: uint32
    var origin: Address
    var originSeqNo: uint32
    var amount: uint32

    function Value(): Rreq
      reads this
    {
      Rreq(flags, reserved, hopCount, requestId, dst, dstSeqNo, origin, originSeqNo, amount)
    }

    /** All fields are zero, and no flag is set. */
    constructor ()
      ensures Value() == Rreq(0, 0, 0, 0, NULL_ADDRESS, 0, NULL_ADDRESS, 0, 0)
    {
      flags, reserved, hopCount, requestId := 0, 0, 0, 0;
      dst, dstSeqNo, origin, originSeqNo, amount := NULL_ADDRESS, 0, NULL_ADDRESS, 0, 0;
    }

    /** The header as removed from a received packet. */
    constructor Received(h: Rreq)
      ensures Value() == h
    {
      flags, reserved, hopCount, requestId := h.flags, h.reserved, h.hopCount, h.requestId;
      dst, dstSeqNo, origin, originSeqNo, amount := h.dst, h.dstSeqNo, h.origin, h.originSeqNo, h.amount;
    }

    /** `SetGratiousRrep`, `SetDestinationOnly` and `SetUnknownSeqno`, by the flag they write. */
    method WriteFlag(f: Flag, on: bool)
      modifies this`flags
      ensures Value() == old(Value()).With(f, on)
    {
      if on {
        flags := flags | Mask(f);
      } else {
        flags := flags & !Mask(f);
      }
    }

    /** Writes exactly the encoding at the iterator's position and moves past it. */
    method Serialize(i: BufferIterator)
      requires i.pos + RREQ_SIZE <= i.data.Length
      modifies i`pos, i.data
      ensures i.pos == old(i.pos) + RREQ_SIZE
      ensures i.data[..i.pos] == old(i.data[..i.pos]) + EncodeRreq(Value())
      ensures forall k :: i.pos <= k < i.data.Length ==> i.data[k] == old(i.data[k])
    {
      hide Words;
      ghost var start := i.data[..i.pos] + [flags as int, reserved, hopCount];
      i.WriteHead(flags, reserved, hopCount);
      i.WriteThreeAfter(requestId, dst, dstSeqNo, start, []);
      i.WriteThreeAfter(origin, originSeqNo, amount, start, [] + [requestId, dst, dstSeqNo]);
      assert [] + [requestId, dst, dstSeqNo] + [origin, originSeqNo, amount] == RreqWords(Value());
    }

    /** Reads the header at the iterator's position and reports its size. */
    method Deserialize(start: BufferIterator) returns (dist: nat)
      requires start.pos + RREQ_SIZE <= start.data.Length
      modifies this
      ensures dist == RREQ_SIZE
      ensures Value() == DecodeRreq(start.data[start.pos..])
    {
      hide Word;
      WordsOfSuffix(start.data[..], start.pos);
      var i := new BufferIterator(start.data, start.pos);
      var b;
      b, reserved, hopCount := i.ReadHead();
      flags := b as bv8;
      requestId, dst, dstSeqNo := i.ReadThree();
      origin, originSeqNo, amount := i.ReadThree();
      dist := i.pos - start.pos;
      assert start.data[start.pos..] == start.data[..][start.pos..];
    }
  }

  class RrepHeader {
    var flags: bv8
    var prefixSize: uint8
    var hopCount: uint8
    var dst: Address
    var dstSeqNo: uint32
    var origin: Address
    var lifeTime: uint32
    var accRewards: uint32

    function Value(): Rrep
      reads this
    {
      Rrep(flags, prefixSize, hopCount, dst, dstSeqNo, origin, lifeTime, accRewards)
    }

    constructor ()
      ensures Value() == Rrep(0, 0, 0, NULL_ADDRESS, 0, NULL_ADDRESS, 0, 0)
    {
      flags, prefixSize, hopCount := 0, 0, 0;
      dst, dstSeqNo, origin, lifeTime, accRewards := NULL_ADDRESS, 0, NULL_ADDRESS, 0, 0;
    }

    method SetAckRequired(on: bool)
      modifies this`flags
      ensures Value() == old(Value()).(flags := SetFlag(old(flags), AckRequired, on))
      ensures Value().Has(AckRequired) == on
    {
      SetThenGet(flags, AckRequired, on, AckRequired);
      if on {
        flags := flags | (1 << 6);
      } else {
        flags := flags & !(1 << 6);
      }
    }

    method SetLifeTime(t: Nanoseconds)
      modifies this`lifeTime
      ensures Value() == old(Value()).WithLifeTime(t)
    {
      lifeTime := InMilliseconds(t) % TWO32;
    }

    method Serialize(i: BufferIterator)
      requires i.pos + RREP_SIZE <= i.data.Length
      modifies i`pos, i.data
      ensures i.pos == old(i.pos) + RREP_SIZE
      ensures i.data[..i.pos] == old(i.data[..i.pos]) + EncodeRrep(Value())
      ensures forall k :: i.pos <= k < i.data.Length ==> i.data[k] == old(i.data[k])
    {
      hide Words;
      ghost var start := i.data[..i.pos] + [flags as int, prefixSize, hopCount];
      i.WriteHead(flags, prefixSize, hopCount);
      i.WriteThreeAfter(dst, dstSeqNo, origin, start, []);
      i.WriteWordAfter(lifeTime, start, [] + [dst, dstSeqNo, origin]);
      i.WriteWordAfter(accRewards, start, [] + [dst, dstSeqNo, origin] + [lifeTime]);
      assert [] + [dst, dstSeqNo, origin] + [lifeTime] + [accRewards] == RrepWords(Value());
    }

    method Deserialize(start: BufferIterator) returns (dist: nat)
      requires start.pos + RREP_SIZE <= start.data.Length
      modifies this
      ensures dist == RREP_SIZE
      ensures Value() == DecodeRrep(start.data[start.pos..])
    {
      hide Word;
      WordsOfSuffix(start.data[..], start.pos);
      var i := new BufferIterator(start.data, start.pos);
      var b;
      b, prefixSize, hopCount := i.ReadHead();
      flags := b as bv8;
      dst, dstSeqNo, origin := i.ReadThree();
      lifeTime := i.ReadNtohU32();
      accRewards := i.ReadNtohU32();
      dist := i.pos - start.pos;
      assert start.data[start.pos..] == start.data[..][start.pos..];
    }
  }
}
