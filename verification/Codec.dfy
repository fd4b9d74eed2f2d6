/**
 The ESPHome Native API wire codec: `0x00 | varint(length) | varint(type) | payload`.

 Bytes are integers below 256 and `u64` values are integers below `TWO_64`. The
 shift-and-or of the original is written as arithmetic: or-ing a seven-bit group
 shifted past every bit read so far adds it, and a shift drops the bits that leave
 the word.
*/
module Codec {
  import opened Words

  const MAX_FRAME_PAYLOAD: nat := 64 * 1024
  const MAX_VARINT_BYTES: nat := 10

  // ---------------------------------------------------------------- varints

  /** 128 to the power n: the weight of the n-th seven-bit group. */
  function Weight(n: nat): (w: nat)
    ensures w >= 1
  {
    if n == 0 then 1 else 128 * Weight(n - 1)
  }

  /** What a sequence of groups means, least significant group first (Protocol
      Buffers Encoding guide, section "Base 128 Varints"); the top bit of each byte is ignored. */
  function Value(groups: seq<byte>): nat {
    if groups == [] then 0 else groups[0] % 128 + 128 * Value(groups[1..])
  }

  /** The number of leading bytes that have their continuation bit set. */
  function Continuations(src: seq<byte>): (n: nat)
    ensures n <= |src|
    ensures n < |src| ==> src[n] < 128
    ensures forall i :: 0 <= i < n ==> src[i] >= 128
  {
    if src == [] || src[0] < 128 then 0 else 1 + Continuations(src[1..])
  }

  /** What reading a varint at the front of `src` means: the first byte without a
      continuation bit ends it, provided it is among the first ten. */
  function Peek(src: seq<byte>): (r: Option<(u64, nat)>)
    ensures r.Some? ==> 1 <= r.value.1 <= |src|
  {
    var n := Continuations(src);
    if n < |src| && n < MAX_VARINT_BYTES then Some((Value(src[..n + 1]) % TWO_64, n + 1)) else None
  }

  function EncodeVarint(v: nat): (bytes: seq<byte>)
    ensures |bytes| >= 1
    decreases v
  {
    if v < 128 then [v] else [v % 128 + 128] + EncodeVarint(v / 128)
  }

  lemma {:induction false} ValueSnoc(groups: seq<byte>, b: byte)
    ensures Value(groups + [b]) == Value(groups) + (b % 128) * Weight(|groups|)
  {
    if groups == [] {
      assert Value([b]) == b % 128 + 128 * Value([b][1..]);
    } else {
      assert (groups + [b])[1..] == groups[1..] + [b];
      ValueSnoc(groups[1..], b);
      var x, w := b % 128, Weight(|groups| - 1);
      assert 128 * (x * w) == x * (128 * w);
    }
  }

  lemma {:induction false} ValueBound(groups: seq<byte>)
    ensures Value(groups) < Weight(|groups|)
  {
    if groups != [] {
      ValueBound(groups[1..]);
    }
  }

  lemma WeightOfTen()
    ensures Weight(9) == 0x8000_0000_0000_0000
    ensures Weight(10) == 64 * TWO_64
  {
    assert Weight(3) == 128 * 128 * 128;
    assert Weight(6) == 128 * 128 * 128 * Weight(3);
    assert Weight(9) == 128 * 128 * 128 * Weight(6);
  }

  lemma {:induction false} ContinuationsUnique(src: seq<byte>, n: nat)
    requires n < |src| && src[n] < 128 && forall i :: 0 <= i < n ==> src[i] >= 128
    ensures Continuations(src) == n
  {
    if n > 0 {
      ContinuationsUnique(src[1..], n - 1);
    }
  }

  lemma {:induction false} ContinuationsGrow(src: seq<byte>, more: seq<byte>)
    ensures Continuations(src) <= Continuations(src + more)
  {
    if src != [] && src[0] >= 128 {
      assert (src + more)[1..] == src[1..] + more;
      ContinuationsGrow(src[1..], more);
    }
  }

  lemma {:induction false} EncodeVarintShape(v: nat)
    ensures var e := EncodeVarint(v);
      && Value(e) == v
      && e[|e| - 1] < 128
      && forall i :: 0 <= i < |e| - 1 ==> e[i] >= 128
  {
    if v < 128 {
      assert Value([v]) == v % 128 + 128 * Value([v][1..]);
    } else {
      var rest := EncodeVarint(v / 128);
      var b: byte := v % 128 + 128;
      EncodeVarintShape(v / 128);
      assert ([b] + rest)[1..] == rest;
    }
  }

  /** An encoding has the least number of seven-bit groups that can hold the value. */
  lemma {:induction false} EncodeVarintMinimal(v: nat, groups: nat)
    requires groups >= 1
    ensures |EncodeVarint(v)| <= groups <==> v < Weight(groups)
    decreases groups
  {
    if v >= 128 {
      if groups == 1 {
        assert Weight(1) == 128;
      } else {
        EncodeVarintMinimal(v / 128, groups - 1);
        var w := Weight(groups - 1);
        assert v / 128 < w <==> v < 128 * w;
      }
    } else {
      assert Weight(groups) == 128 * Weight(groups - 1);
    }
  }

  /** Reading what was written returns the value and its exact length, whatever follows. */
  lemma VarintRoundTrip(v: u64, rest: seq<byte>)
    ensures Peek(EncodeVarint(v) + rest) == Some((v, |EncodeVarint(v)|))
    ensures 1 <= |EncodeVarint(v)| <= MAX_VARINT_BYTES
  {
    hide EncodeVarint, Value, Weight, Continuations;
    var e := EncodeVarint(v);
    EncodeVarintShape(v);
    WeightOfTen();
    EncodeVarintMinimal(v, 10);
    ContinuationsUnique(e + rest, |e| - 1);
    assert (e + rest)[..|e|] == e;
  }

  /** No encoding is a prefix of another, so two encodings in a row are cut apart uniquely. */
  lemma VarintPrefixFree(a: u64, b: u64)
    ensures EncodeVarint(a) <= EncodeVarint(b) <==> a == b
  {
    var x, y := EncodeVarint(a), EncodeVarint(b);
    if x <= y {
      assert y == x + y[|x|..];
      VarintRoundTrip(a, y[|x|..]);
      VarintRoundTrip(b, []);
      assert y + [] == y;
    }
  }

  lemma PeekStable(src: seq<byte>, more: seq<byte>)
    requires Peek(src).Some?
    ensures Peek(src + more) == Peek(src)
  {
    var n := Continuations(src);
    ContinuationsUnique(src + more, n);
    assert (src + more)[..n + 1] == src[..n + 1];
  }

  /** Ten continuation bytes in a row: longer than any varint can be. */
  predicate Overlong(src: seq<byte>) {
    Continuations(src) >= MAX_VARINT_BYTES
  }

  /** A refused varint is one of two things. An incomplete one can still be finished by
      bytes to come; an over-long one cannot be, by any bytes at all. */
  lemma PeekRefusal(src: seq<byte>)
    requires Peek(src).None?
    ensures Overlong(src) ==> forall more :: Peek(src + more).None?
    ensures !Overlong(src) ==> Peek(src + [0]).Some?
  {
    var n := Continuations(src);
    if Overlong(src) {
      forall more ensures Peek(src + more).None? {
        ContinuationsGrow(src, more);
      }
    } else {
      ContinuationsUnique(src + [0], n);
    }
  }

  // ---------------------------------------------------------------- frames

  datatype Frame = Frame(msgType: u32, payload: seq<byte>)

  datatype WireError = BadPreamble(first: byte) | PayloadTooLarge(length: nat)

  datatype Decoded =
    | NeedMore
    | Malformed(error: WireError)
    | Complete(frame: Frame, used: nat)

  function EncodeFrame(f: Frame): (bytes: seq<byte>)
    ensures |bytes| >= 3
  {
    [0] + EncodeVarint(|f.payload|) + EncodeVarint(f.msgType) + f.payload
  }

  /** What one call of the decoder makes of the bytes received so far. */
  function DecodeFrame(src: seq<byte>): (d: Decoded)
    ensures d.Complete? ==> 3 <= d.used <= |src|
  {
    if src == [] then NeedMore
    else if src[0] != 0 then Malformed(BadPreamble(src[0]))
    else if |src| < 2 then NeedMore
    else match Peek(src[1..])
      case None => NeedMore
      case Some((length, lengthBytes)) =>
        if length > MAX_FRAME_PAYLOAD then Malformed(PayloadTooLarge(length))
        else if |src| <= 1 + lengthBytes then NeedMore
        else match Peek(src[1 + lengthBytes..])
          case None => NeedMore
          case Some((msgType, typeBytes)) =>
            var header := 1 + lengthBytes + typeBytes;
            if |src| < header + length then NeedMore
            else Complete(Frame(msgType % TWO_32, src[header..header + length]), header + length)
  }

  /** An answer never changes when more bytes arrive behind the ones that produced it. */
  lemma DecodeStable(src: seq<byte>, more: seq<byte>)
    requires !DecodeFrame(src).NeedMore?
    ensures DecodeFrame(src + more) == DecodeFrame(src)
  {
    hide Peek;
    if src[0] == 0 {
      var all := src + more;
      assert all[1..] == src[1..] + more;
      PeekStable(src[1..], more);
      var (length, lengthBytes) := Peek(src[1..]).value;
      if length <= MAX_FRAME_PAYLOAD {
        assert all[1 + lengthBytes..] == src[1 + lengthBytes..] + more;
        PeekStable(src[1 + lengthBytes..], more);
        var header := 1 + lengthBytes + Peek(src[1 + lengthBytes..]).value.1;
        assert all[header..header + length] == src[header..header + length];
      }
    }
  }

  lemma Cut(a: seq<byte>, b: seq<byte>)
    ensures (a + b)[..|a|] == a && (a + b)[|a|..] == b
  {
  }

  lemma FrameParts(f: Frame, rest: seq<byte>)
    requires |f.payload| < TWO_64
    ensures var src := EncodeFrame(f) + rest;
      var l := |EncodeVarint(|f.payload|)|;
      var t := |EncodeVarint(f.msgType)|;
      && |src| == 1 + l + t + |f.payload| + |rest|
      && src[0] == 0
      && Peek(src[1..]) == Some((|f.payload|, l))
      && Peek(src[1 + l..]) == Some((f.msgType, t))
      && src[1 + l + t..1 + l + t + |f.payload|] == f.payload
  {
    hide Peek, EncodeVarint;
    var src := EncodeFrame(f) + rest;
    var lv, tv := EncodeVarint(|f.payload|), EncodeVarint(f.msgType);
    var tail := f.payload + rest;
    VarintRoundTrip(|f.payload|, tv + tail);
    VarintRoundTrip(f.msgType, tail);
    assert src == ([0] + lv + tv) + tail;
    Cut([0] + lv + tv, tail);
    assert src == ([0] + lv) + (tv + tail);
    Cut([0] + lv, tv + tail);
    assert src == [0] + (lv + (tv + tail));
    Cut([0], lv + (tv + tail));
    Cut(f.payload, rest);
    assert src[1 + |lv| + |tv|..][..|f.payload|] == f.payload;
  }

  lemma FrameLength(f: Frame)
    ensures |EncodeFrame(f)| == 1 + |EncodeVarint(|f.payload|)| + |EncodeVarint(f.msgType)| + |f.payload|
  {
  }

  /** Decoding undoes encoding exactly for payloads up to 64 KiB. The encoder writes
      larger payloads too, and every decoder refuses those. */
  lemma FrameRoundTrip(f: Frame, rest: seq<byte>)
    requires |f.payload| < TWO_64
    ensures |f.payload| <= MAX_FRAME_PAYLOAD
      <==> DecodeFrame(EncodeFrame(f) + rest) == Complete(f, |EncodeFrame(f)|)
    ensures |f.payload| > MAX_FRAME_PAYLOAD
      <==> DecodeFrame(EncodeFrame(f) + rest) == Malformed(PayloadTooLarge(|f.payload|))
  {
    hide Peek, EncodeVarint, EncodeFrame;
    FrameParts(f, rest);
    FrameLength(f);
  }

  /** The two places of the header where a varint is read. */
  predicate StalledHeader(src: seq<byte>) {
    && |src| >= 2
    && src[0] == 0
    && match Peek(src[1..])
       case None => Overlong(src[1..])
       case Some((length, lengthBytes)) =>
         length <= MAX_FRAME_PAYLOAD && Overlong(src[1 + lengthBytes..])
  }

  /** A header holding an over-long varint is never rejected: the decoder asks for more
      bytes for ever. */
  lemma StalledForever(src: seq<byte>, more: seq<byte>)
    requires StalledHeader(src)
    ensures DecodeFrame(src + more) == NeedMore
  {
    hide Peek, Overlong;
    var all := src + more;
    assert all[1..] == src[1..] + more;
    if Peek(src[1..]).None? {
      OverlongForever(src[1..], more);
    } else {
      PeekStable(src[1..], more);
      var lengthBytes := Peek(src[1..]).value.1;
      assert all[1 + lengthBytes..] == src[1 + lengthBytes..] + more;
      OverlongForever(src[1 + lengthBytes..], more);
    }
  }

  lemma OverlongForever(src: seq<byte>, more: seq<byte>)
    requires Overlong(src)
    ensures Peek(src + more).None?
  {
    PeekRefusal(src);
  }

  /** The shortest such input: the preamble and ten bytes that all announce another. */
  lemma ElevenBytesStall(more: seq<byte>)
    ensures var src := [0] + seq(MAX_VARINT_BYTES, _ => 0x80 as byte);
      StalledHeader(src) && |src| == 11 && DecodeFrame(src + more) == NeedMore
  {
    var groups := seq(MAX_VARINT_BYTES, _ => 0x80 as byte);
    var src := [0] + groups;
    assert src[1..] == groups;
    ContinuationsAll(groups);
    StalledForever(src, more);
  }

  lemma {:induction false} ContinuationsAll(src: seq<byte>)
    requires forall i :: 0 <= i < |src| ==> src[i] >= 128
    ensures Continuations(src) == |src|
  {
    if src != [] {
      ContinuationsAll(src[1..]);
    }
  }

  /** A zero byte ends any varint that can still end. */
  lemma ZeroEnds(src: seq<byte>, more: seq<byte>)
    requires !Overlong(src) && more != [] && more[0] == 0
    ensures Peek(src + more).Some?
    ensures Peek(src).None? ==> Peek(src + more).value.1 == |src| + 1
  {
    if Peek(src).Some? {
      PeekStable(src, more);
    } else {
      ContinuationsUnique(src + more, |src|);
    }
  }

  function Zeros(n: nat): (z: seq<byte>)
    ensures |z| == n && forall i :: 0 <= i < n ==> z[i] == 0
  {
    seq(n, i => 0 as byte)
  }

  /** Enough zero bytes finish the header and the payload it announces. */
  lemma ZerosAnswer(src: seq<byte>)
    requires |src| >= 2 && src[0] == 0 && !StalledHeader(src)
    ensures exists n :: !DecodeFrame(src + Zeros(n)).NeedMore?
  {
    hide Peek, Overlong, Continuations;
    assert !Overlong(src[1..]) by {
      OverlongRefused(src[1..]);
    }
    var probe := src + Zeros(1);
    assert probe[1..] == src[1..] + Zeros(1);
    ZeroEnds(src[1..], Zeros(1));
    var (length, lengthBytes) := Peek(probe[1..]).value;
    var n := 2 + length;
    var all := src + Zeros(n);
    assert all == probe + Zeros(1 + length);
    assert all[1..] == probe[1..] + Zeros(1 + length);
    PeekStable(probe[1..], Zeros(1 + length));
    if length <= MAX_FRAME_PAYLOAD {
      if Peek(src[1..]).Some? {
        PeekStable(src[1..], Zeros(1));
        assert all[1 + lengthBytes..] == src[1 + lengthBytes..] + Zeros(n);
        ZeroEnds(src[1 + lengthBytes..], Zeros(n));
        HeaderWithin(src[1 + lengthBytes..], n);
      } else {
        assert all[1 + lengthBytes..] == [] + Zeros(1 + length);
        EmptyNotOverlong();
        ZeroEnds([], Zeros(1 + length));
        HeaderWithin([], 1 + length);
      }
      assert !DecodeFrame(all).NeedMore?;
    }
  }

  lemma OverlongRefused(src: seq<byte>)
    ensures Overlong(src) ==> Peek(src).None?
  {
  }

  lemma EmptyNotOverlong()
    ensures !Overlong([]) && Peek([]).None?
  {
  }

  /** The varint ended by a zero uses at most one of the zeros. */
  lemma HeaderWithin(src: seq<byte>, n: nat)
    requires n >= 1 && Peek(src + Zeros(n)).Some?
    ensures Peek(src + Zeros(n)).value.1 <= |src| + 1
  {
    assert (src + Zeros(n))[|src|] == 0;
  }

  /** Asking for more bytes is an honest answer for every input except a stalled one:
      some continuation makes the decoder answer if and only if no varint of the header
      is over-long. */
  lemma WaitsForeverExactlyWhenStalled(src: seq<byte>)
    ensures StalledHeader(src) <==> forall more: seq<byte> :: DecodeFrame(src + more).NeedMore?
  {
    if StalledHeader(src) {
      forall more: seq<byte> ensures DecodeFrame(src + more).NeedMore? {
        StalledForever(src, more);
      }
    } else if src == [] {
      assert !DecodeFrame([] + [1]).NeedMore?;
    } else if |src| >= 2 && src[0] == 0 {
      ZerosAnswer(src);
    } else if src == [0] {
      assert !StalledHeader([0, 0]);
      ZerosAnswer([0, 0]);
      var n :| !DecodeFrame([0, 0] + Zeros(n)).NeedMore?;
      assert [0] + ([0] + Zeros(n)) == [0, 0] + Zeros(n);
    } else {
      assert src + [] == src;
      assert !DecodeFrame(src + []).NeedMore?;
    }
  }

  /** Of the tenth byte of a varint only the lowest bit counts; the others are dropped. */
  lemma TenthByteDropsBits(nine: seq<byte>, b: byte, rest: seq<byte>)
    requires |nine| == 9 && (forall i :: 0 <= i < 9 ==> nine[i] >= 128) && b < 128
    ensures Peek(nine + [b] + rest) == Some((Value(nine) + b % 2 * 0x8000_0000_0000_0000, 10))
  {
    hide Value, Weight, Continuations;
    var src := nine + [b] + rest;
    assert src[9] == b;
    ContinuationsUnique(src, 9);
    assert src[..10] == nine + [b];
    ValueSnoc(nine, b);
    ValueBound(nine);
    WeightOfTen();
    LowestBitStays(Value(nine), b);
  }

  lemma LowestBitStays(low: nat, b: byte)
    requires low < 0x8000_0000_0000_0000 && b < 128
    ensures (low + b % 128 * 0x8000_0000_0000_0000) % TWO_64 == low + b % 2 * 0x8000_0000_0000_0000
  {
    var half := 0x8000_0000_0000_0000;
    assert b * half == b / 2 * TWO_64 + b % 2 * half;
    Remainder(b / 2, low + b % 2 * half);
  }

  /** A stream is malformed at its first byte exactly if that is not zero, and the error names
      it; it is malformed at its header exactly if the length read there is too large, and the
      error names that. */
  lemma MalformedIff(src: seq<byte>, e: WireError)
    ensures DecodeFrame(src) == Malformed(e)
      <==> match e
           case BadPreamble(first) => src != [] && src[0] == first && first != 0
           case PayloadTooLarge(length) =>
             && |src| >= 2 && src[0] == 0 && length > 65536
             && Peek(src[1..]).Some? && Peek(src[1..]).value.0 == length
  {
    hide Peek;
  }

  /** A message type of more than 32 bits is cut to its lowest 32. */
  lemma WideTypeIsCut(wide: u64, payload: seq<byte>, rest: seq<byte>)
    requires |payload| <= MAX_FRAME_PAYLOAD
    ensures var src := [0] + EncodeVarint(|payload|) + EncodeVarint(wide) + payload;
      DecodeFrame(src + rest) == Complete(Frame(wide % TWO_32, payload), |src|)
  {
    hide Peek, EncodeVarint;
    var lv, tv := EncodeVarint(|payload|), EncodeVarint(wide);
    var src, tail := [0] + lv + tv + payload + rest, payload + rest;
    VarintRoundTrip(|payload|, tv + tail);
    VarintRoundTrip(wide, tail);
    assert src == ([0] + lv + tv) + tail;
    Cut([0] + lv + tv, tail);
    assert src == ([0] + lv) + (tv + tail);
    Cut([0] + lv, tv + tail);
    assert src == [0] + (lv + (tv + tail));
    Cut([0], lv + (tv + tail));
    Cut(payload, rest);
    assert src[1 + |lv| + |tv|..][..|payload|] == payload;
  }

  // ---------------------------------------------------------------- streams

  /** Everything the decoder gets out of a buffer before it asks for more or fails. */
  datatype Drained = Drained(frames: seq<Frame>, rest: seq<byte>, error: Option<WireError>)

  function Drain(src: seq<byte>): Drained
    decreases |src|
  {
    match DecodeFrame(src)
    case NeedMore => Drained([], src, None)
    case Malformed(e) => Drained([], src, Some(e))
    case Complete(f, used) =>
      var tail := Drain(src[used..]);
      tail.(frames := [f] + tail.frames)
  }

  /** Draining after each arriving chunk; the reader stops at the first error. */
  function DrainChunks(buffer: seq<byte>, chunks: seq<seq<byte>>): Drained
    decreases |chunks|
  {
    if chunks == [] then Drained([], buffer, None)
    else
      var d := Drain(buffer + chunks[0]);
      if d.error.Some? then d
      else
        var later := DrainChunks(d.rest, chunks[1..]);
        later.(frames := d.frames + later.frames)
  }

  function Concat(chunks: seq<seq<byte>>): seq<byte> {
    if chunks == [] then [] else chunks[0] + Concat(chunks[1..])
  }

  function EncodeAll(frames: seq<Frame>): seq<byte> {
    if frames == [] then [] else EncodeFrame(frames[0]) + EncodeAll(frames[1..])
  }

  lemma DrainStep(src: seq<byte>, f: Frame, used: nat)
    requires DecodeFrame(src) == Complete(f, used)
    ensures var tail := Drain(src[used..]); Drain(src) == tail.(frames := [f] + tail.frames)
  {
  }

  /** Draining in two goes, the second behind what the first left over, is draining once. */
  lemma {:induction false} DrainSplit(a: seq<byte>, b: seq<byte>)
    ensures var first, whole := Drain(a), Drain(a + b);
      if first.error.Some?
      then whole.frames == first.frames && whole.error == first.error
      else var second := Drain(first.rest + b);
           whole == second.(frames := first.frames + second.frames)
    decreases |a|
  {
    hide DecodeFrame, Peek;
    match DecodeFrame(a)
    case NeedMore =>
      assert [] + Drain(a + b).frames == Drain(a + b).frames;
    case Malformed(e) =>
      DecodeStable(a, b);
    case Complete(f, used) =>
      DecodeStable(a, b);
      DrainSplit(a[used..], b);
      DrainStep(a, f, used);
      DrainStep(a + b, f, used);
      assert (a + b)[used..] == a[used..] + b;
      var tail := Drain(a[used..]);
      hide Drain;
      if tail.error.None? {
        var second := Drain(tail.rest + b);
        assert [f] + (tail.frames + second.frames) == ([f] + tail.frames) + second.frames;
      }
  }

  /** What is left of a buffer is its end, from the place on where the decoder stopped: there
      it asks for more, and gives nothing until bytes arrive, or fails with the error. */
  lemma {:induction false} DrainLeavesNothing(src: seq<byte>)
    ensures var d := Drain(src);
      && |d.rest| <= |src| && d.rest == src[|src| - |d.rest|..]
      && DecodeFrame(d.rest) == (if d.error.None? then NeedMore else Malformed(d.error.value))
    decreases |src|
  {
    hide DecodeFrame;
    match DecodeFrame(src)
    case NeedMore =>
    case Malformed(_) =>
    case Complete(_, used) => DrainLeavesNothing(src[used..]);
  }

  /** Chunking is invisible. For every byte stream whatever, well formed or not, and every
      way of cutting it into chunks, the reader delivers the same frames and the same error
      as one drain of the whole stream, and holds the same bytes if there was no error. */
  lemma {:induction false} ChunkingIsInvisible(buffer: seq<byte>, chunks: seq<seq<byte>>)
    requires DecodeFrame(buffer) == NeedMore
    ensures var cut, whole := DrainChunks(buffer, chunks), Drain(buffer + Concat(chunks));
      && cut.frames == whole.frames
      && cut.error == whole.error
      && (whole.error.None? ==> cut.rest == whole.rest)
    decreases |chunks|
  {
    hide DecodeFrame;
    if chunks == [] {
      assert buffer + [] == buffer;
    } else {
      var d := Drain(buffer + chunks[0]);
      DrainSplit(buffer + chunks[0], Concat(chunks[1..]));
      assert buffer + Concat(chunks) == buffer + chunks[0] + Concat(chunks[1..]);
      if d.error.None? {
        DrainLeavesNothing(buffer + chunks[0]);
        ChunkingIsInvisible(d.rest, chunks[1..]);
      }
    }
  }

  lemma {:induction false} DrainOfEncoded(frames: seq<Frame>)
    requires forall f :: f in frames ==> |f.payload| <= MAX_FRAME_PAYLOAD
    ensures Drain(EncodeAll(frames)) == Drained(frames, [], None)
  {
    if frames != [] {
      var f, rest := frames[0], EncodeAll(frames[1..]);
      FrameRoundTrip(f, rest);
      assert (EncodeFrame(f) + rest)[|EncodeFrame(f)|..] == rest;
      DrainOfEncoded(frames[1..]);
      assert [f] + frames[1..] == frames;
    }
  }

  /** Any list of frames that fit, sent as one stream and cut up anyhow, comes out as
      exactly those frames in order with nothing left over. */
  lemma StreamRoundTrip(frames: seq<Frame>, chunks: seq<seq<byte>>)
    requires forall f :: f in frames ==> |f.payload| <= MAX_FRAME_PAYLOAD
    requires Concat(chunks) == EncodeAll(frames)
    ensures DrainChunks([], chunks) == Drained(frames, [], None)
  {
    ChunkingIsInvisible([], chunks);
    assert [] + Concat(chunks) == EncodeAll(frames);
    DrainOfEncoded(frames);
  }

  // ---------------------------------------------------------------- the code

  /** The growing byte buffer that the encoder appends to and the decoder cuts from. */
  class Buffer {
    var bytes: seq<byte>

    constructor (initial: seq<byte>)
      ensures bytes == initial
    {
      bytes := initial;
    }

    method Put(b: byte)
      modifies this
      ensures bytes == old(bytes) + [b]
    {
      bytes := bytes + [b];
    }

    method PutSlice(s: seq<byte>)
      modifies this
      ensures bytes == old(bytes) + s
    {
      bytes := bytes + s;
    }

    method Advance(n: nat)
      requires n <= |bytes|
      modifies this
      ensures bytes == old(bytes)[n..]
    {
      bytes := bytes[n..];
    }
  }

  /** Adding the next group, its high bits shifted out, gives the value so far. */
  lemma NextGroup(src: seq<byte>, i: nat)
    requires i < |src| && i < MAX_VARINT_BYTES
    ensures Value(src[..i]) + (src[i] % 128) * Weight(i) % TWO_64 == Value(src[..i + 1]) % TWO_64
  {
    ValueSnoc(src[..i], src[i]);
    ValueBound(src[..i]);
    assert src[..i] + [src[i]] == src[..i + 1];
    TopGroupWraps(Value(src[..i]), src[i] % 128, i);
  }

  /** `peek_varint`: `shift` is seven times the number of groups read. */
  method PeekVarint(src: seq<byte>) returns (r: Option<(u64, nat)>)
    ensures r == Peek(src)
  {
    assert Value([]) == 0 && Weight(0) == 1;
    WeightOfTen();
    hide Value, Weight, Continuations, Peek;
    var result: nat, weight: nat := 0, 1;
    for i := 0 to |src|
      invariant i <= Continuations(src) && i < MAX_VARINT_BYTES
      invariant weight == Weight(i)
      invariant result == Value(src[..i])
    {
      if i >= MAX_VARINT_BYTES {
        return None;
      }
      var b := src[i];
      NextGroup(src, i);
      result := result + (b % 128) * weight % TWO_64;
      WeightNext(i);
      weight := weight * 128;
      if b < 128 {
        EndsHere(src, i);
        return Some((result, i + 1));
      }
      GoesOn(src, i);
      if 7 * (i + 1) >= 64 {
        return None;
      }
      ValueBound(src[..i + 1]);
      WeightMonotone(i + 1, 9);
    }
    NeverEnds(src);
    return None;
  }

  lemma EndsHere(src: seq<byte>, i: nat)
    requires i < |src| && i < MAX_VARINT_BYTES && i <= Continuations(src) && src[i] < 128
    ensures Peek(src) == Some((Value(src[..i + 1]) % TWO_64, i + 1))
  {
    ContinuationsUnique(src, i);
  }

  lemma GoesOn(src: seq<byte>, i: nat)
    requires i < |src| && i <= Continuations(src) && src[i] >= 128
    ensures i + 1 <= Continuations(src)
    ensures i + 1 >= MAX_VARINT_BYTES ==> Peek(src) == None
  {
  }

  lemma NeverEnds(src: seq<byte>)
    requires |src| <= Continuations(src)
    ensures Peek(src) == None
  {
  }

  lemma WeightNext(n: nat)
    ensures Weight(n + 1) == Weight(n) * 128
  {
  }

  lemma {:induction false} WeightMonotone(m: nat, n: nat)
    requires m <= n
    ensures Weight(m) <= Weight(n)
  {
    if m < n {
      WeightMonotone(m, n - 1);
    }
  }

  /** Only the tenth group can leave the word, and dropping its high bits is reduction
      of the whole value modulo the word size. */
  lemma TopGroupWraps(low: nat, group: nat, i: nat)
    requires i < MAX_VARINT_BYTES && group < 128 && low < Weight(i)
    ensures low + group * Weight(i) % TWO_64 == (low + group * Weight(i)) % TWO_64
  {
    if i < 9 {
      WeightOfTen();
      WeightMonotone(i + 1, 9);
      assert Weight(i + 1) == 128 * Weight(i);
      hide Weight;
      BelowWord(low, group, Weight(i));
    } else {
      WeightOfTen();
      hide Weight;
      TopBit(low, group);
    }
  }

  lemma TopBit(low: nat, group: nat)
    requires group < 128 && low < 0x8000_0000_0000_0000
    ensures low + group * 0x8000_0000_0000_0000 % TWO_64 == (low + group * 0x8000_0000_0000_0000) % TWO_64
  {
    var half := 0x8000_0000_0000_0000;
    var q, odd := group / 2, group % 2;
    assert group * half == q * TWO_64 + odd * half;
    Remainder(q, odd * half);
    Remainder(q, low + odd * half);
  }

  lemma Remainder(q: nat, r: nat)
    requires r < TWO_64
    ensures (q * TWO_64 + r) % TWO_64 == r
  {
  }

  lemma BelowWord(low: nat, group: nat, weight: nat)
    requires group < 128 && low < weight && 128 * weight < TWO_64
    ensures low + group * weight % TWO_64 == (low + group * weight) % TWO_64
  {
    Scales(group, 127, weight);
    var shifted := group * weight;
    Remainder(0, shifted);
    Remainder(0, low + shifted);
  }

  lemma Scales(a: nat, b: nat, c: nat)
    requires a <= b
    ensures a * c <= b * c
  {
  }

  method WriteVarint(value: u64, dst: Buffer)
    modifies dst
    ensures dst.bytes == old(dst.bytes) + EncodeVarint(value)
  {
    var v: u64 := value;
    while true
      invariant dst.bytes + EncodeVarint(v) == old(dst.bytes) + EncodeVarint(value)
      decreases v
    {
      var low: byte := v % 128;
      ghost var before, was := dst.bytes, v;
      v := v / 128;
      if v == 0 {
        dst.Put(low);
        break;
      }
      dst.Put(low + 128);
      assert before + EncodeVarint(was) == before + [low + 128] + EncodeVarint(v);
    }
  }

  method Encode(f: Frame, dst: Buffer)
    requires |f.payload| < TWO_64
    modifies dst
    ensures dst.bytes == old(dst.bytes) + EncodeFrame(f)
  {
    dst.Put(0);
    WriteVarint(|f.payload|, dst);
    WriteVarint(f.msgType, dst);
    dst.PutSlice(f.payload);
  }

  datatype DecodeResult = Err(error: WireError) | Ok(frame: Option<Frame>)

  /** `decode`: consumes a whole frame or nothing at all. */
  method Decode(src: Buffer) returns (r: DecodeResult)
    modifies src
    ensures match DecodeFrame(old(src.bytes))
      case NeedMore => r == Ok(None) && src.bytes == old(src.bytes)
      case Malformed(e) => r == Err(e) && src.bytes == old(src.bytes)
      case Complete(f, used) => r == Ok(Some(f)) && src.bytes == old(src.bytes)[used..]
  {
    hide Peek;
    if |src.bytes| == 0 {
      return Ok(None);
    }
    if src.bytes[0] != 0 {
      return Err(BadPreamble(src.bytes[0]));
    }
    if |src.bytes| < 2 {
      return Ok(None);
    }
    var lengthPart := PeekVarint(src.bytes[1..]);
    if lengthPart.None? {
      return Ok(None);
    }
    var (length, lengthBytes) := lengthPart.value;
    if length > MAX_FRAME_PAYLOAD {
      return Err(PayloadTooLarge(length));
    }
    var typeOffset := 1 + lengthBytes;
    if |src.bytes| <= typeOffset {
      return Ok(None);
    }
    var typePart := PeekVarint(src.bytes[typeOffset..]);
    if typePart.None? {
      return Ok(None);
    }
    var (msgType, typeBytes) := typePart.value;
    var header := 1 + lengthBytes + typeBytes;
    if |src.bytes| < header + length {
      return Ok(None);
    }
    ghost var whole := src.bytes;
    src.Advance(header);
    var payload := src.bytes[..length];
    assert payload == whole[header..header + length];
    src.Advance(length);
    assert src.bytes == whole[header + length..];
    return Ok(Some(Frame(msgType % TWO_32, payload)));
  }

  /** The reader task: appends each chunk to its buffer, forwards every frame the decoder
      yields and stops for good at the first malformed one. */
  class FrameReader {
    const buffer: Buffer
    var forwarded: seq<Frame>
    var failure: Option<WireError>

    constructor ()
      ensures fresh(this) && fresh(buffer)
      ensures buffer.bytes == [] && forwarded == [] && failure == None
    {
      buffer := new Buffer([]);
      forwarded, failure := [], None;
    }

    method Receive(chunk: seq<byte>)
      requires failure.None?
      modifies this, buffer
      ensures var d := Drain(old(buffer.bytes) + chunk);
        && forwarded == old(forwarded) + d.frames
        && buffer.bytes == d.rest
        && failure == d.error
    {
      hide DecodeFrame;
      buffer.PutSlice(chunk);
      ghost var goal := Drain(buffer.bytes);
      while true
        invariant failure.None?
        invariant var d := Drain(buffer.bytes);
          && forwarded + d.frames == old(forwarded) + goal.frames
          && d.rest == goal.rest && d.error == goal.error
        decreases |buffer.bytes|
      {
        ghost var before, sofar := buffer.bytes, forwarded;
        var r := Decode(buffer);
        match r
        case Err(e) =>
          failure := Some(e);
          break;
        case Ok(None) =>
          break;
        case Ok(Some(f)) =>
          forwarded := forwarded + [f];
          assert sofar + Drain(before).frames == forwarded + Drain(buffer.bytes).frames;
      }
    }
  }
}
