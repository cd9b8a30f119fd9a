/** WebSocket framing (internal/voice/wsclient.go), RFC 6455 sections 5.2 and 5.3. */
module WebSocket {
  import opened Wrappers
  import opened Sequences

  // Masks are arbitrary, each frame write is taken to be atomic, and reads of the
  // connection either fill their buffer or fail.

  /** A byte is a number; its bit operations are written out arithmetically. */
  type Byte = b: nat | b < 256
  type Bytes = seq<Byte>

  const OP_CONTINUATION: Byte := 0x0
  const OP_TEXT: Byte := 0x1
  const OP_BINARY: Byte := 0x2
  const OP_CLOSE: Byte := 0x8
  const OP_PING: Byte := 0x9
  const OP_PONG: Byte := 0xA

  const MAX_LENGTH := 0x7FFF_FFFF_FFFF_FFFF // of a Go slice

  datatype Frame = Frame(fin: bool, op: Byte, payload: Bytes)

  /** What a writer of frames can be asked for. */
  predicate IsFrame(f: Frame) { f.op < 16 && |f.payload| <= MAX_LENGTH }

  // --------------------------------------------------------------- masking

  function Pow2(k: nat): nat { if k == 0 then 1 else 2 * Pow2(k - 1) }

  /** Exclusive or of the lowest k bits. */
  function XorBits(a: nat, b: nat, k: nat): (x: nat)
    ensures x < Pow2(k)
  {
    if k == 0 then 0 else 2 * XorBits(a / 2, b / 2, k - 1) + if a % 2 == b % 2 then 0 else 1
  }

  /** The i-th lowest bit. */
  function Bit(a: nat, i: nat): nat { if i == 0 then a % 2 else Bit(a / 2, i - 1) }

  lemma {:induction false} BitOfXorBits(a: nat, b: nat, k: nat, i: nat)
    requires i < k
    ensures Bit(XorBits(a, b, k), i) == if Bit(a, i) == Bit(b, i) then 0 else 1
  {
    var x := XorBits(a, b, k);
    assert x / 2 == XorBits(a / 2, b / 2, k - 1) && x % 2 == if a % 2 == b % 2 then 0 else 1;
    if i > 0 {
      BitOfXorBits(a / 2, b / 2, k - 1, i - 1);
    }
  }

  function Xor(a: Byte, b: Byte): Byte
  {
    assert Pow2(4) == 16 && Pow2(8) == 256;
    XorBits(a, b, 8)
  }

  function Masked(payload: Bytes, mask: Bytes): Bytes
    requires |mask| == 4
  {
    seq(|payload|, i requires 0 <= i < |payload| => Xor(payload[i], mask[i % 4]))
  }

  lemma {:induction false} XorBitsTwice(a: nat, m: nat, k: nat)
    requires a < Pow2(k)
    ensures XorBits(XorBits(a, m, k), m, k) == a
  {
    if k > 0 {
      var x := XorBits(a, m, k);
      assert x / 2 == XorBits(a / 2, m / 2, k - 1) && x % 2 == if a % 2 == m % 2 then 0 else 1;
      XorBitsTwice(a / 2, m / 2, k - 1);
    }
  }

  lemma XorTwice(a: Byte, m: Byte)
    ensures Xor(Xor(a, m), m) == a
  {
    assert Pow2(4) == 16 && Pow2(8) == 256;
    XorBitsTwice(a, m, 8);
  }

  lemma MaskedTwice(payload: Bytes, mask: Bytes)
    requires |mask| == 4
    ensures Masked(Masked(payload, mask), mask) == payload
  {
    forall i | 0 <= i < |payload| ensures Masked(Masked(payload, mask), mask)[i] == payload[i] {
      XorTwice(payload[i], mask[i % 4]);
    }
  }

  // --------------------------------------------------------------- lengths

  function Pow256(k: nat): nat { if k == 0 then 1 else 256 * Pow256(k - 1) }

  /** The k-byte big-endian form of n. */
  function BigEndian(n: nat, k: nat): (b: Bytes)
    ensures |b| == k
  {
    if k == 0 then [] else BigEndian(n / 256, k - 1) + [n % 256]
  }

  function FromBigEndian(b: Bytes): nat
  {
    if |b| == 0 then 0 else 256 * FromBigEndian(b[..|b| - 1]) + b[|b| - 1]
  }

  lemma {:induction false} BigEndianRoundTrip(n: nat, k: nat)
    requires n < Pow256(k)
    ensures FromBigEndian(BigEndian(n, k)) == n
  {
    if k > 0 {
      BigEndianRoundTrip(n / 256, k - 1);
      assert BigEndian(n, k)[..k - 1] == BigEndian(n / 256, k - 1);
    }
  }

  /** The 0x80 bit of a header byte, which its other bits are added to. */
  function TopBit(on: bool): Byte { if on then 0x80 else 0 }

  /** The second header byte and the extended length. */
  function LengthBytes(n: nat, masked: bool): Bytes
  {
    if n <= 125 then [TopBit(masked) + n]
    else if n <= 0xFFFF then [TopBit(masked) + 126] + BigEndian(n, 2)
    else [TopBit(masked) + 127] + BigEndian(n, 8)
  }

  /** A frame as it goes over the wire. */
  function Wire(f: Frame, mask: Option<Bytes>): Bytes
    requires f.op < 16 && (mask.Some? ==> |mask.value| == 4)
  {
    [TopBit(f.fin) + f.op] + LengthBytes(|f.payload|, mask.Some?) +
    if mask.Some? then mask.value + Masked(f.payload, mask.value) else f.payload
  }

  /** The j-th lowest byte of a number. */
  function Digit(n: nat, j: nat): Byte { if j == 0 then n % 256 else Digit(n / 256, j - 1) }

  lemma {:induction false} BigEndianDigit(n: nat, k: nat, i: nat)
    requires i < k
    ensures BigEndian(n, k)[i] == Digit(n, k - 1 - i)
  {
    if i < k - 1 {
      BigEndianDigit(n / 256, k - 1, i);
    }
  }

  lemma TwoBytes(n: nat)
    requires n <= 0xFFFF
    ensures var hi: nat, lo: nat := BigEndian(n, 2)[0], BigEndian(n, 2)[1]; hi * 256 + lo == n
  {
    BigEndianDigit(n, 2, 0);
    BigEndianDigit(n, 2, 1);
    assert Digit(n, 1) == Digit(n / 256, 0);
  }

  /** How many header bytes come before the mask. */
  function HeaderLength(n: nat): nat { if n <= 125 then 2 else if n <= 0xFFFF then 4 else 10 }

  lemma LengthByBytes(n: nat, masked: bool)
    ensures var b, m: nat := LengthBytes(n, masked), if masked then 0x80 else 0;
            && |b| == HeaderLength(n) - 1
            && (n <= 125 ==> b[0] == m + n)
            && (125 < n <= 0xFFFF ==> b[0] == m + 126 && var hi: nat, lo: nat := b[1], b[2]; hi * 256 + lo == n)
            && (n > 0xFFFF ==> b[0] == m + 127 && forall i :: 1 <= i < 9 ==> b[i] == Digit(n, 8 - i))
  {
    if 125 < n <= 0xFFFF {
      TwoBytes(n);
      assert LengthBytes(n, masked)[1..] == BigEndian(n, 2);
    } else if n > 0xFFFF {
      forall i | 1 <= i < 9 ensures LengthBytes(n, masked)[i] == Digit(n, 8 - i) {
        BigEndianDigit(n, 8, i - 1);
      }
    }
  }

  lemma Slices<T>(x: T, a: seq<T>, m: seq<T>, d: seq<T>)
    ensures var b, h := [x] + a + (m + d), 1 + |a|;
            |b| == h + |m| + |d| && b[0] == x && b[1..h] == a && b[h..h + |m|] == m && b[h + |m|..] == d
  {
  }

  lemma WireParts(f: Frame, mask: Bytes)
    requires f.op < 16 && |mask| == 4
    ensures var b, n, h := Wire(f, Some(mask)), |f.payload|, 1 + |LengthBytes(|f.payload|, true)|;
            && |b| == h + 4 + n && b[0] == TopBit(f.fin) + f.op && b[1..h] == LengthBytes(n, true)
            && b[h..h + 4] == mask && b[h + 4..] == Masked(f.payload, mask)
  {
    Slices(TopBit(f.fin) + f.op, LengthBytes(|f.payload|, true), mask, Masked(f.payload, mask));
  }

  /** A masked frame byte by byte: final bit and opcode; the mask bit with the length,
      or with 126 or 127 and the length in two or eight bytes, highest first; the
      mask; */
  lemma HeaderByBytes(f: Frame, mask: Bytes)
    requires f.op < 16 && |mask| == 4
    ensures var b, n, h := Wire(f, Some(mask)), |f.payload|, HeaderLength(|f.payload|);
            && |b| == h + 4 + n && b[0] == (if f.fin then 0x80 else 0) + f.op
            && (n <= 125 ==> b[1] == 0x80 + n)
            && (125 < n <= 0xFFFF ==> b[1] == 0x80 + 126 && var hi: nat, lo: nat := b[2], b[3]; hi * 256 + lo == n)
            && (n > 0xFFFF ==> b[1] == 0x80 + 127 && forall i :: 2 <= i < 10 ==> b[i] == Digit(n, 9 - i))
            && b[h..h + 4] == mask
  {
    var b, n, h := Wire(f, Some(mask)), |f.payload|, HeaderLength(|f.payload|);
    LengthByBytes(n, true);
    WireParts(f, mask);
    forall i | 1 <= i < h ensures b[i] == LengthBytes(n, true)[i - 1] {
      assert b[i] == b[1..h][i - 1];
    }
  }

  lemma MaskedBit(payload: Bytes, mask: Bytes, i: nat, k: nat)
    requires |mask| == 4 && i < |payload| && k < 8
    ensures Bit(Masked(payload, mask)[i], k) == if Bit(payload[i], k) == Bit(mask[i % 4], k) then 0 else 1
  {
    BitOfXorBits(payload[i], mask[i % 4], 8, k);
  }

  /** and the payload, each bit turned over by that of the mask in turn. */
  lemma PayloadByBits(f: Frame, mask: Bytes, i: nat, k: nat)
    requires f.op < 16 && |mask| == 4 && i < |f.payload| && k < 8
    ensures var b, h := Wire(f, Some(mask)), HeaderLength(|f.payload|);
            && |b| == h + 4 + |f.payload|
            && Bit(b[h + 4 + i], k) == if Bit(f.payload[i], k) == Bit(mask[i % 4], k) then 0 else 1
  {
    var b, h := Wire(f, Some(mask)), HeaderLength(|f.payload|);
    LengthByBytes(|f.payload|, true);
    WireParts(f, mask);
    assert b[h + 4 + i] == b[h + 4..][i];
    MaskedBit(f.payload, mask, i, k);
  }

  // --------------------------------------------------------------- reading

  /** A frame and what is left; a read cut short; or the panic of allocating a
      buffer of negative length. */
  datatype ReadResult = Got(frame: Frame, rest: Bytes) | Short | Panic

  /** The payload length, and the header bytes it takes after the first two. */
  function ParseLength(input: Bytes): Option<(nat, nat)>
    requires |input| >= 2
  {
    var n := input[1] % 0x80;
    if n == 126 then (if |input| < 4 then None else Some((FromBigEndian(input[2..4]), 2)))
    else if n == 127 then (if |input| < 10 then None else Some((FromBigEndian(input[2..10]), 8)))
    else Some((n, 0))
  }

  function ParseBody(fin: bool, op: Byte, masked: bool, n: nat, input: Bytes): ReadResult
  {
    if masked && |input| < 4 then Short
    else
      var body := if masked then input[4..] else input;
      if n > MAX_LENGTH then Panic
      else if |body| < n then Short
      else Got(Frame(fin, op, if masked then Masked(body[..n], input[..4]) else body[..n]), body[n..])
  }

  function ParseFrame(input: Bytes): ReadResult
  {
    if |input| < 2 then Short
    else
      var length := ParseLength(input);
      if length.None? then Short
      else ParseBody(input[0] >= 0x80, input[0] % 0x10, input[1] >= 0x80,
                     length.value.0, input[2 + length.value.1..])
  }

  lemma ParseConsumes(input: Bytes)
    requires ParseFrame(input).Got?
    ensures |ParseFrame(input).rest| + 2 <= |input| && IsFrame(ParseFrame(input).frame)
  {
  }

  // ------------------------------------------------------------ round trip

  lemma PowersOf256()
    ensures Pow256(2) == 0x1_0000 && Pow256(8) == 0x1_0000_0000_0000_0000
  {
    assert Pow256(4) == 0x1_0000_0000;
  }

  lemma LengthRoundTrip(b0: Byte, n: nat, masked: bool, tail: Bytes)
    requires n <= MAX_LENGTH
    ensures var input := [b0] + LengthBytes(n, masked) + tail;
            && |input| >= 2 && (input[1] >= 0x80 <==> masked)
            && ParseLength(input) == Some((n, |LengthBytes(n, masked)| - 1))
            && input[1 + |LengthBytes(n, masked)|..] == tail
  {
    PowersOf256();
    var input := [b0] + LengthBytes(n, masked) + tail;
    if 125 < n <= 0xFFFF {
      BigEndianRoundTrip(n, 2);
      assert input[2..4] == BigEndian(n, 2);
    } else if n > 0xFFFF {
      BigEndianRoundTrip(n, 8);
      assert input[2..10] == BigEndian(n, 8);
    }
  }

  /** Reading what was written, whatever the mask and across all length forms,
      gives the frame back and leaves exactly what follows it. */
  lemma FrameRoundTrip(f: Frame, mask: Option<Bytes>, rest: Bytes)
    requires IsFrame(f) && (mask.Some? ==> |mask.value| == 4)
    ensures ParseFrame(Wire(f, mask) + rest) == Got(f, rest)
  {
    var b0 := TopBit(f.fin) + f.op;
    var n := |f.payload|;
    var body := if mask.Some? then mask.value + Masked(f.payload, mask.value) else f.payload;
    var tail := body + rest;
    var input := [b0] + LengthBytes(n, mask.Some?) + tail;
    assert Wire(f, mask) + rest == input;
    LengthRoundTrip(b0, n, mask.Some?, tail);
    BodyRoundTrip(f, mask, rest);
  }

  lemma BodyRoundTrip(f: Frame, mask: Option<Bytes>, rest: Bytes)
    requires IsFrame(f) && (mask.Some? ==> |mask.value| == 4)
    ensures var body := if mask.Some? then mask.value + Masked(f.payload, mask.value) else f.payload;
            ParseBody(f.fin, f.op, mask.Some?, |f.payload|, body + rest) == Got(f, rest)
  {
    var n := |f.payload|;
    if mask.Some? {
      var input := mask.value + Masked(f.payload, mask.value) + rest;
      assert input[..4] == mask.value && input[4..] == Masked(f.payload, mask.value) + rest;
      MaskedTwice(f.payload, mask.value);
      assert input[4..][..n] == Masked(f.payload, mask.value) && input[4..][n..] == rest;
    } else {
      assert (f.payload + rest)[..n] == f.payload && (f.payload + rest)[n..] == rest;
    }
  }

  // -------------------------------------------------------- any frame's bytes

  /** The length a header announces by its 7-bit code and what follows it; the longer
      forms need not be the shortest that would do. */
  ghost predicate Announces(code: nat, ext: Bytes, n: nat)
  {
    if code == 126 then |ext| == 2 && var hi: nat, lo: nat := ext[0], ext[1]; n == hi * 256 + lo
    else if code == 127 then |ext| == 8 && n < 0x1_0000_0000_0000_0000 && forall i :: 0 <= i < 8 ==> ext[i] == Digit(n, 7 - i)
    else ext == [] && n == code
  }

  lemma AnnouncedLength(code: nat, ext: Bytes, n: nat)
    requires Announces(code, ext, n)
    ensures (code == 126 || code == 127) ==> FromBigEndian(ext) == n
  {
    if code == 126 {
      assert ext[..1][..0] == [] && FromBigEndian(ext[..0]) == 0;
    } else if code == 127 {
      PowersOf256();
      forall i | 0 <= i < 8 ensures ext[i] == BigEndian(n, 8)[i] {
        BigEndianDigit(n, 8, i);
      }
      assert ext == BigEndian(n, 8);
      BigEndianRoundTrip(n, 8);
    }
  }

  lemma ReadsLength(b0: Byte, b1: Byte, ext: Bytes, n: nat, tail: Bytes)
    requires Announces(b1 % 0x80, ext, n)
    ensures var input := [b0, b1] + ext + tail;
            && |input| >= 2 && input[0] == b0 && input[1] == b1
            && ParseLength(input) == Some((n, |ext|)) && input[2 + |ext|..] == tail
  {
    AnnouncedLength(b1 % 0x80, ext, n);
    var input := [b0, b1] + ext + tail;
    assert input[2..2 + |ext|] == ext;
  }

  lemma ReadsBody(fin: bool, op: Byte, key: Bytes, body: Bytes, rest: Bytes)
    requires (|key| == 0 || |key| == 4) && |body| <= MAX_LENGTH
    ensures ParseBody(fin, op, |key| == 4, |body|, key + (body + rest)) ==
            Got(Frame(fin, op, if |key| == 4 then Masked(body, key) else body), rest)
  {
    var input := key + (body + rest);
    assert input[..|key|] == key && input[|key|..] == body + rest;
    assert |key| == 0 ==> input == body + rest;
    assert (body + rest)[..|body|] == body && (body + rest)[|body|..] == rest;
  }

  /** Whatever the two header bytes are, a frame is read as its bytes say: final bit,
      opcode, mask bit and length, then the mask if there is one, then the payload. */
  lemma ReadsAnyFrame(b0: Byte, b1: Byte, ext: Bytes, key: Bytes, body: Bytes, rest: Bytes)
    requires Announces(b1 % 0x80, ext, |body|) && |body| <= MAX_LENGTH
    requires |key| == if b1 >= 0x80 then 4 else 0
    ensures ParseFrame([b0, b1] + ext + (key + (body + rest))) ==
            Got(Frame(b0 >= 0x80, b0 % 0x10, if b1 >= 0x80 then Masked(body, key) else body), rest)
  {
    ReadsLength(b0, b1, ext, |body|, key + (body + rest));
    ReadsBody(b0 >= 0x80, b0 % 0x10, key, body, rest);
  }

  lemma ShortHeader(b0: Byte, b1: Byte, ext: Bytes, n: nat, k: nat)
    requires Announces(b1 % 0x80, ext, n) && k < 2 + |ext|
    ensures ParseFrame(([b0, b1] + ext)[..k]) == Short
  {
  }

  lemma ShortBody(fin: bool, op: Byte, masked: bool, n: nat, part: Bytes)
    requires |part| < (if masked then 4 else 0) + n && n <= MAX_LENGTH
    ensures ParseBody(fin, op, masked, n, part) == Short
  {
  }

  /** A frame that is cut off anywhere is a short read. */
  lemma CutOffIsShort(b0: Byte, b1: Byte, ext: Bytes, n: nat, part: Bytes, k: nat)
    requires Announces(b1 % 0x80, ext, n) && n <= MAX_LENGTH
    requires |part| < (if b1 >= 0x80 then 4 else 0) + n
    ensures ParseFrame([b0, b1] + ext + part) == Short
    ensures k < 2 + |ext| ==> ParseFrame(([b0, b1] + ext)[..k]) == Short
  {
    ReadsLength(b0, b1, ext, n, part);
    ShortBody(b0 >= 0x80, b0 % 0x10, b1 >= 0x80, n, part);
    if k < 2 + |ext| {
      ShortHeader(b0, b1, ext, n, k);
    }
  }

  // ------------------------------------------------------ frame sequences

  /** Reading frame after frame gives `frames` and leaves `rest`. */
  ghost predicate Decodes(bytes: Bytes, frames: seq<Frame>, rest: Bytes)
    decreases |frames|
  {
    if |frames| == 0 then bytes == rest
    else ParseFrame(bytes).Got? && ParseFrame(bytes).frame == frames[0]
         && Decodes(ParseFrame(bytes).rest, frames[1..], rest)
  }

  ghost predicate Masks(masks: seq<Option<Bytes>>)
  {
    forall i :: 0 <= i < |masks| && masks[i].Some? ==> |masks[i].value| == 4
  }

  ghost predicate AllFrames(frames: seq<Frame>)
  {
    forall i :: 0 <= i < |frames| ==> IsFrame(frames[i])
  }

  /** Frames written one after the other, each under its own mask or none. */
  ghost function WireAll(frames: seq<Frame>, masks: seq<Option<Bytes>>): Bytes
    requires |masks| == |frames| && Masks(masks) && AllFrames(frames)
  {
    if |frames| == 0 then [] else Wire(frames[0], masks[0]) + WireAll(frames[1..], masks[1..])
  }

  lemma DecodesCons(bytes: Bytes, f: Frame, mid: Bytes, frames: seq<Frame>, rest: Bytes)
    requires ParseFrame(bytes) == Got(f, mid) && Decodes(mid, frames, rest)
    ensures Decodes(bytes, [f] + frames, rest)
  {
    assert ([f] + frames)[1..] == frames;
  }

  lemma DecodesSplit(bytes: Bytes, frames: seq<Frame>, rest: Bytes) returns (mid: Bytes)
    requires Decodes(bytes, frames, rest) && |frames| > 0
    ensures ParseFrame(bytes) == Got(frames[0], mid) && Decodes(mid, frames[1..], rest)
  {
    mid := ParseFrame(bytes).rest;
  }

  /** The first of the frames written is the first one read. */
  lemma FirstFrame(frames: seq<Frame>, masks: seq<Option<Bytes>>, rest: Bytes)
    requires |masks| == |frames| > 0 && Masks(masks) && AllFrames(frames)
    ensures ParseFrame(WireAll(frames, masks) + rest) == Got(frames[0], WireAll(frames[1..], masks[1..]) + rest)
  {
    var wire, later := Wire(frames[0], masks[0]), WireAll(frames[1..], masks[1..]);
    Reassociate(wire, later, rest);
    FrameRoundTrip(frames[0], masks[0], later + rest);
  }

  /** Any sequence of frames is read back as itself, and what follows is left. */
  lemma {:induction false} SequenceRoundTrip(frames: seq<Frame>, masks: seq<Option<Bytes>>, rest: Bytes)
    requires |masks| == |frames| && Masks(masks) && AllFrames(frames)
    ensures Decodes(WireAll(frames, masks) + rest, frames, rest)
    decreases |frames|
  {
    if |frames| == 0 {
      assert WireAll(frames, masks) + rest == rest;
    } else {
      FirstFrame(frames, masks, rest);
      SequenceRoundTrip(frames[1..], masks[1..], rest);
    }
  }

  lemma DropMore<T>(s: seq<T>, k: nat)
    requires 0 < k <= |s|
    ensures s[1..][k - 1..] == s[k..] && s[..k] == [s[0]] + s[1..][..k - 1]
  {
  }

  /** And as nothing else: any frames read off it are the first ones written. */
  lemma {:induction false} DecodesOnlyThose(frames: seq<Frame>, masks: seq<Option<Bytes>>, rest: Bytes,
                                            read: seq<Frame>, left: Bytes)
    requires |masks| == |frames| && Masks(masks) && AllFrames(frames) && |read| <= |frames|
    requires Decodes(WireAll(frames, masks) + rest, read, left)
    ensures read == frames[..|read|] && left == WireAll(frames[|read|..], masks[|read|..]) + rest
    decreases |read|
  {
    if |read| == 0 {
      assert frames[0..] == frames && masks[0..] == masks;
    } else {
      FirstFrame(frames, masks, rest);
      var mid := DecodesSplit(WireAll(frames, masks) + rest, read, left);
      DecodesOnlyThose(frames[1..], masks[1..], rest, read[1..], left);
      DropMore(frames, |read|);
      DropMore(masks, |read|);
      DropMore(read, |read|);
    }
  }

  /** One more frame at the end. */
  lemma {:induction false} DecodesOneMore(bytes: Bytes, frames: seq<Frame>, mid: Bytes, f: Frame, rest: Bytes)
    requires Decodes(bytes, frames, mid) && ParseFrame(mid) == Got(f, rest)
    ensures Decodes(bytes, frames + [f], rest)
    decreases |frames|
  {
    if |frames| == 0 {
      DecodesCons(mid, f, rest, [], rest);
      assert frames + [f] == [f] + frames;
    } else {
      var next := DecodesSplit(bytes, frames, mid);
      DecodesOneMore(next, frames[1..], mid, f, rest);
      DecodesCons(bytes, frames[0], next, frames[1..] + [f], rest);
      DropMore(frames, 1);
      Reassociate([frames[0]], frames[1..], [f]);
      assert frames == [frames[0]] + frames[1..];
    }
  }

  /** Bytes appended to what has been read are what is left. */
  lemma {:induction false} DecodesLonger(bytes: Bytes, frames: seq<Frame>, rest: Bytes, more: Bytes)
    requires Decodes(bytes, frames, rest)
    ensures Decodes(bytes + more, frames, rest + more)
    decreases |frames|
  {
    if |frames| > 0 {
      var mid := DecodesSplit(bytes, frames, rest);
      ParseFrameLonger(bytes, more);
      DecodesLonger(mid, frames[1..], rest, more);
      DecodesCons(bytes + more, frames[0], mid + more, frames[1..], rest + more);
      assert frames == [frames[0]] + frames[1..];
    }
  }

  lemma ParseLengthLonger(input: Bytes, more: Bytes)
    requires |input| >= 2 && ParseLength(input).Some?
    ensures ParseLength(input + more) == ParseLength(input)
    ensures 2 + ParseLength(input).value.1 <= |input|
  {
    var longer := input + more;
    assert |input| >= 4 ==> longer[2..4] == input[2..4];
    assert |input| >= 10 ==> longer[2..10] == input[2..10];
  }

  /** Bytes that already decode may be followed by more without changing. */
  lemma ParseFrameLonger(input: Bytes, more: Bytes)
    requires ParseFrame(input).Got?
    ensures ParseFrame(input + more) == Got(ParseFrame(input).frame, ParseFrame(input).rest + more)
  {
    ParseLengthLonger(input, more);
    var n, at, longer := ParseLength(input).value.0, 2 + ParseLength(input).value.1, input + more;
    var fin, op, masked := input[0] >= 0x80, input[0] % 0x10, input[1] >= 0x80;
    assert longer[at..] == input[at..] + more;
    assert ParseFrame(input) == ParseBody(fin, op, masked, n, input[at..]);
    assert ParseFrame(longer) == ParseBody(fin, op, masked, n, longer[at..]);
    ParseBodyLonger(fin, op, masked, n, input[at..], more);
  }

  lemma ParseBodyLonger(fin: bool, op: Byte, masked: bool, n: nat, input: Bytes, more: Bytes)
    requires ParseBody(fin, op, masked, n, input).Got?
    ensures var r := ParseBody(fin, op, masked, n, input);
            ParseBody(fin, op, masked, n, input + more) == Got(r.frame, r.rest + more)
  {
    var body := if masked then input[4..] else input;
    if masked {
      assert (input + more)[..4] == input[..4] && (input + more)[4..] == body + more;
    }
    assert (body + more)[..n] == body[..n] && (body + more)[n..] == body[n..] + more;
  }

  lemma ParseIsFrame(input: Bytes)
    ensures ParseFrame(input).Got? ==> |ParseFrame(input).rest| < |input| && IsFrame(ParseFrame(input).frame)
  {
    if ParseFrame(input).Got? {
      ParseConsumes(input);
    }
  }

  // ------------------------------------------------------------- messages

  /** A message, the end of the stream on a close frame, or a failed read. */
  datatype MessageResult = Message(op: Byte, data: Bytes) | Closed | Failed

  /** ReadMessage after some frames: the opcode and the data so far, the pings it
      has answered, and its result once there is one. */
  datatype Reading = Reading(op: Byte, buf: Bytes, pings: seq<Bytes>, done: Option<MessageResult>)

  function Absorb(s: Reading, f: Frame): Reading
  {
    if f.op == OP_PING then s.(pings := s.pings + [f.payload])
    else if f.op == OP_PONG then s
    else if f.op == OP_CLOSE then s.(done := Some(Closed))
    else
      var op, buf := if f.op == OP_CONTINUATION then s.op else f.op, s.buf + f.payload;
      Reading(op, buf, s.pings, if f.fin then Some(Message(op, buf)) else None)
  }

  function AfterFrames(frames: seq<Frame>): Reading
  {
    if |frames| == 0 then Reading(0, [], [], None)
    else Absorb(AfterFrames(frames[..|frames| - 1]), frames[|frames| - 1])
  }

  /** One ReadMessage: it reads `frames`, up to the first that completes a result,
      and leaves `rest`; it fails where no further frame can be read. */
  ghost predicate ReadsMessage(input: Bytes, frames: seq<Frame>, rest: Bytes, result: MessageResult, pings: seq<Bytes>)
  {
    && Decodes(input, frames, rest)
    && (forall k :: 0 <= k < |frames| ==> AfterFrames(frames[..k]).done.None?)
    && pings == AfterFrames(frames).pings
    && match AfterFrames(frames).done
       case Some(r) => result == r
       case None => result == Failed && !ParseFrame(rest).Got?
  }

  function PongFrames(pings: seq<Bytes>): seq<Frame>
  {
    seq(|pings|, i requires 0 <= i < |pings| => Frame(true, OP_PONG, pings[i]))
  }

  lemma OneFrameMore(written: Bytes, frames: seq<Frame>, f: Frame, mask: Bytes)
    requires |mask| == 4 && IsFrame(f) && Decodes(written, frames, [])
    ensures Decodes(written + Wire(f, Some(mask)), frames + [f], [])
  {
    var wire := Wire(f, Some(mask));
    FrameRoundTrip(f, Some(mask), []);
    NothingAdded(wire);
    DecodesLonger(written, frames, [], wire);
    DecodesOneMore(written + wire, frames, wire, f, []);
  }

  lemma OnePongMore(written: Bytes, pings: seq<Bytes>, payload: Bytes, mask: Bytes)
    requires |mask| == 4 && |payload| <= MAX_LENGTH && Decodes(written, PongFrames(pings), [])
    ensures Decodes(written + Wire(Frame(true, OP_PONG, payload), Some(mask)), PongFrames(pings + [payload]), [])
  {
    OneFrameMore(written, PongFrames(pings), Frame(true, OP_PONG, payload), mask);
    assert PongFrames(pings + [payload]) == PongFrames(pings) + [Frame(true, OP_PONG, payload)];
  }

  lemma AppendedLater(before: Bytes, output: Bytes, wire: Bytes)
    requires before <= output
    ensures before <= output + wire && (output + wire)[|before|..] == output[|before|..] + wire
  {
  }

  // ------------------------------------------------------------ connection

  class WsConn {
    var input: Bytes // yet to be read
    var output: Bytes // written so far

    constructor (input: Bytes)
      ensures this.input == input && output == []
    {
      this.input, output := input, [];
    }

    /** writeFrame, with the mask it draws. */
    method WriteFrame(op: Byte, payload: Bytes, mask: Bytes)
      requires op < 16 && |payload| <= MAX_LENGTH && |mask| == 4
      modifies this`output
      ensures output == old(output) + Wire(Frame(true, op, payload), Some(mask))
    {
      var header: Bytes := [0x80 + op];
      var n := |payload|;
      if n <= 125 {
        header := header + [0x80 + n];
      } else if n <= 0xFFFF {
        header := header + [0x80 + 126] + BigEndian(n, 2);
      } else {
        header := header + [0x80 + 127] + BigEndian(n, 8);
      }
      header := header + mask;
      var masked := MaskPayload(payload, mask);
      ghost var wire := Wire(Frame(true, op, payload), Some(mask));
      assert header == [0x80 + op] + LengthBytes(n, true) + mask;
      assert wire == header + masked;
      output := output + header;
      if n > 0 {
        output := output + masked;
      } else {
        assert wire == header;
      }
    }

    /** The masking loop of writeFrame, into a buffer of its own. */
    static method MaskPayload(payload: Bytes, mask: Bytes) returns (data: Bytes)
      requires |mask| == 4
      ensures data == Masked(payload, mask)
    {
      var n := |payload|;
      var masked := new Byte[n](i => 0);
      for i := 0 to n
        modifies masked
        invariant forall k :: 0 <= k < i ==> masked[k] == Xor(payload[k], mask[k % 4])
      {
        masked[i] := Xor(payload[i], mask[i % 4]);
      }
      data := masked[..];
      assert data == Masked(payload, mask);
    }

    /** io.ReadFull */
    method ReadFull(n: nat) returns (ok: bool, bytes: Bytes)
      modifies this`input
      ensures ok == (n <= |old(input)|)
      ensures ok ==> bytes == old(input)[..n] && input == old(input)[n..]
    {
      if |input| < n {
        return false, [];
      }
      ok, bytes := true, input[..n];
      input := input[n..];
    }

    /** The extended length of readFrame, after header byte `h1`. */
    method ReadLength(h0: Byte, h1: Byte) returns (ok: bool, n: nat)
      modifies this`input
      ensures var length := ParseLength([h0, h1] + old(input));
              && ok == length.Some?
              && (ok ==> n == length.value.0 && length.value.1 <= |old(input)| && input == old(input)[length.value.1..])
    {
      ok, n := true, h1 % 0x80;
      assert |input| >= 2 ==> ([h0, h1] + input)[2..4] == input[..2];
      assert |input| >= 8 ==> ([h0, h1] + input)[2..10] == input[..8];
      if n == 126 {
        var ext;
        ok, ext := ReadFull(2);
        if ok {
          n := FromBigEndian(ext);
        }
      } else if n == 127 {
        var ext;
        ok, ext := ReadFull(8);
        if ok {
          n := FromBigEndian(ext);
        }
      }
    }

    /** The payload, unmasked in place. */
    method ReadPayload(masked: bool, mask: Bytes, n: nat) returns (ok: bool, data: Bytes)
      requires |mask| == 4
      modifies this`input
      ensures ok == (n <= |old(input)|)
      ensures ok ==> input == old(input)[n..]
      ensures ok ==> data == if masked then Masked(old(input)[..n], mask) else old(input)[..n]
    {
      var bytes;
      ok, bytes := ReadFull(n);
      if !ok {
        return false, [];
      }
      var payload := new Byte[n](i requires 0 <= i < |bytes| => bytes[i]);
      assert payload[..] == bytes;
      if masked {
        for i := 0 to n
          modifies payload
          invariant forall k :: 0 <= k < i ==> payload[k] == Xor(bytes[k], mask[k % 4])
          invariant forall k :: i <= k < n ==> payload[k] == bytes[k]
        {
          payload[i] := Xor(payload[i], mask[i % 4]);
        }
        assert payload[..] == Masked(bytes, mask);
      }
      data := payload[..];
    }

    /** The mask, if there is one, and the payload. */
    method ReadBody(fin: bool, op: Byte, masked: bool, n: nat) returns (r: ReadResult)
      modifies this`input
      ensures r == ParseBody(fin, op, masked, n, old(input))
      ensures r.Got? ==> input == r.rest
    {
      var mask: Bytes := [0, 0, 0, 0];
      var ok := true;
      if masked {
        ok, mask := ReadFull(4);
        if !ok {
          return Short;
        }
      }
      if n > MAX_LENGTH {
        return Panic;
      }
      var data;
      ok, data := ReadPayload(masked, mask, n);
      if !ok {
        return Short;
      }
      r := Got(Frame(fin, op, data), input);
    }

    /** readFrame */
    method ReadFrame() returns (r: ReadResult)
      modifies this`input
      ensures r == ParseFrame(old(input))
      ensures r.Got? ==> input == r.rest
    {
      ghost var before := input;
      var ok, h := ReadFull(2);
      if !ok {
        return Short;
      }
      assert [h[0], h[1]] + input == before;
      var n;
      ok, n := ReadLength(h[0], h[1]);
      if !ok {
        return Short;
      }
      assert before[2..][ParseLength(before).value.1..] == before[2 + ParseLength(before).value.1..];
      r := ReadBody(h[0] >= 0x80, h[0] % 0x10, h[1] >= 0x80, n);
    }

    /** The random mask of a frame: any four bytes. */
    method DrawMask() returns (mask: Bytes)
      ensures |mask| == 4
    {
      var a: Byte, b: Byte, c: Byte, d: Byte := *, *, *, *;
      mask := [a, b, c, d];
    }

    /** Answers a ping; what has been written for earlier pings still decodes. */
    method AnswerPing(payload: Bytes, ghost before: Bytes, ghost pings: seq<Bytes>)
      requires |payload| <= MAX_LENGTH && before <= output && Decodes(output[|before|..], PongFrames(pings), [])
      modifies this`output
      ensures before <= output && Decodes(output[|before|..], PongFrames(pings + [payload]), [])
    {
      var mask := DrawMask();
      ghost var written := output;
      OnePongMore(output[|before|..], pings, payload, mask);
      WriteFrame(OP_PONG, payload, mask);
      AppendedLater(before, written, Wire(Frame(true, OP_PONG, payload), Some(mask)));
    }

    /** readFrame, as ReadMessage sees it. */
    method NextFrame(ghost start: Bytes, ghost frames: seq<Frame>) returns (f: Option<Frame>)
      requires Decodes(start, frames, input)
      modifies this`input
      ensures f.Some? ==> IsFrame(f.value) && |input| < |old(input)| && Decodes(start, frames + [f.value], input)
      ensures f.None? <==> !ParseFrame(old(input)).Got?
    {
      ghost var before := input;
      ParseIsFrame(input);
      var r := ReadFrame();
      if !r.Got? {
        return None;
      }
      DecodesOneMore(start, frames, before, r.frame, input);
      f := Some(r.frame);
    }

    /** ReadMessage: every ping read is answered by one pong with its payload, in
        order, and nothing else is written. */
    method ReadMessage() returns (result: MessageResult, ghost frames: seq<Frame>, ghost rest: Bytes, ghost pings: seq<Bytes>)
      modifies this
      ensures ReadsMessage(old(input), frames, rest, result, pings)
      ensures !result.Failed? ==> input == rest
      ensures old(output) <= output && Decodes(output[|old(output)|..], PongFrames(pings), [])
    {
      var msgOp: Byte, buf: Bytes := 0, [];
      frames, pings, rest := [], [], input;
      assert output[|output|..] == [] && PongFrames(pings) == [];
      while true
        invariant Decodes(old(input), frames, input) && rest == input
        invariant AfterFrames(frames) == Reading(msgOp, buf, pings, None)
        invariant forall k :: 0 <= k < |frames| ==> AfterFrames(frames[..k]).done.None?
        invariant old(output) <= output && Decodes(output[|old(output)|..], PongFrames(pings), [])
        decreases |input|
      {
        var next := NextFrame(old(input), frames);
        if next.None? {
          return Failed, frames, rest, pings;
        }
        var f := next.value;
        AbsorbOne(frames, f);
        frames, rest := frames + [f], input;
        if f.op == OP_PING {
          AnswerPing(f.payload, old(output), pings);
          pings := pings + [f.payload];
          continue;
        }
        if f.op == OP_PONG {
          continue;
        }
        if f.op == OP_CLOSE {
          return Closed, frames, rest, pings;
        }
        if f.op != OP_CONTINUATION {
          msgOp := f.op;
        }
        buf := buf + f.payload;
        if f.fin {
          return Message(msgOp, buf), frames, rest, pings;
        }
      }
    }
  }

  lemma AbsorbOne(frames: seq<Frame>, f: Frame)
    requires AfterFrames(frames).done.None? && forall k :: 0 <= k < |frames| ==> AfterFrames(frames[..k]).done.None?
    ensures AfterFrames(frames + [f]) == Absorb(AfterFrames(frames), f)
    ensures forall k :: 0 <= k < |frames + [f]| ==> AfterFrames((frames + [f])[..k]).done.None?
  {
    assert (frames + [f])[..|frames|] == frames;
    forall k | 0 <= k < |frames| ensures (frames + [f])[..k] == frames[..k] {}
  }
}
