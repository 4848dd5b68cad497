/**
 The frames of `internal/realtime/websocket.go`, sections 5.2 and 5.3 of RFC 6455. A byte is an
 integer below 256, so `b & 0x80 != 0` is `b >= 128` and `b & 0x7f` is `b % 128`.
 */
module WebSocket {
  import opened Common

  type Byte = b: int | 0 <= b < 256

  const TEXT: Byte := 1
  const CLOSE: Byte := 8
  const PING: Byte := 9
  const PONG: Byte := 10

  const MAX_FRAME_SIZE := 0x10_0000
  const TWO_64 := 0x1_0000_0000_0000_0000

  datatype Frame = Frame(op: Byte, payload: seq<Byte>)

  datatype ReadError = EOF | Fragmented | Unmasked | TooLarge

  /** What a read gives and how many bytes it took from the stream. */
  datatype Read = Read(result: Result<Frame, ReadError>, consumed: nat)

  /** Exclusive or of the low `k` bits. */
  function XorBits(a: nat, b: nat, k: nat): nat {
    if k == 0 then 0 else 2 * XorBits(a / 2, b / 2, k - 1) + if a % 2 == b % 2 then 0 else 1
  }

  lemma {:induction false} XorBitsBound(a: nat, b: nat, k: nat)
    ensures XorBits(a, b, k) < Pow2(k)
  {
    if k > 0 { XorBitsBound(a / 2, b / 2, k - 1); }
  }

  lemma EightBits()
    ensures Pow2(8) == 256
  {
    assert Pow2(8) == 2 * Pow2(7) && Pow2(7) == 2 * Pow2(6) && Pow2(6) == 2 * Pow2(5);
    assert Pow2(5) == 2 * Pow2(4) && Pow2(4) == 2 * Pow2(3) && Pow2(3) == 2 * Pow2(2);
  }

  function Xor(a: Byte, b: Byte): Byte {
    XorBitsBound(a, b, 8);
    EightBits();
    XorBits(a, b, 8)
  }

  // ---------------------------------------------------------------- writing

  /** `binary.BigEndian.PutUint`: the low `k` bytes of `n`, most significant first. */
  function PutUint(n: nat, k: nat): (r: seq<Byte>)
    ensures |r| == k
  {
    if k == 0 then [] else PutUint(n / 256, k - 1) + [n % 256]
  }

  function GetUint(bytes: seq<Byte>): nat {
    if bytes == [] then 0 else 256 * GetUint(bytes[..|bytes| - 1]) + bytes[|bytes| - 1]
  }

  function OrHighBit(b: Byte): Byte {
    if b < 128 then 128 + b else b
  }

  function WriteHeader(op: Byte, length: nat): seq<Byte> {
    [OrHighBit(op)] +
    if length < 126 then [length]
    else if length <= 65535 then [126] + PutUint(length, 2)
    else [127] + PutUint(length, 8)
  }

  function WriteFrame(f: Frame): seq<Byte> {
    WriteHeader(f.op, |f.payload|) + f.payload
  }

  // ---------------------------------------------------------------- masking

  type Key = k: seq<Byte> | |k| == 4 witness [0, 0, 0, 0]

  function Unmask(payload: seq<Byte>, key: Key): seq<Byte> {
    seq(|payload|, i requires 0 <= i < |payload| => Xor(payload[i], key[i % 4]))
  }

  /** How many bytes come before the key: 2, or more for the extended lengths. */
  function HeaderLength(second: Byte): nat {
    if second % 128 == 126 then 4 else if second % 128 == 127 then 10 else 2
  }

  /** What a client sends for a frame: the mask bit set, the key after the header, the payload masked. */
  function MaskFrame(bytes: seq<Byte>, key: Key): seq<Byte>
    requires |bytes| >= 2 && HeaderLength(bytes[1]) <= |bytes|
  {
    var h := HeaderLength(bytes[1]);
    [bytes[0], OrHighBit(bytes[1])] + bytes[2..h] + key + Unmask(bytes[h..], key)
  }

  // ---------------------------------------------------------------- reading

  function ExtendedLength(header: seq<Byte>): nat
    requires |header| >= 2
  {
    if |header| == 2 then header[1] % 128 else GetUint(header[2..])
  }

  /** `length > uint64(readLimit) || length > maxFrameSize`; a negative limit converts to a huge one. */
  predicate Exceeds(length: nat, readLimit: int) {
    length > readLimit % TWO_64 || length > MAX_FRAME_SIZE
  }

  /** `readFrame` on the bytes that are still to come before the stream ends. */
  function ReadFrame(input: seq<Byte>, readLimit: int): Read {
    if |input| < 2 then Read(Err(EOF), |input|)
    else if input[0] < 128 then Read(Err(Fragmented), 2)
    else if input[1] < 128 then Read(Err(Unmasked), 2)
    else
      var h := HeaderLength(input[1]);
      if |input| < h then Read(Err(EOF), |input|)
      else
        var length := ExtendedLength(input[..h]);
        if Exceeds(length, readLimit) then Read(Err(TooLarge), h)
        else if |input| < h + 4 + length then Read(Err(EOF), |input|)
        else Read(Ok(Frame(input[0] % 16, Unmask(input[h + 4..h + 4 + length], input[h..h + 4]))), h + 4 + length)
  }

  /**
   A frame and every error but the end of the stream depend on exactly the bytes taken: those bytes alone give
   the same result, and so do they with anything behind them. One byte less is the end of the stream.
   */
  lemma TakesWhatItNeeds(input: seq<Byte>, tail: seq<Byte>, readLimit: int)
    requires ReadFrame(input, readLimit).result != Err(EOF)
    ensures var r := ReadFrame(input, readLimit);
            && 0 < r.consumed <= |input|
            && ReadFrame(input[..r.consumed], readLimit) == r && ReadFrame(input[..r.consumed] + tail, readLimit) == r
            && (r.result.Ok? || r.result == Err(TooLarge) ==> ReadFrame(input[..r.consumed - 1], readLimit).result == Err(EOF))
  {
    var r := ReadFrame(input, readLimit);
    var taken := input[..r.consumed];
    var longer := taken + tail;
    assert longer[0] == input[0] && longer[1] == input[1] && taken[0] == input[0] && taken[1] == input[1];
    if input[0] >= 128 && input[1] >= 128 {
      var h := HeaderLength(input[1]);
      assert longer[..h] == input[..h] && taken[..h] == input[..h];
      if r.result.Ok? {
        var length := ExtendedLength(input[..h]);
        assert longer[h..h + 4] == input[h..h + 4] && taken[h..h + 4] == input[h..h + 4];
        assert longer[h + 4..h + 4 + length] == input[h + 4..h + 4 + length] && taken[h + 4..h + 4 + length] == input[h + 4..h + 4 + length];
        var short := input[..r.consumed - 1];
        assert short[0] == input[0] && short[1] == input[1] && short[..h] == input[..h];
      }
    }
  }

  // ---------------------------------------------------------------- what masking does to a byte

  lemma TimesGrows(p: nat, a: int, b: int)
    requires a <= b
    ensures p * a <= p * b
  {
  }

  /** Only zero times `p` is smaller than `p`. */
  lemma SmallMultiple(p: int, d: int)
    requires -p < p * d < p
    ensures d == 0
  {
    if d > 0 { TimesGrows(p, 1, d); }
    if d < 0 { TimesGrows(p, d, -1); }
  }

  lemma QuotientOf(p: nat, q: nat, rest: nat)
    requires rest < p
    ensures (p * q + rest) / p == q
  {
    var x: int := p * q + rest;
    assert x == p * (x / p) + x % p;
    assert p * (x / p - q) == rest - x % p;
    SmallMultiple(p, x / p - q);
  }

  lemma HalvesShift(x: nat, p: nat)
    requires p > 0
    ensures x / (2 * p) == x / 2 / p
  {
    var q: int, rest: int := x / (2 * p), x % (2 * p);
    var m: int := p * q;
    assert x == 2 * m + rest by { assert x == 2 * p * q + rest; }
    assert x / 2 == m + rest / 2;
    QuotientOf(p, q, rest / 2);
  }

  function Bit(x: nat, k: nat): nat
    requires Pow2(k) > 0
  {
    x / Pow2(k) % 2
  }

  lemma {:induction false} Pow2Positive(k: nat)
    ensures Pow2(k) > 0
  {
    if k > 0 { Pow2Positive(k - 1); }
  }

  lemma {:induction false} XorBitsBit(a: nat, b: nat, n: nat, k: nat)
    requires k < n && Pow2(k) > 0
    ensures Bit(XorBits(a, b, n), k) == 1 <==> Bit(a, k) != Bit(b, k)
  {
    if k > 0 {
      var x := XorBits(a, b, n);
      Pow2Positive(k - 1);
      HalvesShift(x, Pow2(k - 1));
      HalvesShift(a, Pow2(k - 1));
      HalvesShift(b, Pow2(k - 1));
      assert x / 2 == XorBits(a / 2, b / 2, n - 1);
      XorBitsBit(a / 2, b / 2, n - 1, k - 1);
    }
  }

  /** Each of the eight bits of a masked byte is set if and only if it is set in exactly one of the byte and the key's byte at its place modulo four. */
  lemma UnmaskIsExclusiveOr(payload: seq<Byte>, key: Key, i: nat, k: nat)
    requires i < |payload| && k < 8 && Pow2(k) > 0
    ensures Bit(Unmask(payload, key)[i], k) == 1 <==> Bit(payload[i], k) != Bit(key[i % 4], k)
  {
    XorBitsBit(payload[i], key[i % 4], 8, k);
  }

  lemma {:induction false} XorBitsZero(a: nat, k: nat)
    requires a < Pow2(k)
    ensures XorBits(a, 0, k) == a
  {
    if k > 0 { XorBitsZero(a / 2, k - 1); }
  }

  /** A key of zeros leaves the payload as it is. */
  lemma ZeroKeyMasksNothing(payload: seq<Byte>)
    ensures Unmask(payload, [0, 0, 0, 0]) == payload
  {
    EightBits();
    forall i | 0 <= i < |payload| ensures Xor(payload[i], 0) == payload[i] { XorBitsZero(payload[i], 8); }
  }

  const HELLO_KEY: Key := [0x37, 0xfa, 0x21, 0x3d]
  const HELLO_MASKED: seq<Byte> := [0x7f, 0x9f, 0x4d, 0x51, 0x58]
  const HELLO: seq<Byte> := [0x48, 0x65, 0x6c, 0x6c, 0x6f]

  /** The low `n` bits of `c` are those that are set in exactly one of `a` and `b`. */
  predicate SameBits(a: nat, b: nat, c: nat, n: nat) {
    n == 0 || ((c % 2 == 1 <==> a % 2 != b % 2) && SameBits(a / 2, b / 2, c / 2, n - 1))
  }

  lemma {:induction false} XorFromBits(a: nat, b: nat, c: nat, n: nat)
    requires SameBits(a, b, c, n) && c < Pow2(n)
    ensures XorBits(a, b, n) == c
  {
    if n > 0 { XorFromBits(a / 2, b / 2, c / 2, n - 1); }
  }

  predicate IsLetter(a: Byte, b: Byte, c: Byte) {
    || (a == 0x7f && b == 0x37 && c == 0x48) || (a == 0x9f && b == 0xfa && c == 0x65) || (a == 0x4d && b == 0x21 && c == 0x6c)
    || (a == 0x51 && b == 0x3d && c == 0x6c) || (a == 0x58 && b == 0x37 && c == 0x6f)
  }

  lemma LetterIsUnmasked(a: Byte, b: Byte, c: Byte)
    requires IsLetter(a, b, c)
    ensures Xor(a, b) == c
  {
    assert SameBits(a, b, c, 8) by {
      assert SameBits(a / 64, b / 64, c / 64, 2);
      assert SameBits(a / 16, b / 16, c / 16, 4);
      assert SameBits(a / 4, b / 4, c / 4, 6);
    }
    EightBits();
    XorFromBits(a, b, c, 8);
  }

  lemma LettersAreUnmasked(masked: seq<Byte>, key: Key, plain: seq<Byte>)
    requires |masked| == |plain| && forall i :: 0 <= i < |plain| ==> IsLetter(masked[i], key[i % 4], plain[i])
    ensures Unmask(masked, key) == plain
  {
    forall i | 0 <= i < |plain| ensures Unmask(masked, key)[i] == plain[i] { LetterIsUnmasked(masked[i], key[i % 4], plain[i]); }
  }

  lemma ShortFrame(input: seq<Byte>, readLimit: int)
    requires |input| >= 6 && input[0] >= 128 && 128 <= input[1] < 254 && |input| >= input[1] - 122 && input[1] - 128 <= readLimit < TWO_64
    ensures ReadFrame(input, readLimit) == Read(Ok(Frame(input[0] % 16, Unmask(input[6..input[1] - 122], input[2..6]))), input[1] - 122)
  {
  }

  /** The masked text message of section 5.7 of RFC 6455 is read as "Hello". */
  lemma MaskedHello()
    ensures ReadFrame([0x81, 0x85] + HELLO_KEY + HELLO_MASKED, 65536) == Read(Ok(Frame(TEXT, HELLO)), 11)
  {
    var input := [0x81, 0x85] + HELLO_KEY + HELLO_MASKED;
    ShortFrame(input, 65536);
    assert input[2..6] == HELLO_KEY && input[6..11] == HELLO_MASKED;
    LettersAreUnmasked(HELLO_MASKED, HELLO_KEY, HELLO);
  }

  // ---------------------------------------------------------------- one frame there and back

  lemma {:induction false} XorBitsTwice(a: nat, b: nat, k: nat)
    requires a < Pow2(k)
    ensures XorBits(XorBits(a, b, k), b, k) == a
  {
    if k > 0 {
      var x := XorBits(a, b, k);
      assert x / 2 == XorBits(a / 2, b / 2, k - 1);
      XorBitsTwice(a / 2, b / 2, k - 1);
    }
  }

  lemma XorTwice(a: Byte, b: Byte)
    ensures Xor(Xor(a, b), b) == a
  {
    EightBits();
    XorBitsTwice(a, b, 8);
  }

  lemma UnmaskTwice(payload: seq<Byte>, key: Key)
    ensures Unmask(Unmask(payload, key), key) == payload
  {
    forall i | 0 <= i < |payload| ensures Unmask(Unmask(payload, key), key)[i] == payload[i] {
      XorTwice(payload[i], key[i % 4]);
    }
  }

  function Power(k: nat): nat {
    if k == 0 then 1 else 256 * Power(k - 1)
  }

  /** Lengths have their most significant byte first. */
  lemma {:induction false} BigEndian(first: Byte, rest: seq<Byte>)
    ensures GetUint([first] + rest) == first * Power(|rest|) + GetUint(rest)
  {
    var all := [first] + rest;
    if rest == [] {
      assert all == [first] && [first][..0] == [];
    } else {
      assert all[..|all| - 1] == [first] + rest[..|rest| - 1];
      BigEndian(first, rest[..|rest| - 1]);
      assert 256 * (first * Power(|rest| - 1)) == first * Power(|rest|);
    }
  }

  lemma {:induction false} PutThenGet(n: nat, k: nat)
    requires n < Power(k)
    ensures GetUint(PutUint(n, k)) == n
  {
    if k > 0 {
      PutThenGet(n / 256, k - 1);
      assert PutUint(n, k)[..k - 1] == PutUint(n / 256, k - 1);
    }
  }

  lemma {:induction false} GetThenPut(bytes: seq<Byte>)
    ensures GetUint(bytes) < Power(|bytes|) && PutUint(GetUint(bytes), |bytes|) == bytes
  {
    if bytes != [] {
      var rest := bytes[..|bytes| - 1];
      GetThenPut(rest);
      assert GetUint(bytes) / 256 == GetUint(rest) && GetUint(bytes) % 256 == bytes[|bytes| - 1];
      assert rest + [bytes[|bytes| - 1]] == bytes;
    }
  }

  lemma HeaderShape(op: Byte, length: nat)
    requires op < 16 && length < TWO_64
    ensures var header := WriteHeader(op, length);
            && |header| == HeaderLength(header[1]) && header[0] == 128 + op && header[1] < 128
            && ExtendedLength(header) == length
  {
    assert Power(2) == 65536 && Power(8) == TWO_64 by { PowerSteps(); }
    var header := WriteHeader(op, length);
    if 126 <= length <= 65535 {
      PutThenGet(length, 2);
      assert header[2..] == PutUint(length, 2);
    } else if length > 65535 {
      PutThenGet(length, 8);
      assert header[2..] == PutUint(length, 8);
    }
  }

  lemma PowerSteps()
    ensures Power(2) == 65536 && Power(8) == TWO_64
  {
    assert Power(4) == 256 * Power(3) && Power(3) == 256 * Power(2) && Power(2) == 256 * Power(1);
    assert Power(8) == 256 * Power(7) && Power(7) == 256 * Power(6) && Power(6) == 256 * Power(5) && Power(5) == 256 * Power(4);
  }

  predicate Writable(f: Frame) {
    f.op < 16 && |f.payload| <= MAX_FRAME_SIZE
  }

  predicate Sendable(f: Frame, readLimit: int) {
    Writable(f) && |f.payload| <= readLimit % TWO_64
  }

  function Sent(f: Frame, key: Key): (r: seq<Byte>)
    requires Writable(f)
  {
    HeaderShape(f.op, |f.payload|);
    MaskFrame(WriteFrame(f), key)
  }

  lemma SentShape(f: Frame, key: Key)
    requires Writable(f)
    ensures var header := WriteHeader(f.op, |f.payload|); var h := |header|;
            && h == HeaderLength(header[1]) && h >= 2
            && Sent(f, key) == [header[0], 128 + header[1]] + header[2..] + key + Unmask(f.payload, key)
  {
    HeaderShape(f.op, |f.payload|);
    var header, bytes := WriteHeader(f.op, |f.payload|), WriteFrame(f);
    assert bytes[2..|header|] == header[2..] && bytes[|header|..] == f.payload;
  }

  /** A frame sent by a client is read back as it was, and exactly its bytes are taken. */
  lemma ReadsBack(f: Frame, key: Key, tail: seq<Byte>, readLimit: int)
    requires Sendable(f, readLimit)
    ensures ReadFrame(Sent(f, key) + tail, readLimit) == Read(Ok(f), |Sent(f, key)|)
  {
    var header := WriteHeader(f.op, |f.payload|);
    var h, input := |header|, Sent(f, key) + tail;
    HeaderShape(f.op, |f.payload|);
    SentShape(f, key);
    assert input[0] == header[0] && input[1] == 128 + header[1];
    assert input[..h] == [header[0], 128 + header[1]] + header[2..];
    assert ExtendedLength(input[..h]) == |f.payload| by { assert input[..h][2..] == header[2..]; }
    assert input[h..h + 4] == key;
    assert input[h + 4..h + 4 + |f.payload|] == Unmask(f.payload, key);
    UnmaskTwice(f.payload, key);
  }

  /** Cut short anywhere, the same bytes are an end of stream and never another frame. */
  lemma CutShort(f: Frame, key: Key, n: nat, readLimit: int)
    requires Sendable(f, readLimit) && n < |Sent(f, key)|
    ensures ReadFrame(Sent(f, key)[..n], readLimit) == Read(Err(EOF), n)
  {
    var header := WriteHeader(f.op, |f.payload|);
    var h, whole := |header|, Sent(f, key);
    HeaderShape(f.op, |f.payload|);
    SentShape(f, key);
    if n >= h {
      assert whole[..n][..h] == [header[0], 128 + header[1]] + header[2..];
      assert ExtendedLength(whole[..n][..h]) == |f.payload| by { assert whole[..n][..h][2..] == header[2..]; }
    }
  }

  // ---------------------------------------------------------------- lists of frames

  function SentAll(frames: seq<Frame>, keys: seq<Key>): seq<Byte>
    requires |frames| == |keys| && forall i :: 0 <= i < |frames| ==> Writable(frames[i])
  {
    if frames == [] then [] else Sent(frames[0], keys[0]) + SentAll(frames[1..], keys[1..])
  }

  /** Up to `n` reads in a row: the frames, and the bytes left. */
  function ReadMany(input: seq<Byte>, n: nat, readLimit: int): (seq<Frame>, seq<Byte>)
    decreases n
  {
    if n == 0 then ([], input)
    else
      ReadConsumes(input, readLimit);
      var r := ReadFrame(input, readLimit);
      if r.result.Err? then ([], input)
      else
        var (frames, rest) := ReadMany(input[r.consumed..], n - 1, readLimit);
        ([r.result.value] + frames, rest)
  }

  /** A read takes no more than there is, and a frame takes at least its header and key. */
  lemma ReadConsumes(input: seq<Byte>, readLimit: int)
    ensures var r := ReadFrame(input, readLimit); r.consumed <= |input| && (r.result.Ok? ==> r.consumed >= 6)
  {
  }

  lemma ReadManyStep(first: seq<Byte>, f: Frame, rest: seq<Byte>, frames: seq<Frame>, tail: seq<Byte>, readLimit: int)
    requires ReadFrame(first + rest, readLimit) == Read(Ok(f), |first|) && ReadMany(rest, |frames|, readLimit) == (frames, tail)
    ensures ReadMany(first + rest, |frames| + 1, readLimit) == ([f] + frames, tail)
  {
    assert (first + rest)[|first|..] == rest;
  }

  lemma SentFirst(frames: seq<Frame>, keys: seq<Key>, tail: seq<Byte>)
    requires frames != [] && |frames| == |keys| && forall i :: 0 <= i < |frames| ==> Writable(frames[i])
    ensures SentAll(frames, keys) + tail == Sent(frames[0], keys[0]) + (SentAll(frames[1..], keys[1..]) + tail)
  {
    var a, b := Sent(frames[0], keys[0]), SentAll(frames[1..], keys[1..]);
    assert a + b + tail == a + (b + tail);
  }

  lemma SendableAreWritable(frames: seq<Frame>, readLimit: int)
    requires forall i :: 0 <= i < |frames| ==> Sendable(frames[i], readLimit)
    ensures forall i :: 0 <= i < |frames| ==> Writable(frames[i])
  {
  }

  /** Any list of frames, each masked with any key, is read back as the same list, taking exactly its bytes. */
  lemma {:induction false} FramesReadBack(frames: seq<Frame>, keys: seq<Key>, tail: seq<Byte>, readLimit: int)
    requires |frames| == |keys| && forall i :: 0 <= i < |frames| ==> Sendable(frames[i], readLimit)
    ensures forall i :: 0 <= i < |frames| ==> Writable(frames[i])
    ensures ReadMany(SentAll(frames, keys) + tail, |frames|, readLimit) == (frames, tail)
  {
    SendableAreWritable(frames, readLimit);
    if frames == [] {
      assert SentAll(frames, keys) + tail == tail;
    } else {
      FramesReadBack(frames[1..], keys[1..], tail, readLimit);
      SentFirst(frames, keys, tail);
      var rest := SentAll(frames[1..], keys[1..]) + tail;
      ReadsBack(frames[0], keys[0], rest, readLimit);
      ReadManyStep(Sent(frames[0], keys[0]), frames[0], rest, frames[1..], tail, readLimit);
      assert [frames[0]] + frames[1..] == frames;
    }
  }

  // ---------------------------------------------------------------- what else the reader accepts

  /** The reserved bits are clear and the shortest length form is used, as section 5.2 demands of a sender. */
  predicate Canonical(input: seq<Byte>)
    requires |input| >= 2 && HeaderLength(input[1]) <= |input|
  {
    var h := HeaderLength(input[1]);
    && input[0] / 16 == 8
    && (h == 4 ==> ExtendedLength(input[..h]) >= 126)
    && (h == 10 ==> ExtendedLength(input[..h]) > 65535)
  }

  /** The parts of an accepted input: header, key, masked payload. */
  lemma AcceptedShape(input: seq<Byte>, readLimit: int)
    requires ReadFrame(input, readLimit).result.Ok?
    ensures var r := ReadFrame(input, readLimit); var h := HeaderLength(input[1]);
            && Sendable(r.result.value, readLimit) && 2 <= h && h + 4 <= r.consumed <= |input| && input[0] >= 128 && input[1] >= 128
            && r.result.value.op == input[0] % 16 && |r.result.value.payload| == ExtendedLength(input[..h])
            && input[..r.consumed] == input[..h] + input[h..h + 4] + Unmask(r.result.value.payload, input[h..h + 4])
  {
    var r, h := ReadFrame(input, readLimit), HeaderLength(input[1]);
    UnmaskTwice(input[h + 4..r.consumed], input[h..h + 4]);
  }

  /** The accepted header is the writer's, with the mask bit, exactly when it is canonical. */
  lemma HeaderIsWrittenIff(head: seq<Byte>)
    requires |head| >= 2 && head[0] >= 128 && head[1] >= 128 && |head| == HeaderLength(head[1]) && ExtendedLength(head) <= MAX_FRAME_SIZE
    ensures var header := WriteHeader(head[0] % 16, ExtendedLength(head));
            |header| >= 2 && (head == [header[0], 128 + header[1]] + header[2..] <==> Canonical(head))
  {
    var length := ExtendedLength(head);
    var header := WriteHeader(head[0] % 16, length);
    HeaderShape(head[0] % 16, length);
    assert head[..|head|] == head;
    if |head| > 2 { GetThenPut(head[2..]); }
    if Canonical(head) {
      assert header[2..] == head[2..];
    }
  }

  /** The accepted bytes are what the writer and a mask give exactly when they are canonical; the reader does not check it. */
  lemma AcceptedIsSentIff(input: seq<Byte>, readLimit: int)
    requires ReadFrame(input, readLimit).result.Ok?
    ensures var r := ReadFrame(input, readLimit); var h := HeaderLength(input[1]);
            && Sendable(r.result.value, readLimit) && h + 4 <= r.consumed <= |input|
            && (Sent(r.result.value, input[h..h + 4]) == input[..r.consumed] <==> Canonical(input[..h]))
  {
    var r, h := ReadFrame(input, readLimit), HeaderLength(input[1]);
    AcceptedShape(input, readLimit);
    HeaderIsWrittenIff(input[..h]);
    SentShape(r.result.value, input[h..h + 4]);
    var header := WriteHeader(r.result.value.op, |r.result.value.payload|);
    SameHeads([header[0], 128 + header[1]] + header[2..], input[..h], input[h..h + 4], Unmask(r.result.value.payload, input[h..h + 4]));
  }

  /** Equal tails of equal total length force equal heads. */
  lemma SameHeads(a: seq<Byte>, b: seq<Byte>, key: seq<Byte>, payload: seq<Byte>)
    ensures a + key + payload == b + key + payload <==> a == b
  {
    if a + key + payload == b + key + payload {
      assert |a| == |b|;
      assert (a + key + payload)[..|a|] == a && (b + key + payload)[..|b|] == b;
    }
  }

  /** A frame with a reserved bit set is read as if it were not. */
  lemma ReservedBitsIgnored()
    ensures ReadFrame([0xC1, 0x80, 0, 0, 0, 0], 65536) == Read(Ok(Frame(TEXT, [])), 6)
  {
    var input := [0xC1, 0x80, 0, 0, 0, 0];
    assert HeaderLength(input[1]) == 2 && ExtendedLength(input[..2]) == 0;
    assert Unmask(input[6..6], input[2..6]) == [];
  }

  /** An empty payload whose length is announced in the two-byte form is read as well. */
  lemma LongFormAccepted()
    ensures ReadFrame([0x81, 0xFE, 0, 0, 0, 0, 0, 0], 65536) == Read(Ok(Frame(TEXT, [])), 8)
    ensures Sent(Frame(TEXT, []), [0, 0, 0, 0]) != [0x81, 0xFE, 0, 0, 0, 0, 0, 0]
  {
    var input := [0x81, 0xFE, 0, 0, 0, 0, 0, 0];
    assert input[..4][2..] == [0, 0];
    assert GetUint([0, 0]) == 256 * GetUint([0]) by { assert [0, 0][..1] == [0]; }
    assert GetUint([0]) == 0 by { assert [0][..0] == []; }
    assert HeaderLength(input[1]) == 4 && ExtendedLength(input[..4]) == 0;
    assert Unmask(input[8..8], input[4..8]) == [];
    SentShape(Frame(TEXT, []), [0, 0, 0, 0]);
  }
}
