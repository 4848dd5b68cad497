/** A connection's two loops: frames are read from the bytes that will arrive and replies are written in order. */
module WebSocketConnection {
  import opened Common
  import opened W = WebSocket

  datatype Outcome = Closed | Unsupported(op: Byte) | Failed(error: ReadError)

  /** What one frame makes of the replies and the end that the frames after it lead to. */
  function Continue(f: Frame, later: (seq<Byte>, Outcome)): (seq<Byte>, Outcome) {
    if f.op == CLOSE then (W.WriteFrame(Frame(CLOSE, [])), Closed)
    else if f.op == PING then (W.WriteFrame(Frame(PONG, f.payload)) + later.0, later.1)
    else if f.op == PONG || f.op == TEXT then later
    else ([], Unsupported(f.op))
  }

  /** `ReadLoop` on the bytes still to come: what it writes and how it ends. */
  function Serve(input: seq<Byte>, readLimit: int): (seq<Byte>, Outcome)
    decreases |input|
  {
    ReadConsumes(input, readLimit);
    var r := W.ReadFrame(input, readLimit);
    match r.result
    case Err(e) => ([], Failed(e))
    case Ok(f) => Continue(f, Serve(input[r.consumed..], readLimit))
  }

  /** The pongs that answer the pings of a list, in order. */
  function Pongs(frames: seq<Frame>): seq<Byte> {
    if frames == [] then []
    else (if frames[0].op == PING then W.WriteFrame(Frame(PONG, frames[0].payload)) else []) + Pongs(frames[1..])
  }

  predicate Ordinary(f: Frame) {
    f.op == TEXT || f.op == PING || f.op == PONG
  }

  lemma PongsOfOne(f: Frame)
    ensures Pongs([f]) == if f.op == PING then W.WriteFrame(Frame(PONG, f.payload)) else []
  {
    assert [f][1..] == [];
  }

  lemma ServeStep(f: Frame, key: Key, rest: seq<Byte>, readLimit: int)
    requires Sendable(f, readLimit) && Ordinary(f)
    ensures Serve(Sent(f, key) + rest, readLimit) == (Pongs([f]) + Serve(rest, readLimit).0, Serve(rest, readLimit).1)
  {
    ReadsBack(f, key, rest, readLimit);
    PongsOfOne(f);
    OneRead(Sent(f, key), f, rest, readLimit);
    assert [] + Serve(rest, readLimit).0 == Serve(rest, readLimit).0;
  }

  /** The loop after one read. */
  lemma OneRead(first: seq<Byte>, f: Frame, rest: seq<Byte>, readLimit: int)
    requires W.ReadFrame(first + rest, readLimit) == Read(Ok(f), |first|)
    ensures Serve(first + rest, readLimit) == Continue(f, Serve(rest, readLimit))
  {
    var input := first + rest;
    ReadConsumes(input, readLimit);
    assert input[|first|..] == rest;
  }

  /** The answers to a list, given those to its tail. */
  lemma AnswersGrow(first: seq<Byte>, rest: seq<Byte>, close: seq<Byte>, f: Frame, frames: seq<Frame>, readLimit: int)
    requires Serve(first + rest, readLimit) == (Pongs([f]) + Serve(rest, readLimit).0, Serve(rest, readLimit).1)
    requires Serve(rest, readLimit) == (Pongs(frames) + close, Closed)
    ensures Serve(first + rest, readLimit) == (Pongs([f] + frames) + close, Closed)
  {
    PongsOfOne(f);
    assert ([f] + frames)[1..] == frames;
    assert Pongs([f]) + (Pongs(frames) + close) == Pongs([f]) + Pongs(frames) + close;
  }

  /**
   A client that sends any texts, pings and pongs and then a close is answered with one pong per ping,
   in order and with its payload, and then a close, whatever follows on the stream.
   */
  lemma {:induction false} EveryPingAnswered(frames: seq<Frame>, keys: seq<Key>, close: Frame, key: Key, tail: seq<Byte>, readLimit: int)
    requires |frames| == |keys| && close.op == CLOSE && Sendable(close, readLimit)
    requires forall i :: 0 <= i < |frames| ==> Sendable(frames[i], readLimit) && Ordinary(frames[i])
    ensures forall i :: 0 <= i < |frames| ==> Writable(frames[i])
    ensures Serve(SentAll(frames, keys) + (Sent(close, key) + tail), readLimit) == (Pongs(frames) + W.WriteFrame(Frame(CLOSE, [])), Closed)
  {
    SendableAreWritable(frames, readLimit);
    var last := Sent(close, key) + tail;
    if frames == [] {
      assert SentAll(frames, keys) + last == last;
      ReadsBack(close, key, tail, readLimit);
      OneRead(Sent(close, key), close, tail, readLimit);
      assert Pongs(frames) + W.WriteFrame(Frame(CLOSE, [])) == W.WriteFrame(Frame(CLOSE, []));
    } else {
      var rest := SentAll(frames[1..], keys[1..]) + last;
      EveryPingAnswered(frames[1..], keys[1..], close, key, tail, readLimit);
      SentFirst(frames, keys, last);
      ServeStep(frames[0], keys[0], rest, readLimit);
      AnswersGrow(Sent(frames[0], keys[0]), rest, W.WriteFrame(Frame(CLOSE, [])), frames[0], frames[1..], readLimit);
      assert [frames[0]] + frames[1..] == frames;
    }
  }

  class Connection {
    const input: seq<Byte>
    const readLimit: int
    var pos: nat
    var output: seq<Byte>

    constructor (input: seq<Byte>, readLimit: int)
      ensures this.input == input && this.readLimit == readLimit && pos == 0 && output == []
    {
      this.input, this.readLimit := input, readLimit;
      pos, output := 0, [];
    }

    /** `io.ReadFull`: all of the bytes, or the rest of the stream and an error. */
    method ReadFull(n: nat) returns (ok: bool, bytes: seq<Byte>)
      requires pos <= |input|
      modifies `pos
      ensures ok == (old(pos) + n <= |input|)
      ensures pos == if ok then old(pos) + n else |input|
      ensures ok ==> bytes == input[old(pos)..pos]
    {
      if |input| - pos < n {
        pos := |input|;
        return false, [];
      }
      bytes := input[pos..pos + n];
      pos := pos + n;
      return true, bytes;
    }

    /** Exclusive-ors the payload with the key in place. */
    method UnmaskInPlace(payload: array<Byte>, mask: Key)
      modifies payload
      ensures payload[..] == W.Unmask(old(payload[..]), mask)
    {
      for i := 0 to payload.Length
        invariant forall j :: 0 <= j < i ==> payload[j] == Xor(old(payload[j]), mask[j % 4])
        invariant forall j :: i <= j < payload.Length ==> payload[j] == old(payload[j])
      {
        payload[i] := Xor(payload[i], mask[i % 4]);
      }
    }

    /** The length that the second byte announces, with its extension bytes if it has any. */
    method ReadLength(second: Byte) returns (ok: bool, length: nat, ghost extended: seq<Byte>)
      requires pos <= |input|
      modifies `pos
      ensures var more := HeaderLength(second) - 2;
              && ok == (old(pos) + more <= |input|)
              && pos == (if ok then old(pos) + more else |input|)
              && (ok ==> extended == input[old(pos)..pos] && length == if more == 0 then second % 128 else GetUint(extended))
    {
      length, extended := second % 128, [];
      if length == 126 {
        var bytes;
        ok, bytes := ReadFull(2);
        if !ok { return; }
        return true, GetUint(bytes), bytes;
      } else if length == 127 {
        var bytes;
        ok, bytes := ReadFull(8);
        if !ok { return; }
        return true, GetUint(bytes), bytes;
      }
      ok := true;
    }

    method ReadPayload(length: nat, mask: Key) returns (ok: bool, payload: array<Byte>)
      requires pos <= |input|
      modifies `pos
      ensures ok == (old(pos) + length <= |input|)
      ensures pos == if ok then old(pos) + length else |input|
      ensures ok ==> payload[..] == W.Unmask(input[old(pos)..pos], mask)
    {
      var bytes;
      ok, bytes := ReadFull(length);
      payload := new Byte[|bytes|](i requires 0 <= i < |bytes| => bytes[i]);
      assert payload[..] == bytes;
      UnmaskInPlace(payload, mask);
    }

    method ReadFrame() returns (r: Result<Frame, ReadError>)
      requires pos <= |input|
      modifies `pos
      ensures old(pos) <= pos <= |input|
      ensures Read(r, pos - old(pos)) == W.ReadFrame(input[old(pos)..], readLimit)
    {
      ghost var p, coming := pos, input[pos..];
      var ok, header := ReadFull(2);
      if !ok { return Err(EOF); }
      assert header[0] == coming[0] && header[1] == coming[1];
      if header[0] < 128 { return Err(Fragmented); }
      if header[1] < 128 { return Err(Unmasked); }
      ghost var h := HeaderLength(header[1]);
      var length;
      ghost var extended;
      ok, length, extended := ReadLength(header[1]);
      if !ok { return Err(EOF); }
      assert coming[..h][2..] == extended && ExtendedLength(coming[..h]) == length;
      if Exceeds(length, readLimit) { return Err(TooLarge); }
      var mask;
      ok, mask := ReadFull(4);
      if !ok { return Err(EOF); }
      assert mask == coming[h..h + 4];
      var payload;
      ok, payload := ReadPayload(length, mask);
      if !ok { return Err(EOF); }
      assert input[p + h + 4..pos] == coming[h + 4..h + 4 + length];
      return Ok(Frame(header[0] % 16, payload[..]));
    }

    method WriteFrame(op: Byte, payload: seq<Byte>)
      modifies `output
      ensures output == old(output) + W.WriteFrame(Frame(op, payload))
    {
      var header := [OrHighBit(op)];
      var length := |payload|;
      if length < 126 {
        header := header + [length];
      } else if length <= 65535 {
        header := header + [126] + PutUint(length, 2);
      } else {
        header := header + [127] + PutUint(length, 8);
      }
      assert header == WriteHeader(op, length);
      output := output + header;
      if |payload| == 0 {
        assert header + payload == header;
        return;
      }
      output := output + payload;
    }

    method ReadLoop() returns (outcome: Outcome)
      requires pos <= |input|
      modifies this
      ensures output == old(output) + Serve(old(input[pos..]), readLimit).0
      ensures outcome == Serve(old(input[pos..]), readLimit).1
    {
      ghost var replies, last := Serve(input[pos..], readLimit).0, Serve(input[pos..], readLimit).1;
      ghost var left := input[pos..];
      while true
        invariant pos <= |input| && left == input[pos..]
        invariant output + Serve(left, readLimit).0 == old(output) + replies && Serve(left, readLimit).1 == last
        decreases |left|
      {
        ghost var coming, before, written := left, pos, output;
        ReadConsumes(coming, readLimit);
        var r := ReadFrame();
        if r.Err? {
          assert output + [] == output;
          return Failed(r.error);
        }
        var f := r.value;
        left := coming[pos - before..];
        assert coming[..pos - before] + left == coming;
        OneRead(coming[..pos - before], f, left, readLimit);
        if f.op == CLOSE {
          WriteFrame(CLOSE, []);
          return Closed;
        } else if f.op == PING {
          WriteFrame(PONG, f.payload);
          Regroup(written, W.WriteFrame(Frame(PONG, f.payload)), Serve(left, readLimit).0);
        } else if f.op == PONG || f.op == TEXT {
          assert [] + Serve(left, readLimit).0 == Serve(left, readLimit).0;
        } else {
          assert output + [] == output;
          return Unsupported(f.op);
        }
      }
    }
  }

  lemma Regroup(a: seq<Byte>, b: seq<Byte>, c: seq<Byte>)
    ensures a + (b + c) == a + b + c
  {
  }
}
