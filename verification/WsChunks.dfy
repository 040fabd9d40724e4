/** A WebSocket byte stream received in chunks, and the streams that clients send. */
module WsChunks {
  import opened Bytes
  import opened WsStream

  // ----- calls on chunks -----

  /** The unread bytes that a call leaves in the buffer: none when it read nothing. */
  function Kept(buf: seq<byte>, rest: seq<byte>): seq<byte> { if |rest| < |buf| then rest else [] }

  predicate Drops(ws: Ws, buf: seq<byte>) {
    var r := Run(ws, buf);
    r.code == 0 && r.rest != [] && Kept(buf, r.rest) != r.rest
  }

  /** One call for each chunk, each on what the call before left. */
  function Feed(ws: Ws, tail: seq<byte>, chunks: seq<seq<byte>>): Outcome
    decreases |chunks|
  {
    if chunks == [] then Outcome(ws, tail, [], 0)
    else
      var buf := tail + chunks[0];
      var r := Run(ws, buf);
      if r.code != 0 then r else After(r.frames, Feed(r.ws, Kept(buf, r.rest), chunks[1..]))
  }

  predicate Lossless(ws: Ws, tail: seq<byte>, chunks: seq<seq<byte>>)
    decreases |chunks|
  {
    chunks == [] ||
    var buf := tail + chunks[0];
    var r := Run(ws, buf);
    !Drops(ws, buf) && (r.code == 0 ==> Lossless(r.ws, Kept(buf, r.rest), chunks[1..]))
  }

  function Concat(chunks: seq<seq<byte>>): seq<byte> {
    if chunks == [] then [] else chunks[0] + Concat(chunks[1..])
  }

  /** When no call drops bytes, the chunks deliver what one call on the whole stream does. */
  lemma {:induction false} ChunksAgree(ws: Ws, tail: seq<byte>, chunks: seq<seq<byte>>)
    requires Lossless(ws, tail, chunks) && Run(ws, tail) == Outcome(ws, tail, [], 0)
    ensures Agree(Feed(ws, tail, chunks), Run(ws, tail + Concat(chunks)))
    decreases |chunks|
  {
    if chunks == [] {
      assert tail + [] == tail;
    } else {
      var r := Run(ws, tail + chunks[0]);
      FeedGoes(ws, tail, chunks, r);
      WholeGoes(ws, tail, chunks, r);
      if r.code == 0 { ChunksAgree(r.ws, r.rest, chunks[1..]); }
    }
  }

  /** One call on everything, by what the first chunk gives. */
  lemma WholeGoes(ws: Ws, tail: seq<byte>, chunks: seq<seq<byte>>, r: Outcome)
    requires chunks != [] && r == Run(ws, tail + chunks[0])
    ensures r.code == 0 ==> Run(r.ws, r.rest) == Outcome(r.ws, r.rest, [], 0)
    ensures Agree(Run(ws, tail + Concat(chunks)), Combine(r, Run(r.ws, r.rest + Concat(chunks[1..]))))
  {
    var buf, later := tail + chunks[0], Concat(chunks[1..]);
    assert tail + Concat(chunks) == buf + later;
    TwoParts(ws, buf, later);
    if r.code == 0 { RestWaits(ws, buf); }
  }

  /** The first call, which drops nothing. */
  lemma FeedGoes(ws: Ws, tail: seq<byte>, chunks: seq<seq<byte>>, r: Outcome)
    requires chunks != [] && Lossless(ws, tail, chunks) && r == Run(ws, tail + chunks[0])
    ensures r.code != 0 ==> Feed(ws, tail, chunks) == r
    ensures r.code == 0 ==> Lossless(r.ws, r.rest, chunks[1..]) && Feed(ws, tail, chunks) == After(r.frames, Feed(r.ws, r.rest, chunks[1..]))
  {
    assert !Drops(ws, tail + chunks[0]);
  }

  // ----- when a call drops bytes -----

  /** How many bytes a call must find to read anything. */
  function Needs(ws: Ws): nat {
    match ws.phase
    case FrameHeader => 2
    case ExtLen16 => 2
    case ExtLen64 => 8
    case MaskKey => if ws.masked then 4 else if ws.len > MAX_PAYLOAD || ws.len > 0 || ws.opcode == CLOSE then 1 else 2
    case Payload => if ws.len > |ws.got| || ws.opcode == CLOSE then 1 else 2
  }

  /** A call drops bytes exactly when it finds some, but fewer than the parser's state needs. */
  lemma {:induction false} DropsExactly(ws: Ws, buf: seq<byte>)
    ensures Drops(ws, buf) <==> 0 < |buf| < Needs(ws)
    decreases |buf|, Rank(ws.phase)
  {
    if buf != [] {
      var t := Turn(ws, buf);
      if t.Next? || t.Deliver? {
        RestShorter(t.ws, buf[t.used..]);
        if t.used == 0 {
          assert buf[0..] == buf;
          DropsExactly(t.ws, buf);
        }
      }
    }
  }

  lemma {:induction false} RestShorter(ws: Ws, b: seq<byte>)
    ensures |Run(ws, b).rest| <= |b|
    decreases |b|, Rank(ws.phase)
  {
    if b != [] {
      var t := Turn(ws, b);
      if t.Next? || t.Deliver? { RestShorter(t.ws, b[t.used..]); }
    }
  }

  function Singles(b: seq<byte>): (r: seq<seq<byte>>)
    ensures |r| == |b| && forall i :: 0 <= i < |b| ==> r[i] == [b[i]]
  {
    if b == [] then [] else [b[..1]] + Singles(b[1..])
  }

  /** A stream that arrives byte by byte is lost altogether, whatever it holds. */
  lemma {:induction false} ByteByByte(ws: Ws, b: seq<byte>)
    requires ws.phase == FrameHeader
    ensures Feed(ws, [], Singles(b)) == Outcome(ws, [], [], 0)
  {
    if b != [] {
      assert [] + b[..1] == b[..1];
      ByteByByte(ws, b[1..]);
    }
  }

  // ----- frames that clients send -----

  datatype ClientFrame = ClientFrame(fin: bool, opcode: byte, masked: bool, key: Key, data: seq<byte>)

  predicate Sendable(f: ClientFrame) { f.opcode < 16 && |f.data| < 0x8000_0000_0000_0000 }

  /** The length field in its shortest form, behind the mask bit. */
  function LengthBytes(n: nat, masked: bool): seq<byte>
    requires n < 0x8000_0000_0000_0000
  {
    var bit := if masked then 128 else 0;
    if n < 126 then [bit + n] else [bit + if n < 65536 then 126 else 127] + ToBytes(n, LengthSize(n))
  }

  function LengthSize(n: nat): nat { if n < 65536 then 2 else 8 }

  /** Key and masked data, or the data as it is. */
  function PayloadBytes(f: ClientFrame): seq<byte> {
    if f.masked then f.key + Unmask(f.key, f.data) else f.data
  }

  function Encode(f: ClientFrame): (b: seq<byte>)
    requires Sendable(f)
    ensures b != []
  {
    [(if f.fin then 128 else 0) + f.opcode] + LengthBytes(|f.data|, f.masked) + PayloadBytes(f)
  }

  lemma UnmaskTwice(key: Key, data: seq<byte>)
    ensures Unmask(key, Unmask(key, data)) == data
  {
    forall i | 0 <= i < |data| ensures Unmask(key, Unmask(key, data))[i] == data[i] { XorTwice(data[i], key[i % 4]); }
  }

  /** The parser's state behind a whole frame. */
  function Behind(ws: Ws, f: ClientFrame): Ws {
    ws.(fin := f.fin, opcode := f.opcode, masked := f.masked, len := |f.data|, key := if f.masked then f.key else ws.key, got := [])
  }

  /** The state in which it is about to read the key, if there is one. */
  function BeforeKey(ws: Ws, f: ClientFrame): Ws { Behind(ws, f).(phase := MaskKey, key := ws.key, got := ws.got) }

  /** After the header and length of a frame the parser is about to read its key. */
  lemma ReadsHeader(ws: Ws, f: ClientFrame, rest: seq<byte>)
    requires ws.phase == FrameHeader && Sendable(f)
    ensures Run(ws, [(if f.fin then 128 else 0) + f.opcode] + LengthBytes(|f.data|, f.masked) + rest) == Run(BeforeKey(ws, f), rest)
  {
    var n := |f.data|;
    var field := LengthBytes(n, f.masked);
    var b := [(if f.fin then 128 else 0) + f.opcode] + field + rest;
    assert b[1] == field[0] && b[2..] == field[1..] + rest;
    var w := TurnsHeader(ws, f, b);
    NextGoes(ws, b, w, 2, field[1..] + rest);
    if n < 126 {
      assert field[1..] + rest == rest;
    } else {
      ReadsLength(w, n, f.masked, rest);
    }
  }

  /** The two header bytes. */
  lemma TurnsHeader(ws: Ws, f: ClientFrame, b: seq<byte>) returns (w: Ws)
    requires ws.phase == FrameHeader && Sendable(f) && |b| >= 2
    requires b[0] == (if f.fin then 128 else 0) + f.opcode && b[1] == LengthBytes(|f.data|, f.masked)[0]
    ensures Turn(ws, b) == Next(w, 2)
    ensures var n := |f.data|; w == ws.(fin := f.fin, opcode := f.opcode, masked := f.masked,
      len := if n < 126 then n else ws.len, phase := if n < 126 then MaskKey else if n < 65536 then ExtLen16 else ExtLen64)
  {
    FirstByte(f.fin, f.opcode);
    SecondByte(|f.data|, f.masked);
    w := Turn(ws, b).ws;
  }

  lemma FirstByte(fin: bool, opcode: byte)
    requires opcode < 16
    ensures var x := (if fin then 128 else 0) + opcode; x % 16 == opcode && (x >= 128 <==> fin)
  {}

  lemma SecondByte(n: nat, masked: bool)
    requires n < 0x8000_0000_0000_0000
    ensures var x := LengthBytes(n, masked)[0];
      (x >= 128 <==> masked) && x % 128 == if n < 126 then n else if n < 65536 then 126 else 127
  {}

  lemma ReadsLength(ws: Ws, n: nat, masked: bool, rest: seq<byte>)
    requires 126 <= n < 0x8000_0000_0000_0000 && ws.phase == if n < 65536 then ExtLen16 else ExtLen64
    ensures Run(ws, LengthBytes(n, masked)[1..] + rest) == Run(ws.(phase := MaskKey, len := n), rest)
  {
    var field, k := ToBytes(n, LengthSize(n)), LengthSize(n);
    var b := field + rest;
    assert LengthBytes(n, masked)[1..] == field && b[..k] == field && b[k..] == rest;
    LengthFits(n);
    BigEndianToBytes(n, k);
    if n < 65536 { TwoBytes(field); }
    TurnsLength(ws, n, field, b);
    NextGoes(ws, b, ws.(phase := MaskKey, len := n), k, rest);
  }

  lemma LengthFits(n: nat)
    requires n < 0x8000_0000_0000_0000
    ensures n < Power256(LengthSize(n))
  {
    assert Power256(2) == 65536 && Power256(8) == 0x1_0000_0000_0000_0000;
  }

  /** The turn on the length field. */
  lemma TurnsLength(ws: Ws, n: nat, field: seq<byte>, b: seq<byte>)
    requires 126 <= n < 0x8000_0000_0000_0000 && ws.phase == (if n < 65536 then ExtLen16 else ExtLen64) && |field| == LengthSize(n)
    requires |b| >= |field| && b[..|field|] == field && BigEndian(field) == n && (n < 65536 ==> n == field[0] as int * 256 + field[1] as int)
    ensures Turn(ws, b) == Next(ws.(phase := MaskKey, len := n), |field|)
  {
    assert field[0] == b[0] && field[1] == b[1];
  }

  /** How a frame is taken; an empty unmasked one only when another byte follows. */
  predicate Taken(ws: Ws, b: seq<byte>, f: ClientFrame, rest: seq<byte>) {
    TakenTo(Run(ws, b), Behind(ws, f).(phase := FrameHeader), f, rest)
  }

  predicate TakenTo(r: Outcome, end: Ws, f: ClientFrame, rest: seq<byte>) {
    if |f.data| > MAX_PAYLOAD then r.frames == [] && r.code == -1
    else if f.opcode == CLOSE then r.frames == [] && r.code == 1
    else r == After([Frame(f.opcode, |f.data|, f.data)], Run(end, rest))
  }

  /** The turn on a key, if there is one, in front of other bytes. */
  lemma TurnsKey(ws: Ws, key: seq<byte>, b: seq<byte>, rest: seq<byte>)
    requires ws.phase == MaskKey && b == key + rest && b != [] && |key| == if ws.masked then 4 else 0
    ensures var w := ws.(key := if ws.masked then key else ws.key, phase := Payload, got := []);
      Turn(ws, b) == if ws.len > MAX_PAYLOAD then TooLong else if ws.len == 0 then Finish(w, |key|) else Next(w, |key|)
    ensures b[|key|..] == rest
  {
    assert b[..|key|] == key;
  }

  /** The turn on a whole payload. */
  lemma TurnsPayload(ws: Ws, sent: seq<byte>, rest: seq<byte>)
    requires ws.phase == Payload && ws.got == [] && ws.len == |sent| > 0
    ensures Turn(ws, sent + rest) == Finish(ws.(got := sent), |sent|) && (sent + rest)[|sent|..] == rest
  {
    var b, n := sent + rest, |sent|;
    assert b[..n] == sent && [] + sent == sent;
  }

  /** The payload as it is sent. */
  function Sent(f: ClientFrame): (d: seq<byte>)
    requires Sendable(f)
    ensures |d| == |f.data|
  {
    if f.masked then Unmask(f.key, f.data) else f.data
  }

  lemma SentBack(f: ClientFrame)
    requires Sendable(f)
    ensures f.masked ==> Unmask(f.key, Sent(f)) == f.data
  {
    UnmaskTwice(f.key, f.data);
  }

  lemma KeyInFront(f: ClientFrame, rest: seq<byte>)
    requires Sendable(f)
    ensures PayloadBytes(f) + rest == (if f.masked then f.key else []) + (Sent(f) + rest)
  {}

  /** The turn that reads the key has gone on to a payload that is not empty. */
  lemma ReadsBody(ws: Ws, b: seq<byte>, w: Ws, sent: seq<byte>, used: nat, f: ClientFrame, rest: seq<byte>)
    requires b != [] && Turn(ws, b) == Next(w, used) && used <= |b| && b[used..] == sent + rest
    requires w.phase == Payload && w.got == [] && w.opcode == f.opcode && w.masked == f.masked
    requires w.len == |sent| == |f.data| <= MAX_PAYLOAD && |sent| > 0
    requires (if w.masked then Unmask(w.key, sent) else sent) == f.data
    ensures TakenTo(Run(ws, b), w.(phase := FrameHeader, got := []), f, rest)
  {
    TurnsPayload(w, sent, rest);
    EndsFrame(w, sent + rest, w, sent, |sent|, f, rest);
    NextGoes(ws, b, w, used, sent + rest);
  }

  /** Key and payload of a frame. */
  lemma ReadsPayload(ws: Ws, f: ClientFrame, rest: seq<byte>)
    requires ws == BeforeKey(ws, f) && Sendable(f) && PayloadBytes(f) + rest != []
    ensures Taken(ws, PayloadBytes(f) + rest, f, rest)
  {
    var key: seq<byte> := if f.masked then f.key else [];
    var sent := Sent(f);
    var b := PayloadBytes(f) + rest;
    KeyInFront(f, rest);
    TurnsKey(ws, key, b, sent + rest);
    SentBack(f);
    var w := ws.(key := if f.masked then f.key else ws.key, phase := Payload, got := []);
    if |f.data| > MAX_PAYLOAD {
      TooLongEnds(ws, b);
    } else if |f.data| > 0 {
      ReadsBody(ws, b, w, sent, |key|, f, rest);
    } else {
      assert sent + rest == rest;
      EndsFrame(ws, b, w, sent, |key|, f, rest);
    }
  }

  lemma TooLongEnds(ws: Ws, b: seq<byte>)
    requires b != [] && Turn(ws, b) == TooLong
    ensures Run(ws, b).frames == [] && Run(ws, b).code == -1
  {}

  lemma NextGoes(ws: Ws, b: seq<byte>, w: Ws, used: nat, rest: seq<byte>)
    requires b != [] && Turn(ws, b) == Next(w, used) && b[used..] == rest
    ensures Run(ws, b) == Run(w, rest)
  {}

  /** What a complete frame makes of the run. */
  lemma EndsFrame(ws: Ws, b: seq<byte>, w: Ws, sent: seq<byte>, used: nat, f: ClientFrame, rest: seq<byte>)
    requires b != [] && Turn(ws, b) == Finish(w.(got := sent), used) && used <= |b| && b[used..] == rest
    requires w.opcode == f.opcode && w.masked == f.masked && w.len == |sent| == |f.data| <= MAX_PAYLOAD
    requires (if w.masked then Unmask(w.key, sent) else sent) == f.data
    ensures TakenTo(Run(ws, b), w.(phase := FrameHeader, got := []), f, rest)
  {}

  lemma HeaderInFront(f: ClientFrame, rest: seq<byte>)
    requires Sendable(f)
    ensures Encode(f) + rest
      == [(if f.fin then 128 else 0) + f.opcode] + LengthBytes(|f.data|, f.masked) + (PayloadBytes(f) + rest)
  {}

  /** A whole frame is read as it was sent. */
  lemma ReadsFrame(ws: Ws, f: ClientFrame, rest: seq<byte>)
    requires ws.phase == FrameHeader && Sendable(f)
    ensures f.masked || f.data + rest != [] ==> Taken(ws, Encode(f) + rest, f, rest)
    ensures !f.masked && f.data + rest == [] ==> Run(ws, Encode(f) + rest) == Outcome(BeforeKey(ws, f), [], [], 0)
  {
    var tail := PayloadBytes(f) + rest;
    HeaderInFront(f, rest);
    ReadsHeader(ws, f, tail);
    if tail != [] { ReadsPayload(BeforeKey(ws, f), f, rest); }
  }

  function EncodeAll(fs: seq<ClientFrame>): seq<byte>
    requires forall i :: 0 <= i < |fs| ==> Sendable(fs[i])
  {
    if fs == [] then [] else Encode(fs[0]) + EncodeAll(fs[1..])
  }

  /** A frame at the end of the stream that waits for another byte: empty and unmasked. */
  predicate Waits(fs: seq<ClientFrame>) { |fs| == 1 && !fs[0].masked && fs[0].data == [] }

  /** What the frames sent before the first close or oversized one ask for. */
  function Delivered(fs: seq<ClientFrame>): seq<Frame> {
    if fs == [] || Waits(fs) || |fs[0].data| > MAX_PAYLOAD || fs[0].opcode == CLOSE then []
    else [Frame(fs[0].opcode, |fs[0].data|, fs[0].data)] + Delivered(fs[1..])
  }

  /** How the connection ends: at the first close (1) or oversized frame (-1), if there is one. */
  function Ending(fs: seq<ClientFrame>): int {
    if fs == [] || Waits(fs) then 0 else if |fs[0].data| > MAX_PAYLOAD then -1 else if fs[0].opcode == CLOSE then 1 else Ending(fs[1..])
  }

  /** The parser inverts the client's encoding of any sequence of frames. */
  lemma {:induction false} RoundTrip(ws: Ws, fs: seq<ClientFrame>)
    requires ws.phase == FrameHeader && forall i :: 0 <= i < |fs| ==> Sendable(fs[i])
    ensures var r := Run(ws, EncodeAll(fs));
      && r.frames == Delivered(fs) && r.code == Ending(fs)
      && (r.code == 0 ==> r.rest == [] && r.ws.phase == if fs != [] && Waits(fs[|fs| - 1..]) then MaskKey else FrameHeader)
    decreases |fs|
  {
    if fs != [] {
      var rest := EncodeAll(fs[1..]);
      ReadsFrame(ws, fs[0], rest);
      if !Waits(fs) {
        assert |fs| > 1 ==> rest != [] && fs[1..][|fs| - 2..] == fs[|fs| - 1..];
        RoundTrip(Behind(ws, fs[0]), fs[1..]);
      } else {
        assert fs[0..] == fs;
      }
    }
  }

  /** Frames sent in any chunks that no call drops arrive as they were sent. */
  lemma FramesArrive(ws: Ws, fs: seq<ClientFrame>, chunks: seq<seq<byte>>)
    requires ws.phase == FrameHeader && (forall i :: 0 <= i < |fs| ==> Sendable(fs[i]))
    requires Concat(chunks) == EncodeAll(fs) && Lossless(ws, [], chunks)
    ensures Feed(ws, [], chunks).frames == Delivered(fs) && Feed(ws, [], chunks).code == Ending(fs)
  {
    assert [] + Concat(chunks) == EncodeAll(fs);
    ChunksAgree(ws, [], chunks);
    RoundTrip(ws, fs);
  }
}
