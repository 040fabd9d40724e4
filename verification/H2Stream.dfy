/** What the HTTP/2 frame parser does with a stream of bytes (RFC 7540, sections 4.1 and 6.9). */
module H2Stream {
  import opened Bytes

  datatype Header = Header(length: nat, kind: byte, flags: byte, id: nat)

  datatype Event = Settings(payload: seq<byte>) | Headers(id: nat, flags: byte, payload: seq<byte>)
    | Data(id: nat, flags: byte, payload: seq<byte>) | Reset(id: nat) | Pong(payload: seq<byte>)

  datatype Session = Session(goaway: bool, window: int, events: seq<Event>)

  const DATA: byte := 0
  const HEADERS: byte := 1
  const RST_STREAM: byte := 3
  const SETTINGS: byte := 4
  const PING: byte := 6
  const GOAWAY: byte := 7
  const WINDOW_UPDATE: byte := 8

  // ----- frame headers -----

  function Number(b: seq<byte>): (n: nat)
    requires |b| == 3 || |b| == 4
    ensures n < if |b| == 3 then 0x100_0000 else 0x1_0000_0000
  {
    if |b| == 3 then b[0] as int * 0x1_0000 + b[1] as int * 0x100 + b[2] as int
    else b[0] as int * 0x100_0000 + b[1] as int * 0x1_0000 + b[2] as int * 0x100 + b[3] as int
  }

  /** Three or four bytes of a number, each cut to eight bits. */
  function Cut(n: nat, k: nat): (b: seq<byte>)
    requires k == 3 || k == 4
    ensures |b| == k
  {
    if k == 3 then [n / 0x1_0000 % 256, n / 0x100 % 256, n % 256]
    else [n / 0x100_0000 % 256, n / 0x1_0000 % 256, n / 0x100 % 256, n % 256]
  }

  /** The reserved bit of a stream identifier is ignored. */
  function ReadHeader(b: seq<byte>): (h: Header)
    requires |b| >= 9
    ensures h.length < 0x100_0000 && h.id < 0x8000_0000
  {
    Header(Number(b[..3]), b[3], b[4], Number(b[5..9]) % 0x8000_0000)
  }

  function WriteHeader(h: Header): (b: seq<byte>)
    ensures |b| == 9
  {
    Cut(h.length, 3) + [h.kind, h.flags] + Cut(h.id, 4)
  }

  lemma Quotients(n: nat)
    ensures n / 0x1_0000 == n / 0x100 / 0x100 && n / 0x100_0000 == n / 0x1_0000 / 0x100
  {}

  lemma NumberOfCut(n: nat, k: nat)
    requires k == 3 || k == 4
    ensures Number(Cut(n, k)) == n % if k == 3 then 0x100_0000 else 0x1_0000_0000
  {
    Quotients(n);
    var a, b, c := n / 0x100, n / 0x1_0000, n / 0x100_0000;
    assert n == a * 256 + n % 256 && a == b * 256 + a % 256 && b == c * 256 + b % 256;
    if k == 3 {
      Remainder(n, c, 0x100_0000, Number(Cut(n, 3)));
    } else {
      assert c == (c / 256) * 256 + c % 256;
      Remainder(n, c / 256, 0x1_0000_0000, Number(Cut(n, 4)));
    }
  }

  lemma CutOfNumber(b: seq<byte>)
    requires |b| == 3 || |b| == 4
    ensures Cut(Number(b), |b|) == b
  {
    var n := Number(b);
    Quotients(n);
    var k := |b|;
    var high := if k == 3 then b[0] as int else b[0] as int * 0x100 + b[1] as int;
    var more := high * 0x100 + b[k - 2] as int;
    Remainder(n, more, 0x100, b[k - 1]);
    Remainder(more, high, 0x100, b[k - 2]);
    if k == 4 { Remainder(high, b[0], 0x100, b[1]); }
  }

  /** Reading inverts writing exactly for 24-bit lengths and 31-bit identifiers. */
  lemma ReadWrite(h: Header)
    requires h.length < 0x1_0000_0000 && h.id < 0x1_0000_0000
    ensures ReadHeader(WriteHeader(h)) == h <==> h.length < 0x100_0000 && h.id < 0x8000_0000
  {
    var b := WriteHeader(h);
    assert b[..3] == Cut(h.length, 3) && b[5..9] == Cut(h.id, 4);
    NumberOfCut(h.length, 3);
    NumberOfCut(h.id, 4);
    Kept(h.length, 0x100_0000);
    Kept(h.id, 0x1_0000_0000);
    Kept(h.id, 0x8000_0000);
  }

  lemma Kept(n: nat, m: nat)
    requires m > 0
    ensures n % m == n <==> n < m
  {}

  /** Writing inverts reading but for the reserved bit, which is cleared. */
  lemma WriteRead(b: seq<byte>)
    requires |b| == 9
    ensures WriteHeader(ReadHeader(b)) == b[5 := b[5] % 128]
  {
    var c := b[5 := b[5] % 128];
    CutOfNumber(b[..3]);
    CutOfNumber(c[5..9]);
    var top: int := b[5] / 128;
    assert b[5] as int == top * 128 + c[5] as int;
    Remainder(Number(b[5..9]), top, 0x8000_0000, Number(c[5..9]));
    assert c == b[..3] + [b[3], b[4]] + c[5..9];
  }

  // ----- the loop -----

  function Int32(n: int): int {
    var m := n % 0x1_0000_0000;
    if m >= 0x8000_0000 then m - 0x1_0000_0000 else m
  }

  /** The 32-bit integer that a number wraps around to. */
  lemma Int32Means(n: int)
    ensures -0x8000_0000 <= Int32(n) <= 0x7fff_ffff && (Int32(n) - n) % 0x1_0000_0000 == 0
  {
    var q := n / 0x1_0000_0000;
    if Int32(n) >= 0 { Remainder(Int32(n) - n, -q, 0x1_0000_0000, 0); } else { Remainder(Int32(n) - n, -q - 1, 0x1_0000_0000, 0); }
  }

  /** One frame. The increment of a window update is read from the four bytes behind the header,
      however long the frame is. */
  function Handle(s: Session, h: Header, payload: seq<byte>, word: nat): Session {
    if h.kind == SETTINGS then
      if h.id == 0 && h.flags % 2 == 0 then s.(events := s.events + [Settings(payload)]) else s
    else if h.kind == HEADERS then s.(events := s.events + [Headers(h.id, h.flags, payload)])
    else if h.kind == DATA then s.(events := s.events + [Data(h.id, h.flags, payload)])
    else if h.kind == RST_STREAM then s.(events := s.events + [Reset(h.id)])
    else if h.kind == PING then s.(events := s.events + [Pong(payload)])
    else if h.kind == GOAWAY then s.(goaway := true)
    else if h.kind == WINDOW_UPDATE then s.(window := Int32(s.window + word % 0x8000_0000))
    else s
  }

  /** A complete frame stands at the front. */
  predicate Complete(b: seq<byte>) { |b| >= 9 && |b| >= 9 + ReadHeader(b).length }

  function FrameSize(b: seq<byte>): nat
    requires |b| >= 9
  {
    9 + ReadHeader(b).length
  }

  /** One turn on a complete frame; beyond are the bytes of the buffer behind the received ones. */
  function Turn(s: Session, b: seq<byte>, beyond: seq<byte>): Session
    requires Complete(b) && |beyond| >= 4
  {
    Handle(s, ReadHeader(b), b[9..FrameSize(b)], Number((b + beyond)[9..13]))
  }

  datatype Outcome = Outcome(session: Session, rest: seq<byte>)

  function Run(s: Session, b: seq<byte>, beyond: seq<byte>): Outcome
    requires |beyond| >= 4
    decreases |b|
  {
    if !Complete(b) || s.goaway then Outcome(s, b)
    else Run(Turn(s, b, beyond), b[FrameSize(b)..], beyond)
  }

  // ----- chunks -----

  /** Every window update in the stream has room for its increment. */
  predicate Roomy(b: seq<byte>)
    decreases |b|
  {
    |b| < 9 ||
    ((ReadHeader(b).kind == WINDOW_UPDATE ==> ReadHeader(b).length >= 4) && (Complete(b) ==> Roomy(b[FrameSize(b)..])))
  }

  lemma SameFrame(s: Session, a: seq<byte>, c: seq<byte>, x: seq<byte>, y: seq<byte>)
    requires Complete(a) && Roomy(a + c) && |x| >= 4 && |y| >= 4
    ensures Complete(a + c) && FrameSize(a + c) == FrameSize(a) && Turn(s, a + c, x) == Turn(s, a, y)
    ensures (a + c)[FrameSize(a)..] == a[FrameSize(a)..] + c
  {
    var b := a + c;
    assert b[..3] == a[..3] && b[5..9] == a[5..9];
    assert ReadHeader(b) == ReadHeader(a);
    assert b[9..FrameSize(a)] == a[9..FrameSize(a)];
    if ReadHeader(a).kind == WINDOW_UPDATE { assert (b + x)[9..13] == (a + y)[9..13]; }
  }

  lemma RunGoes(s: Session, b: seq<byte>, beyond: seq<byte>)
    requires Complete(b) && !s.goaway && |beyond| >= 4
    ensures Run(s, b, beyond) == Run(Turn(s, b, beyond), b[FrameSize(b)..], beyond)
  {}

  lemma RoomyRest(b: seq<byte>)
    requires Complete(b) && Roomy(b)
    ensures Roomy(b[FrameSize(b)..])
  {}

  /** The frame in front is handled alike with more bytes behind it. */
  lemma RunFront(s: Session, a: seq<byte>, c: seq<byte>, x: seq<byte>, y: seq<byte>)
    requires Complete(a) && !s.goaway && Roomy(a + c) && |x| >= 4 && |y| >= 4
    ensures var rest := a[FrameSize(a)..];
      Roomy(rest + c) && Run(s, a + c, y) == Run(Turn(s, a, x), rest + c, y)
  {
    SameFrame(s, a, c, y, x);
    RoomyRest(a + c);
    RunGoes(s, a + c, y);
  }

  /** Bytes can be handed over in two parts, whatever lies behind them in the buffer. */
  lemma {:induction false} TwoParts(s: Session, a: seq<byte>, c: seq<byte>, x: seq<byte>, y: seq<byte>, z: seq<byte>)
    requires Roomy(a + c) && |x| >= 4 && |y| >= 4 && |z| >= 4
    ensures var r := Run(s, a, x); Run(s, a + c, y) == Run(r.session, r.rest + c, z) && Roomy(r.rest + c)
    decreases |a|
  {
    if Complete(a) && !s.goaway {
      RunGoes(s, a, x);
      RunFront(s, a, c, x, y);
      TwoParts(Turn(s, a, x), a[FrameSize(a)..], c, x, y, z);
    } else {
      Independent(s, a + c, y, z);
    }
  }

  /** What lies behind the received bytes does not matter. */
  lemma {:induction false} Independent(s: Session, b: seq<byte>, y: seq<byte>, z: seq<byte>)
    requires Roomy(b) && |y| >= 4 && |z| >= 4
    ensures Run(s, b, y) == Run(s, b, z)
    decreases |b|
  {
    if Complete(b) && !s.goaway {
      assert b + [] == b;
      SameFrame(s, b, [], y, z);
      Independent(Turn(s, b, y), b[FrameSize(b)..], y, z);
    }
  }

  /** A received chunk and the bytes of the buffer behind it. */
  datatype Chunk = Chunk(bytes: seq<byte>, beyond: seq<byte>)

  function Concat(chunks: seq<Chunk>): seq<byte> { if chunks == [] then [] else chunks[0].bytes + Concat(chunks[1..]) }

  /** One call for each chunk, each on what the call before left. */
  function Feed(s: Session, tail: seq<byte>, chunks: seq<Chunk>): Outcome
    requires forall i :: 0 <= i < |chunks| ==> |chunks[i].beyond| >= 4
    decreases |chunks|
  {
    if chunks == [] then Outcome(s, tail)
    else
      var r := Run(s, tail + chunks[0].bytes, chunks[0].beyond);
      Feed(r.session, r.rest, chunks[1..])
  }

  lemma {:induction false} RestWaits(s: Session, b: seq<byte>, x: seq<byte>, y: seq<byte>)
    requires |x| >= 4 && |y| >= 4
    ensures var r := Run(s, b, x); Run(r.session, r.rest, y) == r
    decreases |b|
  {
    if Complete(b) && !s.goaway { RestWaits(Turn(s, b, x), b[FrameSize(b)..], x, y); }
  }

  /** Every split into chunks has the effect of one call on the whole stream. */
  lemma {:induction false} ChunksAgree(s: Session, tail: seq<byte>, chunks: seq<Chunk>, beyond: seq<byte>)
    requires (forall i :: 0 <= i < |chunks| ==> |chunks[i].beyond| >= 4) && |beyond| >= 4
    requires Roomy(tail + Concat(chunks)) && Run(s, tail, beyond) == Outcome(s, tail)
    ensures Feed(s, tail, chunks) == Run(s, tail + Concat(chunks), beyond)
    decreases |chunks|
  {
    if chunks == [] {
      assert tail + [] == tail;
    } else {
      var first, later := tail + chunks[0].bytes, Concat(chunks[1..]);
      assert tail + Concat(chunks) == first + later;
      var r := Run(s, first, chunks[0].beyond);
      TwoParts(s, first, later, chunks[0].beyond, beyond, beyond);
      RestWaits(s, first, chunks[0].beyond, beyond);
      ChunksAgree(r.session, r.rest, chunks[1..], beyond);
    }
  }

  /** Bytes behind a window update of k bytes that differ in the last one of its increment. */
  lemma Beyond(b: seq<byte>, k: nat) returns (x: seq<byte>, y: seq<byte>)
    requires k < 4 && |b| == 9 + k
    ensures |x| == |y| == 4
    ensures var v := Number((b + x)[9..13]); v % 256 == 0 && Number((b + y)[9..13]) == v + 1
  {
    x := [0, 0, 0, 0];
    y := x[3 - k := 1];
    var v, w := (b + x)[9..13], (b + y)[9..13];
    assert w == v[3 := 1] && v[3] == 0;
  }

  lemma ShortUpdate(s: Session, b: seq<byte>) returns (x: seq<byte>, y: seq<byte>)
    requires Complete(b) && |b| == FrameSize(b)
    requires ReadHeader(b).kind == WINDOW_UPDATE && ReadHeader(b).length < 4
    ensures |x| == |y| == 4 && Turn(s, b, x) != Turn(s, b, y)
  {
    x, y := Beyond(b, ReadHeader(b).length);
    Counts(s.window, Number((b + x)[9..13]));
    assert Turn(s, b, x).window != Turn(s, b, y).window;
  }

  lemma WholeFrame(s: Session, b: seq<byte>, x: seq<byte>, y: seq<byte>)
    requires Complete(b) && |x| == |y| == 4 && !(ReadHeader(b).kind == WINDOW_UPDATE && ReadHeader(b).length < 4)
    ensures Turn(s, b, x) == Turn(s, b, y)
  {
    if ReadHeader(b).kind == WINDOW_UPDATE { assert (b + x)[9..13] == (b + y)[9..13]; }
  }

  /** One whole frame by itself determines its effect exactly when it is no window update
      shorter than its increment; such a one takes the missing bytes from the buffer. */
  lemma FrameDetermines(s: Session, b: seq<byte>)
    requires Complete(b) && |b| == FrameSize(b)
    ensures (forall x: seq<byte>, y: seq<byte> :: |x| == |y| == 4 ==> Turn(s, b, x) == Turn(s, b, y))
      <==> !(ReadHeader(b).kind == WINDOW_UPDATE && ReadHeader(b).length < 4)
  {
    if ReadHeader(b).kind == WINDOW_UPDATE && ReadHeader(b).length < 4 {
      var x, y := ShortUpdate(s, b);
    } else {
      forall x: seq<byte>, y: seq<byte> | |x| == |y| == 4 ensures Turn(s, b, x) == Turn(s, b, y) {
        WholeFrame(s, b, x, y);
      }
    }
  }

  lemma Counts(window: int, v: nat)
    requires v % 256 == 0
    ensures Int32(window + v % 0x8000_0000) != Int32(window + (v + 1) % 0x8000_0000)
  {
    NoCarry(v);
    OneApart(window + v % 0x8000_0000);
  }

  lemma NoCarry(v: nat)
    requires v % 256 == 0
    ensures (v + 1) % 0x8000_0000 == v % 0x8000_0000 + 1
  {
    var q, r: nat := v / 0x8000_0000, v % 0x8000_0000;
    assert r == 256 * (v / 256 - q * 0x80_0000);
    Remainder(v + 1, q, 0x8000_0000, r + 1);
  }

  lemma OneApart(n: int)
    ensures Int32(n) != Int32(n + 1)
  {
    var q, r: nat := n / 0x1_0000_0000, n % 0x1_0000_0000;
    if r + 1 < 0x1_0000_0000 { Remainder(n + 1, q, 0x1_0000_0000, r + 1); }
    else { Remainder(n + 1, q + 1, 0x1_0000_0000, 0); }
  }

  // ----- frames on the wire -----

  datatype WireFrame = WireFrame(header: Header, payload: seq<byte>)

  predicate Sendable(f: WireFrame) {
    |f.payload| == f.header.length < 0x100_0000 && f.header.id < 0x8000_0000
    && (f.header.kind == WINDOW_UPDATE ==> f.header.length >= 4)
  }

  function EncodeAll(fs: seq<WireFrame>): seq<byte> {
    if fs == [] then [] else WriteHeader(fs[0].header) + fs[0].payload + EncodeAll(fs[1..])
  }

  /** The session after the frames up to the first GOAWAY, and the frames behind it. */
  function HandleAll(s: Session, fs: seq<WireFrame>): (Session, seq<WireFrame>)
    requires forall i :: 0 <= i < |fs| ==> Sendable(fs[i])
    decreases |fs|
  {
    if s.goaway || fs == [] then (s, fs)
    else
      var f := fs[0];
      HandleAll(Handle(s, f.header, f.payload, if |f.payload| >= 4 then Number(f.payload[..4]) else 0), fs[1..])
  }

  /** The parser inverts the encoding of any sequence of frames, up to the first GOAWAY. */
  lemma {:induction false} FramesArrive(s: Session, fs: seq<WireFrame>, beyond: seq<byte>)
    requires (forall i :: 0 <= i < |fs| ==> Sendable(fs[i])) && |beyond| >= 4
    ensures var (t, left) := HandleAll(s, fs); Run(s, EncodeAll(fs), beyond) == Outcome(t, EncodeAll(left))
    decreases |fs|
  {
    if !s.goaway && fs != [] {
      var f, rest := fs[0], EncodeAll(fs[1..]);
      var b := EncodeAll(fs);
      FrontFrame(s, f, rest, beyond);
      FramesArrive(Turn(s, b, beyond), fs[1..], beyond);
    }
  }

  lemma FrontFrame(s: Session, f: WireFrame, rest: seq<byte>, beyond: seq<byte>)
    requires Sendable(f) && |beyond| >= 4
    ensures var b := WriteHeader(f.header) + f.payload + rest;
      && Complete(b) && FrameSize(b) == 9 + |f.payload| && b[FrameSize(b)..] == rest
      && Turn(s, b, beyond) == Handle(s, f.header, f.payload, if |f.payload| >= 4 then Number(f.payload[..4]) else 0)
  {
    var w := WriteHeader(f.header);
    var b := w + f.payload + rest;
    ReadWrite(f.header);
    assert b[..3] == w[..3] && b[5..9] == w[5..9];
    assert ReadHeader(b) == f.header;
    assert b[9..FrameSize(b)] == f.payload;
    if |f.payload| >= 4 { assert (b + beyond)[9..13] == f.payload[..4]; }
  }

  /** A stream of frames with whole window updates is roomy, so chunks do not matter for it. */
  lemma {:induction false} FramesAreRoomy(fs: seq<WireFrame>)
    requires forall i :: 0 <= i < |fs| ==> Sendable(fs[i])
    ensures Roomy(EncodeAll(fs))
  {
    if fs != [] {
      FramesAreRoomy(fs[1..]);
      FrontFrame(Session(false, 0, []), fs[0], EncodeAll(fs[1..]), [0, 0, 0, 0]);
      var w := WriteHeader(fs[0].header);
      assert EncodeAll(fs)[..3] == w[..3] && EncodeAll(fs)[5..9] == w[5..9];
      ReadWrite(fs[0].header);
    }
  }

  /** Frames sent in any chunks are dispatched as they were sent, up to the first GOAWAY, whatever lies
      behind each chunk in the buffer. */
  lemma FramesArriveInChunks(s: Session, fs: seq<WireFrame>, chunks: seq<Chunk>)
    requires forall i :: 0 <= i < |fs| ==> Sendable(fs[i])
    requires (forall i :: 0 <= i < |chunks| ==> |chunks[i].beyond| >= 4) && Concat(chunks) == EncodeAll(fs)
    ensures var (t, left) := HandleAll(s, fs); Feed(s, [], chunks) == Outcome(t, EncodeAll(left))
  {
    var beyond: seq<byte> := [0, 0, 0, 0];
    assert [] + Concat(chunks) == EncodeAll(fs);
    FramesAreRoomy(fs);
    ChunksAgree(s, [], chunks, beyond);
    FramesArrive(s, fs, beyond);
  }

  // ----- frame types by number -----

  /** What a frame hands on, by its type as section 6 of RFC 7540 numbers them. */
  function Said(h: Header, d: seq<byte>): seq<Event> {
    if h.kind == 0 then [Data(h.id, h.flags, d)]
    else if h.kind == 1 then [Headers(h.id, h.flags, d)]
    else if h.kind == 3 then [Reset(h.id)]
    else if h.kind == 4 && h.id == 0 && h.flags % 2 == 0 then [Settings(d)]
    else if h.kind == 6 then [Pong(d)]
    else []
  }

  lemma HandledByNumber(s: Session, h: Header, d: seq<byte>, word: nat)
    requires !s.goaway
    ensures var t := Handle(s, h, d, word);
      && t.events == s.events + Said(h, d) && (t.goaway <==> h.kind == 7)
      && if h.kind == 8 then Moved(s.window, word, t.window) else t.window == s.window
  {
    Int32Means(s.window + word % 0x8000_0000);
  }

  lemma OneFrameRuns(s: Session, h: Header, d: seq<byte>, beyond: seq<byte>, word: nat)
    requires Sendable(WireFrame(h, d)) && !s.goaway && |beyond| >= 4 && word == if |d| >= 4 then Number(d[..4]) else 0
    ensures Run(s, WriteHeader(h) + d, beyond) == Outcome(Handle(s, h, d, word), [])
  {
    var b := WriteHeader(h) + d;
    assert b + [] == b;
    FrontFrame(s, WireFrame(h, d), [], beyond);
    RunGoes(s, b, beyond);
  }

  /** A written frame of any type: only GOAWAY (7) ends the session, only WINDOW_UPDATE (8) changes the
      window, by its low 31 bits modulo 2^32. */
  lemma FrameHandled(s: Session, h: Header, d: seq<byte>, beyond: seq<byte>)
    requires |d| == h.length < 0x100_0000 && h.id < 0x8000_0000 && (h.kind == 8 ==> |d| >= 4) && !s.goaway && |beyond| >= 4
    ensures var r := Run(s, WriteHeader(h) + d, beyond);
      && r.rest == [] && r.session.events == s.events + Said(h, d) && (r.session.goaway <==> h.kind == 7)
      && if h.kind == 8 then Moved(s.window, Number(d[..4]), r.session.window) else r.session.window == s.window
  {
    var word := if |d| >= 4 then Number(d[..4]) else 0;
    OneFrameRuns(s, h, d, beyond, word);
    HandledByNumber(s, h, d, word);
  }

  predicate Moved(window: int, word: int, after: int) {
    -0x8000_0000 <= after <= 0x7fff_ffff && (after - (window + word % 0x8000_0000)) % 0x1_0000_0000 == 0
  }
}
