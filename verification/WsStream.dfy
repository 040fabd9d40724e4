/** What the WebSocket frame parser does with a stream of bytes (RFC 6455, section 5.2). */
module WsStream {
  import opened Bytes

  type Key = k: seq<byte> | |k| == 4 witness [0, 0, 0, 0]

  datatype Phase = FrameHeader | ExtLen16 | ExtLen64 | MaskKey | Payload

  datatype Ws = Ws(phase: Phase, fin: bool, opcode: byte, masked: bool, len: int, key: Key, got: seq<byte>)

  datatype Frame = Frame(opcode: byte, len: int, data: seq<byte>)

  const MAX_PAYLOAD := 65536
  const CLOSE: byte := 8

  /** Every byte is combined with the byte of the key whose turn it is. */
  function Unmask(key: Key, data: seq<byte>): (r: seq<byte>)
    ensures |r| == |data|
    ensures forall i {:trigger r[i]} :: 0 <= i < |r| ==> r[i] == Xor(data[i], key[i % 4])
  {
    seq(|data|, i requires 0 <= i < |data| => Xor(data[i], key[i % 4]))
  }

  /** Eight bytes shifted into a signed 64-bit length. */
  function Signed64(n: nat): int { if n >= 0x8000_0000_0000_0000 then n - 0x1_0000_0000_0000_0000 else n }

  /** Lengths from 2^63 on are read as negative. */
  lemma SignedMeans(n: nat)
    requires n < 0x1_0000_0000_0000_0000
    ensures n < 0x8000_0000_0000_0000 ==> Signed64(n) == n
    ensures n >= 0x8000_0000_0000_0000 ==> Signed64(n) < 0 && n - Signed64(n) == 0x1_0000_0000_0000_0000
  {}

  datatype Step = Need | Next(ws: Ws, used: nat) | Deliver(ws: Ws, used: nat, frame: Frame) | Closed | TooLong

  function Finish(ws: Ws, used: nat): Step {
    if ws.opcode == CLOSE then Closed
    else
      Deliver(ws.(phase := FrameHeader, got := []), used,
              Frame(ws.opcode, ws.len, if ws.masked then Unmask(ws.key, ws.got) else ws.got))
  }

  /** One turn of the parser's loop on the unread bytes. */
  function Turn(ws: Ws, b: seq<byte>): (r: Step)
    requires b != []
    ensures r.Next? || r.Deliver? ==> r.used <= |b| && (r.used == 0 ==> Rank(r.ws.phase) < Rank(ws.phase))
  {
    match ws.phase
    case FrameHeader =>
      if |b| < 2 then Need
      else
        var len7 := b[1] % 128;
        var w := ws.(fin := b[0] >= 128, opcode := b[0] % 16, masked := b[1] >= 128);
        if len7 < 126 then Next(w.(len := len7, phase := MaskKey), 2)
        else Next(w.(phase := if len7 == 126 then ExtLen16 else ExtLen64), 2)
    case ExtLen16 => if |b| < 2 then Need else Next(ws.(len := b[0] as int * 256 + b[1] as int, phase := MaskKey), 2)
    case ExtLen64 => if |b| < 8 then Need else Next(ws.(len := Signed64(BigEndian(b[..8])), phase := MaskKey), 8)
    case MaskKey =>
      if ws.masked && |b| < 4 then Need
      else if ws.len > MAX_PAYLOAD then TooLong
      else
        var used := if ws.masked then 4 else 0;
        var w := ws.(key := if ws.masked then b[..4] else ws.key, phase := Payload, got := []);
        if ws.len == 0 then Finish(w, used) else Next(w, used)
    case Payload =>
      var need := ws.len - |ws.got|;
      var copy := if |b| < need then |b| else need;
      var used := if copy > 0 then copy else 0;
      var w := ws.(got := ws.got + b[..used]);
      if |w.got| >= w.len then Finish(w, used) else Next(w, used)
  }

  function Rank(p: Phase): nat { match p case MaskKey => 2 case Payload => 1 case _ => 0 }

  /** Bytes left unread, frames delivered, and the code returned. */
  datatype Outcome = Outcome(ws: Ws, rest: seq<byte>, frames: seq<Frame>, code: int)

  function After(frames: seq<Frame>, r: Outcome): Outcome { r.(frames := frames + r.frames) }

  function Run(ws: Ws, b: seq<byte>): Outcome
    decreases |b|, Rank(ws.phase)
  {
    if b == [] then Outcome(ws, b, [], 0)
    else
      match Turn(ws, b)
      case Need => Outcome(ws, b, [], 0)
      case Next(w, n) => Run(w, b[n..])
      case Deliver(w, n, f) => After([f], Run(w, b[n..]))
      case Closed => Outcome(ws, b, [], 1)
      case TooLong => Outcome(ws, b, [], -1)
  }

  /** The same frames and code and, while the connection lives, the same state and tail. */
  predicate Agree(r: Outcome, s: Outcome) {
    r.frames == s.frames && r.code == s.code && (r.code == 0 ==> r.ws == s.ws && r.rest == s.rest)
  }

  /** The unread bytes of a call wait for more. */
  lemma {:induction false} RestWaits(ws: Ws, b: seq<byte>)
    requires Run(ws, b).code == 0
    ensures var r := Run(ws, b); Run(r.ws, r.rest) == Outcome(r.ws, r.rest, [], 0)
    decreases |b|, Rank(ws.phase)
  {
    if b != [] {
      match Turn(ws, b)
      case Next(w, n) => RestWaits(w, b[n..]);
      case Deliver(w, n, f) => RestWaits(w, b[n..]);
      case _ =>
    }
  }

  function Combine(r: Outcome, next: Outcome): Outcome { if r.code != 0 then r else After(r.frames, next) }

  /** Bytes can be handed over in two parts. */
  lemma {:induction false} TwoParts(ws: Ws, a: seq<byte>, b: seq<byte>)
    ensures var r := Run(ws, a); Agree(Run(ws, a + b), Combine(r, Run(r.ws, r.rest + b)))
    decreases |a|, Rank(ws.phase)
  {
    if a == [] {
      assert a + b == b;
    } else {
      var t := Turn(ws, a);
      if t.Next? && ws.phase == Payload {
        PayloadParts(ws, a, b);
        assert [] + b == b;
      } else if !t.Need? {
        SameTurn(ws, a, b);
        if t.Next? || t.Deliver? {
          TwoParts(t.ws, a[t.used..], b);
          var r := Run(t.ws, a[t.used..]);
          GoOn(ws, a, b, Run(r.ws, r.rest + b));
        }
      }
    }
  }

  lemma GoOn(ws: Ws, a: seq<byte>, b: seq<byte>, next: Outcome)
    requires a != [] && Turn(ws, a + b) == Turn(ws, a) && (Turn(ws, a).Next? || Turn(ws, a).Deliver?)
    requires var t := Turn(ws, a); Agree(Run(t.ws, a[t.used..] + b), Combine(Run(t.ws, a[t.used..]), next))
    ensures Agree(Run(ws, a + b), Combine(Run(ws, a), next))
  {
    var t := Turn(ws, a);
    assert (a + b)[t.used..] == a[t.used..] + b;
    RunGoes(ws, a);
    RunGoes(ws, a + b);
    Prefixed(FrameOf(t), Run(t.ws, a[t.used..]), Run(t.ws, a[t.used..] + b), next);
  }

  function FrameOf(t: Step): seq<Frame> { if t.Deliver? then [t.frame] else [] }

  lemma RunGoes(ws: Ws, b: seq<byte>)
    requires b != [] && (Turn(ws, b).Next? || Turn(ws, b).Deliver?)
    ensures var t := Turn(ws, b); Run(ws, b) == After(FrameOf(t), Run(t.ws, b[t.used..]))
  {}

  lemma Prefixed(f: seq<Frame>, r: Outcome, whole: Outcome, next: Outcome)
    requires Agree(whole, Combine(r, next))
    ensures Agree(After(f, whole), Combine(After(f, r), next))
  {
    assert f + (r.frames + next.frames) == f + r.frames + next.frames;
  }

  /** More bytes behind do not change a turn that has enough of them. */
  lemma SameTurn(ws: Ws, a: seq<byte>, b: seq<byte>)
    requires a != [] && !Turn(ws, a).Need? && !(ws.phase == Payload && Turn(ws, a).Next?)
    ensures Turn(ws, a + b) == Turn(ws, a)
  {
    if ws.phase == ExtLen64 { assert (a + b)[..8] == a[..8]; }
    if ws.phase == MaskKey && ws.masked { assert (a + b)[..4] == a[..4]; }
    if ws.phase == Payload {
      var need := ws.len - |ws.got|;
      if need > 0 { assert (a + b)[..need] == a[..need]; }
    }
  }

  /** Part of a payload was read: what is left of it is read from the second part. */
  lemma PayloadTurn(ws: Ws, a: seq<byte>, b: seq<byte>)
    requires a != [] && b != [] && ws.phase == Payload && Turn(ws, a).Next?
    ensures match Turn(ws.(got := ws.got + a), b)
      case Next(w, n) => Turn(ws, a + b) == Next(w, |a| + n)
      case Deliver(w, n, f) => Turn(ws, a + b) == Deliver(w, |a| + n, f)
      case s => Turn(ws, a + b) == s
  {
    var w := ws.(got := ws.got + a);
    assert a[..|a|] == a;
    var need := ws.len - |w.got|;
    var used := if |b| < need then |b| else need;
    assert (a + b)[..|a| + used] == a + b[..used];
    assert ws.got + (a + b[..used]) == w.got + b[..used];
  }

  lemma PayloadParts(ws: Ws, a: seq<byte>, b: seq<byte>)
    requires a != [] && ws.phase == Payload && Turn(ws, a).Next?
    ensures Run(ws, a) == Outcome(ws.(got := ws.got + a), [], [], 0)
    ensures Agree(Run(ws, a + b), Run(ws.(got := ws.got + a), b))
  {
    var w := ws.(got := ws.got + a);
    PayloadWaits(ws, a);
    if b == [] {
      assert a + b == a;
    } else {
      PayloadTurn(ws, a, b);
      SameAfter(ws, w, a, b);
    }
  }

  lemma PayloadWaits(ws: Ws, a: seq<byte>)
    requires a != [] && ws.phase == Payload && Turn(ws, a).Next?
    ensures Run(ws, a) == Outcome(ws.(got := ws.got + a), [], [], 0)
  {
    assert a[..|a|] == a;
  }

  /** Turns that differ by the bytes in front only. */
  lemma SameAfter(ws: Ws, w: Ws, a: seq<byte>, b: seq<byte>)
    requires b != [] && match Turn(w, b)
      case Next(v, n) => Turn(ws, a + b) == Next(v, |a| + n)
      case Deliver(v, n, f) => Turn(ws, a + b) == Deliver(v, |a| + n, f)
      case Need => false
      case Closed => Turn(ws, a + b) == Closed
      case TooLong => Turn(ws, a + b) == TooLong
    ensures Agree(Run(ws, a + b), Run(w, b))
  {
    var t := Turn(w, b);
    if t.Next? || t.Deliver? { assert (a + b)[|a| + t.used..] == b[t.used..]; }
  }
}
