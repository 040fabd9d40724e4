/** The WebSocket parser of the server runtime: it works in place on the connection's receive
    buffer and keeps its state between calls. */
module WsParser {
  import opened Bytes
  import opened WsStream
  import opened WsChunks

  datatype Reply = Reply(opcode: byte, len: int, data: seq<byte>)

  const TEXT: byte := 1
  const PING: byte := 9
  const PONG: byte := 10

  /** Text frames are echoed and pings answered; everything else is ignored. */
  function ReplyTo(f: Frame): seq<Reply> {
    if f.opcode == PING then [Reply(PONG, f.len, f.data)]
    else if f.opcode == TEXT then [Reply(TEXT, f.len, f.data)]
    else []
  }

  function Replies(frames: seq<Frame>): seq<Reply> {
    if frames == [] then [] else Replies(frames[..|frames| - 1]) + ReplyTo(frames[|frames| - 1])
  }

  function Asked(sent: seq<Reply>, frames: seq<Frame>, u: bool): bool { true }

  /** Exactly the frames delivered so far were answered, in order. */
  ghost predicate Answered(sent: seq<Reply>, frames: seq<Frame>) {
    forall u {:trigger Asked(sent, frames, u)} :: Asked(sent, frames, u) ==> sent == Replies(frames)
  }

  lemma AnsweredMeans(sent: seq<Reply>, frames: seq<Frame>)
    ensures Answered(sent, frames) <==> sent == Replies(frames)
  {
    assert Asked(sent, frames, true);
  }

  lemma AnswerOneMore(sent: seq<Reply>, frames: seq<Frame>, f: Frame)
    requires Answered(sent, frames)
    ensures Answered(sent + ReplyTo(f), frames + [f])
  {
    AnsweredMeans(sent, frames);
    assert (frames + [f])[..|frames|] == frames;
  }

  // ----- what clients are answered -----

  /** The answers to the frames that a client sends, up to a close (8) or a payload of more than
      65,536 bytes: a text frame (1) comes back, a ping (9) is answered by a pong (10). */
  function Answers(fs: seq<ClientFrame>): seq<Reply> {
    if fs == [] || Waits(fs) || |fs[0].data| > 65536 || fs[0].opcode == 8 then []
    else
      var f := fs[0];
      (if f.opcode == 1 then [Reply(1, |f.data|, f.data)] else if f.opcode == 9 then [Reply(10, |f.data|, f.data)] else []) + Answers(fs[1..])
  }

  /** The answer to a frame in front comes first. */
  lemma {:induction false} AnsweredFromFront(f: Frame, rest: seq<Frame>) returns (sent: seq<Reply>)
    ensures Answered(sent, rest) && Answered(ReplyTo(f) + sent, [f] + rest)
    decreases |rest|
  {
    if rest == [] {
      sent := [];
      AnsweredMeans(sent, []);
      AnswerOneMore(sent, [], f);
      assert [] + ReplyTo(f) == ReplyTo(f) + [] && [] + [f] == [f] + rest;
    } else {
      var init, last := rest[..|rest| - 1], rest[|rest| - 1];
      var before := AnsweredFromFront(f, init);
      AnswerOneMore(before, init, last);
      AnswerOneMore(ReplyTo(f) + before, [f] + init, last);
      sent := before + ReplyTo(last);
      assert init + [last] == rest && [f] + init + [last] == [f] + rest;
      assert ReplyTo(f) + before + ReplyTo(last) == ReplyTo(f) + sent;
    }
  }

  lemma {:induction false} RepliesAre(fs: seq<ClientFrame>)
    ensures Answered(Answers(fs), Delivered(fs))
    decreases |fs|
  {
    if Delivered(fs) == [] {
      AnsweredMeans([], []);
    } else {
      var f, rest := Delivered(fs)[0], Delivered(fs[1..]);
      RepliesAre(fs[1..]);
      var sent := AnsweredFromFront(f, rest);
      AnsweredMeans(sent, rest);
      AnsweredMeans(Answers(fs[1..]), rest);
    }
  }

  /** Every stream of encoded frames is answered so, and the connection ends with 1 at a close, with
      -1 at a payload that is too long, and goes on otherwise. */
  lemma {:induction false} StreamAnswered(ws: Ws, fs: seq<ClientFrame>)
    requires ws.phase == FrameHeader && forall i :: 0 <= i < |fs| ==> fs[i].opcode < 16 && |fs[i].data| < 0x8000_0000_0000_0000
    ensures (forall i :: 0 <= i < |fs| ==> Sendable(fs[i])) && Replies(Run(ws, EncodeAll(fs)).frames) == Answers(fs)
    ensures (forall i :: 0 <= i < |fs| ==> fs[i].opcode != 8 && |fs[i].data| <= 65536) ==> Run(ws, EncodeAll(fs)).code == 0
  {
    RoundTrip(ws, fs);
    RepliesAre(fs);
    AnsweredMeans(Answers(fs), Delivered(fs));
    if forall i :: 0 <= i < |fs| ==> fs[i].opcode != 8 && |fs[i].data| <= 65536 { GoesOn(fs); }
  }

  lemma {:induction false} GoesOn(fs: seq<ClientFrame>)
    requires forall i :: 0 <= i < |fs| ==> fs[i].opcode != 8 && |fs[i].data| <= 65536
    ensures Ending(fs) == 0
    decreases |fs|
  {
    if fs != [] { GoesOn(fs[1..]); }
  }

  /** One frame by itself: it is answered, or ends the connection. */
  lemma FrameAnswered(ws: Ws, f: ClientFrame)
    requires ws.phase == FrameHeader && f.opcode < 16 && |f.data| < 0x8000_0000_0000_0000 && (f.masked || f.data != [])
    ensures Sendable(f) && var r := Run(ws, Encode(f));
      && r.code == (if |f.data| > 65536 then -1 else if f.opcode == 8 then 1 else 0)
      && r.frames == (if r.code == 0 then [Frame(f.opcode, |f.data|, f.data)] else [])
      && Replies(r.frames) == Answers([f])
  {
    var fs := [f];
    assert EncodeAll(fs[1..]) == [] && EncodeAll(fs) == Encode(f) + [] == Encode(f);
    RoundTrip(ws, fs);
    RepliesAre(fs);
    AnsweredMeans(Answers(fs), Delivered(fs));
  }

  datatype Signal = Continue | Wait | Stop(code: int)

  class WsConn {
    var buf: array<byte>
    var bufUsed: nat
    var phase: Phase
    var fin: bool
    var opcode: byte
    var masked: bool
    var payloadLen: int
    var payloadRead: nat
    var maskKey: Key
    var payload: array?<byte>
    var sent: seq<Reply>
    ghost var frames: seq<Frame>

    constructor (buf: array<byte>)
      ensures Valid() && this.buf == buf && bufUsed == 0 && phase == FrameHeader && frames == []
    {
      this.buf, bufUsed, phase := buf, 0, FrameHeader;
      fin, opcode, masked, payloadLen, payloadRead, maskKey := false, 0, false, 0, 0, [0, 0, 0, 0];
      payload, sent, frames := null, [], [];
    }

    ghost predicate Valid()
      reads this, payload
    {
      && bufUsed <= buf.Length && payload != buf && Answered(sent, frames)
      && (payload != null <==> phase == Payload && payloadLen > 0)
      && (payload != null ==> payload.Length == payloadLen + 1 && payloadRead < payloadLen)
      && (phase == Payload ==> payloadLen != 0)
    }

    ghost function State(): Ws
      reads this, payload
      requires payload != null ==> payloadRead <= payload.Length
    {
      Ws(phase, fin, opcode, masked, payloadLen, maskKey, if payload == null then [] else payload[..payloadRead])
    }

    /** What is left of the receive buffer from a position on. */
    ghost function Unread(pos: nat): seq<byte>
      reads this, buf
      requires pos <= bufUsed <= buf.Length
    {
      buf[pos..bufUsed]
    }

    /** The receive buffer stays where it is. */
    twostate predicate Same()
      reads this
    {
      buf == old(buf) && bufUsed == old(bufUsed)
    }

    static method UnmaskInPlace(p: array<byte>, n: nat, key: Key)
      requires n <= p.Length
      modifies p
      ensures p[..n] == Unmask(key, old(p[..n]))
    {
      for i := 0 to n
        invariant forall j :: 0 <= j < i ==> p[j] == Xor(old(p[j]), key[j % 4])
        invariant forall j :: i <= j < n ==> p[j] == old(p[j])
      {
        p[i] := Xor(p[i], key[i % 4]);
      }
    }

    /** Eight bytes are shifted into the length one after the other. */
    static method ReadLength64(b: array<byte>, pos: nat) returns (len: int)
      requires pos + 8 <= b.Length
      ensures len == Signed64(BigEndian(b[pos..pos + 8]))
    {
      len := 0;
      for i := 0 to 8
        invariant len == Signed64(BigEndian(b[pos..pos + i]))
      {
        ghost var seen := b[pos..pos + i];
        ToBytesBigEndian(seen);
        SmallPower(i);
        assert b[pos..pos + (i + 1)] == seen + [b[pos + i]];
        assert (seen + [b[pos + i]])[..i] == seen;
        len := Signed64(len * 256 + b[pos + i]);
      }
    }

    static method CopyInto(dst: array<byte>, at: nat, src: array<byte>, pos: nat, n: nat)
      requires at + n <= dst.Length && pos + n <= src.Length && dst != src
      modifies dst
      ensures dst[..at + n] == old(dst[..at]) + src[pos..pos + n]
    {
      forall i | 0 <= i < n { dst[at + i] := src[pos + i]; }
    }

    /** The payload as the client meant it. */
    ghost function Data(): seq<byte>
      reads this, payload
      requires payload != null ==> payloadRead <= payload.Length
    {
      if masked then Unmask(maskKey, State().got) else State().got
    }

    /** A complete payload is unmasked in place and ended by a zero. */
    method Body() returns (body: seq<byte>)
      requires payload != buf
      requires payload != null ==> payload.Length == payloadLen + 1 && payloadRead == payloadLen
      modifies payload
      ensures body == old(Data())
    {
      if payload == null { return []; }
      if masked { UnmaskInPlace(payload, payloadLen, maskKey); }
      body := payload[..payloadLen];
      payload[payloadLen] := 0;
    }

    /** Answers a frame and forgets it. */
    method Dispatch(body: seq<byte>) returns (signal: Signal)
      requires Answered(sent, frames) && phase == Payload && bufUsed <= buf.Length
      modifies this
      ensures Same() && payload == null
      ensures opcode == CLOSE ==> signal == Stop(1) && frames == old(frames) && sent == old(sent)
      ensures opcode != CLOSE ==> signal == Continue && Valid() && frames == old(frames) + [Frame(opcode, payloadLen, body)]
      ensures opcode != CLOSE ==> State() == Ws(FrameHeader, old(fin), old(opcode), old(masked), old(payloadLen), old(maskKey), [])
      ensures opcode == old(opcode) && payloadLen == old(payloadLen)
    {
      payload := null;
      if opcode == CLOSE { return Stop(1); }
      AnswerOneMore(sent, frames, Frame(opcode, payloadLen, body));
      assert sent + [] == sent;
      if opcode == PING {
        sent := sent + [Reply(PONG, payloadLen, body)];
      } else if opcode == TEXT {
        sent := sent + [Reply(TEXT, payloadLen, body)];
      }
      frames := frames + [Frame(opcode, payloadLen, body)];
      phase := FrameHeader;
      return Continue;
    }

    /** A complete frame. */
    method Complete(used: nat) returns (signal: Signal)
      requires phase == Payload && payload != buf && bufUsed <= buf.Length && Answered(sent, frames)
      requires if payload == null then payloadLen <= 0 else payload.Length == payloadLen + 1 && payloadRead == payloadLen
      modifies this, payload
      ensures Same() && payload == null
      ensures var s := Finish(old(State()), used); s.Deliver? ==>
        signal == Continue && Valid() && State() == s.ws && frames == old(frames) + [s.frame]
      ensures Finish(old(State()), used).Closed? ==> signal == Stop(1) && frames == old(frames) && sent == old(sent)
    {
      var body := Body();
      signal := Dispatch(body);
    }

    /** One turn of the loop: the switch on the state, and the frame when it is complete. */
    method Take(pos: nat) returns (next: nat, signal: Signal)
      requires Valid() && pos < bufUsed
      modifies this, payload
      ensures Same() && (payload == old(payload) || payload == null || fresh(payload))
      ensures match Turn(old(State()), old(Unread(pos)))
        case Need => signal == Wait && next == pos && Valid() && State() == old(State()) && frames == old(frames)
        case Next(w, n) => signal == Continue && next == pos + n && Valid() && State() == w && frames == old(frames)
        case Deliver(w, n, f) => signal == Continue && next == pos + n && Valid() && State() == w && frames == old(frames) + [f]
        case Closed => signal == Stop(1) && frames == old(frames) && sent == old(sent)
        case TooLong => signal == Stop(-1) && frames == old(frames) && sent == old(sent)
    {
      match phase
      case FrameHeader => next, signal := TakeHeader(pos);
      case ExtLen16 =>
        if bufUsed - pos < 2 { return pos, Wait; }
        payloadLen := buf[pos] as int * 256 + buf[pos + 1] as int;
        phase := MaskKey;
        return pos + 2, Continue;
      case ExtLen64 => next, signal := TakeLength64(pos);
      case MaskKey => next, signal := TakeKey(pos);
      case Payload => next, signal := TakePayload(pos);
    }

    method TakeHeader(pos: nat) returns (next: nat, signal: Signal)
      requires Valid() && pos < bufUsed && phase == FrameHeader
      modifies this
      ensures Same() && payload == null && Valid() && frames == old(frames)
      ensures match Turn(old(State()), old(Unread(pos)))
        case Need => signal == Wait && next == pos && State() == old(State())
        case Next(w, n) => signal == Continue && next == pos + n && State() == w
        case _ => false
    {
      if bufUsed - pos < 2 { return pos, Wait; }
      assert Unread(pos)[0] == buf[pos] && Unread(pos)[1] == buf[pos + 1];
      fin, opcode, masked := buf[pos] >= 128, buf[pos] % 16, buf[pos + 1] >= 128;
      var len7 := buf[pos + 1] % 128;
      if len7 < 126 {
        payloadLen := len7;
        phase := MaskKey;
      } else if len7 == 126 {
        phase := ExtLen16;
      } else {
        phase := ExtLen64;
      }
      return pos + 2, Continue;
    }

    method TakeLength64(pos: nat) returns (next: nat, signal: Signal)
      requires Valid() && pos < bufUsed && phase == ExtLen64
      modifies this
      ensures Same() && payload == null && Valid() && frames == old(frames)
      ensures match Turn(old(State()), old(Unread(pos)))
        case Need => signal == Wait && next == pos && State() == old(State())
        case Next(w, n) => signal == Continue && next == pos + n && State() == w
        case _ => false
    {
      if bufUsed - pos < 8 { return pos, Wait; }
      assert Unread(pos)[..8] == buf[pos..pos + 8];
      payloadLen := ReadLength64(buf, pos);
      phase := MaskKey;
      return pos + 8, Continue;
    }

    method TakeKey(pos: nat) returns (next: nat, signal: Signal)
      requires Valid() && pos < bufUsed && phase == MaskKey
      modifies this
      ensures Same() && (payload == null || fresh(payload))
      ensures match Turn(old(State()), old(Unread(pos)))
        case Need => signal == Wait && next == pos && Valid() && State() == old(State()) && frames == old(frames)
        case Next(w, n) => signal == Continue && next == pos + n && Valid() && State() == w && frames == old(frames)
        case Deliver(w, n, f) => signal == Continue && next == pos + n && Valid() && State() == w && frames == old(frames) + [f]
        case Closed => signal == Stop(1) && frames == old(frames) && sent == old(sent)
        case TooLong => signal == Stop(-1) && frames == old(frames) && sent == old(sent)
    {
      next := pos;
      if masked {
        if bufUsed - pos < 4 { return pos, Wait; }
        next := ReadKey(pos);
      }
      if payloadLen > MAX_PAYLOAD { return next, Stop(-1); }
      payloadRead := 0;
      if payloadLen > 0 {
        payload := new byte[payloadLen + 1];
      }
      phase := Payload;
      signal := Continue;
      if payloadLen == 0 { signal := Complete(next - pos); }
    }

    method ReadKey(pos: nat) returns (next: nat)
      requires Valid() && pos + 4 <= bufUsed
      modifies `maskKey
      ensures next == pos + 4 && Valid() && State() == old(State()).(key := old(Unread(pos))[..4])
    {
      maskKey := buf[pos..pos + 4];
      assert Unread(pos)[..4] == buf[pos..pos + 4];
      next := pos + 4;
    }

    method TakePayload(pos: nat) returns (next: nat, signal: Signal)
      requires Valid() && pos < bufUsed && phase == Payload
      modifies this, payload
      ensures Same() && (payload == old(payload) || payload == null)
      ensures match Turn(old(State()), old(Unread(pos)))
        case Next(w, n) => signal == Continue && next == pos + n && Valid() && State() == w && frames == old(frames)
        case Deliver(w, n, f) => signal == Continue && next == pos + n && Valid() && State() == w && frames == old(frames) + [f]
        case Closed => signal == Stop(1) && frames == old(frames) && sent == old(sent)
        case _ => false
    {
      ghost var ws, b := State(), Unread(pos);
      var copy := CopyPayload(pos);
      PayloadStep(ws, b, copy);
      next := pos + copy;
      signal := Continue;
      if payloadRead >= payloadLen { signal := Complete(copy); }
    }

    /** As much of the payload as is needed and there. */
    method CopyPayload(pos: nat) returns (copy: nat)
      requires Valid() && pos < bufUsed && phase == Payload
      modifies `payloadRead, payload
      ensures payload != null ==> payloadRead <= payloadLen
      ensures var need, avail := payloadLen - |old(State()).got|, bufUsed - pos;
        copy == if need <= 0 then 0 else if avail < need then avail else need
      ensures State() == old(State()).(got := old(State()).got + old(Unread(pos))[..copy])
      ensures payload != null ==> |State().got| == payloadRead
    {
      var avail := bufUsed - pos;
      var need := payloadLen - payloadRead;
      copy := 0;
      if payload == null { return; }
      copy := if avail < need then avail else need;
      assert Unread(pos)[..copy] == buf[pos..pos + copy];
      CopyInto(payload, payloadRead, buf, pos, copy);
      payloadRead := payloadRead + copy;
    }

    /** One call: the frames in the buffer are handled and the unread bytes moved to its front,
        unless nothing was read. */
    method ProcessData() returns (code: int)
      requires Valid()
      modifies this, buf, payload
      ensures var b := old(buf[..bufUsed]); var r := Run(old(State()), b);
        && code == r.code && frames == old(frames) + r.frames && sent == Replies(frames) && buf == old(buf)
        && (code == 0 ==> Valid() && State() == r.ws && buf[..bufUsed] == Kept(b, r.rest))
    {
      var pos, stop := ReadFrames();
      AnsweredMeans(sent, frames);
      if stop != 0 { return stop; }
      Compact(pos);
      return 0;
    }

    /** The loop over the buffer: how far it read, and the code it stops with. */
    method ReadFrames() returns (pos: nat, code: int)
      requires Valid()
      modifies this, payload
      ensures Same() && (payload == old(payload) || payload == null || fresh(payload)) && pos <= old(bufUsed)
      ensures var r := Run(old(State()), old(buf[..bufUsed]));
        && code == r.code && frames == old(frames) + r.frames && Answered(sent, frames)
        && (code == 0 ==> Valid() && State() == r.ws && Unread(pos) == r.rest)
    {
      pos := 0;
      ghost var raw, done := buf[..bufUsed], [];
      assert Unread(0) == raw;
      LeadsStart(State(), raw);
      code := 0;
      while pos < bufUsed
        invariant pos <= bufUsed && Valid() && Same()
        invariant payload == old(payload) || payload == null || fresh(payload)
        invariant frames == old(frames) + done && Leads(old(State()), raw, done, State(), Unread(pos))
        decreases bufUsed - pos, Rank(phase)
      {
        var signal;
        pos, signal, done := ReadOne(pos, old(State()), raw, done);
        match signal
        case Wait => return;
        case Stop(c) =>
          code := c;
          return;
        case Continue =>
      }
      assert Unread(pos) == [];
      LeadsEnd(old(State()), raw, done, State());
    }

    /** One turn of the loop, in a run that has delivered some frames. */
    method ReadOne(pos: nat, ghost start: Ws, ghost raw: seq<byte>, ghost done: seq<Frame>)
      returns (next: nat, signal: Signal, ghost more: seq<Frame>)
      requires Valid() && pos < bufUsed && Leads(start, raw, done, State(), Unread(pos))
      modifies this, payload
      ensures Same() && (payload == old(payload) || payload == null || fresh(payload)) && pos <= next <= bufUsed
      ensures match signal
        case Wait => Valid() && frames == old(frames) && Run(start, raw) == Outcome(State(), Unread(next), done, 0)
        case Stop(c) => c != 0 && frames == old(frames) && sent == old(sent) && Run(start, raw).frames == done && Run(start, raw).code == c
        case Continue =>
          && Valid() && done <= more && frames == old(frames) + more[|done|..] && Leads(start, raw, more, State(), Unread(next))
          && (next > pos || Rank(phase) < old(Rank(phase)))
    {
      ghost var b, t := Unread(pos), Turn(State(), Unread(pos));
      LeadsOn(start, raw, done, State(), b, t);
      next, signal := Take(pos);
      more := done;
      if signal == Continue {
        assert State() == t.ws && Unread(next) == b[t.used..];
        more := done + FrameOf(t);
      } else {
        next := pos;
      }
    }

    method Compact(pos: nat)
      requires Valid() && pos <= bufUsed
      modifies `bufUsed, buf
      ensures Valid() && State() == old(State()) && buf[..bufUsed] == Kept(old(buf[..bufUsed]), old(Unread(pos)))
    {
      if pos < bufUsed && pos > 0 {
        MoveDown(buf, pos, bufUsed - pos);
        bufUsed := bufUsed - pos;
      } else {
        bufUsed := 0;
      }
    }
  }

  function Mark(ws: Ws, rest: seq<byte>, u: bool): bool { true }

  /** A run that has delivered some frames and goes on from a state with some bytes unread. */
  ghost predicate Leads(start: Ws, raw: seq<byte>, done: seq<Frame>, ws: Ws, rest: seq<byte>) {
    forall u {:trigger Mark(ws, rest, u)} :: Mark(ws, rest, u) ==> Run(start, raw) == After(done, Run(ws, rest))
  }

  lemma LeadsStart(ws: Ws, b: seq<byte>)
    ensures Leads(ws, b, [], ws, b)
  {
    assert [] + Run(ws, b).frames == Run(ws, b).frames;
  }

  /** One turn adds at most one frame to those delivered so far. */
  lemma LeadsOn(start: Ws, raw: seq<byte>, done: seq<Frame>, ws: Ws, b: seq<byte>, t: Step)
    requires b != [] && Leads(start, raw, done, ws, b) && t == Turn(ws, b)
    ensures
      && (t.Next? || t.Deliver? ==> Leads(start, raw, done + FrameOf(t), t.ws, b[t.used..]))
      && (t.Need? ==> Run(start, raw) == Outcome(ws, b, done, 0))
      && (t.Closed? ==> Run(start, raw) == Outcome(ws, b, done, 1))
      && (t.TooLong? ==> Run(start, raw) == Outcome(ws, b, done, -1))
  {
    assert Mark(ws, b, true);
    if t.Next? || t.Deliver? {
      RunGoes(ws, b);
      AfterBoth(done, FrameOf(t), Run(t.ws, b[t.used..]));
    }
  }

  lemma AfterBoth(done: seq<Frame>, more: seq<Frame>, r: Outcome)
    ensures After(done, After(more, r)) == After(done + more, r)
  {
    assert done + (more + r.frames) == done + more + r.frames;
  }

  /** A turn on payload bytes, by how many of them are taken. */
  lemma PayloadStep(ws: Ws, b: seq<byte>, copy: nat)
    requires b != [] && ws.phase == Payload
    requires var need := ws.len - |ws.got|; copy == if need <= 0 then 0 else if |b| < need then |b| else need
    ensures var w := ws.(got := ws.got + b[..copy]);
      Turn(ws, b) == if |w.got| >= ws.len then Finish(w, copy) else Next(w, copy)
  {}

  lemma LeadsEnd(start: Ws, raw: seq<byte>, done: seq<Frame>, ws: Ws)
    requires Leads(start, raw, done, ws, [])
    ensures Run(start, raw) == Outcome(ws, [], done, 0)
  {
    assert Mark(ws, [], true);
  }

  lemma SmallPower(i: nat)
    requires i < 8
    ensures Power256(i) <= 0x100_0000_0000_0000
  {
    assert Power256(7) == 0x100_0000_0000_0000;
    if i < 7 { assert Power256(6) <= Power256(7); }
  }
}
