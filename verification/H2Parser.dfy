/** The HTTP/2 frame loop of the server runtime on a connection's receive buffer. */
module H2Parser {
  import opened Bytes
  import opened H2Stream

  class H2Conn {
    var buf: array<byte>
    var bufUsed: nat
    var goaway: bool
    var window: int
    var events: seq<Event>

    constructor (buf: array<byte>)
      requires buf.Length >= 4
      ensures Valid() && this.buf == buf && bufUsed == 0 && State() == Session(false, 65535, [])
    {
      this.buf, bufUsed, goaway, window, events := buf, 0, false, 65535, [];
    }

    /** The buffer always has spare room behind the received bytes. */
    ghost predicate Valid()
      reads this
    {
      bufUsed + 4 <= buf.Length
    }

    ghost function State(): Session
      reads this
    {
      Session(goaway, window, events)
    }

    /** Writes a frame header at the front of a buffer. */
    static method WriteFrameHeader(b: array<byte>, length: nat, kind: byte, flags: byte, id: nat) returns (n: nat)
      requires b.Length >= 9 && length < 0x1_0000_0000 && id < 0x1_0000_0000
      modifies b
      ensures n == 9 && b[..] == WriteHeader(Header(length, kind, flags, id)) + old(b[9..])
    {
      ghost var tail := b[9..];
      b[0], b[1], b[2] := length / 0x1_0000 % 256, length / 0x100 % 256, length % 256;
      b[3], b[4] := kind, flags;
      b[5], b[6], b[7], b[8] := id / 0x100_0000 % 256, id / 0x1_0000 % 256, id / 0x100 % 256, id % 256;
      assert b[..3] == Cut(length, 3) && b[3..5] == [kind, flags] && b[5..9] == Cut(id, 4) && b[9..] == tail;
      assert b[..] == b[..3] + b[3..5] + b[5..9] + b[9..];
      return 9;
    }

    static lemma HeaderBytes(all: seq<byte>, pos: nat, len: nat)
      requires pos + 9 <= len <= |all|
      ensures var v := all[pos..len];
        && v[..3] == [all[pos], all[pos + 1], all[pos + 2]] && v[3] == all[pos + 3] && v[4] == all[pos + 4]
        && v[5..9] == [all[pos + 5], all[pos + 6], all[pos + 7], all[pos + 8]]
    {
      var v := all[pos..len];
      assert forall k :: 0 <= k < 9 ==> v[k] == all[pos + k];
    }

    /** Reads the frame header at a position and moves the position behind it. */
    static method ReadFrame(b: array<byte>, pos: nat, len: nat) returns (ok: bool, next: nat, h: Header)
      requires len <= b.Length
      ensures ok <==> pos + 9 <= len
      ensures ok ==> next == pos + 9 && h == ReadHeader(b[pos..len])
      ensures !ok ==> next == pos
    {
      if pos + 9 > len { return false, pos, Header(0, 0, 0, 0); }
      var length := b[pos] as int * 0x1_0000 + b[pos + 1] as int * 0x100 + b[pos + 2] as int;
      var id := b[pos + 5] as int * 0x100_0000 + b[pos + 6] as int * 0x1_0000 + b[pos + 7] as int * 0x100 + b[pos + 8] as int;
      assert b[pos..len] == b[..][pos..len];
      HeaderBytes(b[..], pos, len);
      return true, pos + 9, Header(length, b[pos + 3], b[pos + 4], id % 0x8000_0000);
    }

    /** One frame, whose payload starts at a position. */
    method HandleFrame(h: Header, pos: nat)
      requires Valid() && pos + h.length <= bufUsed
      modifies `goaway, `window, `events
      ensures State() == Handle(old(State()), h, buf[pos..pos + h.length], Number(buf[pos..pos + 4]))
    {
      if h.kind == SETTINGS {
        if h.id == 0 {
          if h.flags % 2 == 0 { events := events + [Settings(buf[pos..pos + h.length])]; }
        }
      } else if h.kind == HEADERS {
        events := events + [Headers(h.id, h.flags, buf[pos..pos + h.length])];
      } else if h.kind == DATA {
        events := events + [Data(h.id, h.flags, buf[pos..pos + h.length])];
      } else if h.kind == RST_STREAM {
        events := events + [Reset(h.id)];
      } else if h.kind == PING {
        events := events + [Pong(buf[pos..pos + h.length])];
      } else if h.kind == GOAWAY {
        goaway := true;
      } else if h.kind == WINDOW_UPDATE {
        var inc := buf[pos] as int * 0x100_0000 + buf[pos + 1] as int * 0x1_0000 + buf[pos + 2] as int * 0x100 + buf[pos + 3] as int;
        window := Int32(window + inc % 0x8000_0000);
      }
    }

    /** One call: every complete frame up to a GOAWAY is handled and the rest moved to the front. */
    method ProcessData() returns (code: int)
      requires Valid()
      modifies this, buf
      ensures Valid() && buf == old(buf)
      ensures var r := Run(old(State()), old(buf[..bufUsed]), old(buf[bufUsed..]));
        State() == r.session && buf[..bufUsed] == r.rest && code == if r.session.goaway then 1 else 0
    {
      var pos := ReadFrames();
      if pos < bufUsed {
        MoveDown(buf, pos, bufUsed - pos);
        bufUsed := bufUsed - pos;
      } else {
        bufUsed := 0;
      }
      if goaway { return 1; }
      return 0;
    }

    /** The loop over the buffer, up to the position where it stops. */
    method ReadFrames() returns (pos: nat)
      requires Valid()
      modifies `goaway, `window, `events
      ensures pos <= bufUsed
      ensures var r := Run(old(State()), old(buf[..bufUsed]), old(buf[bufUsed..])); State() == r.session && buf[pos..bufUsed] == r.rest
    {
      pos := 0;
      ghost var start, raw, beyond := State(), buf[..bufUsed], buf[bufUsed..];
      assert buf[0..bufUsed] == raw;
      LeadsStart(start, raw, beyond);
      while pos + 9 <= bufUsed && !goaway
        invariant pos <= bufUsed
        invariant Leads(start, raw, beyond, State(), buf[pos..bufUsed])
        decreases bufUsed - pos
      {
        ghost var b, s := buf[pos..bufUsed], State();
        var next, complete := OneFrame(pos);
        if !complete {
          LeadsEnd(start, raw, beyond, s, b);
          return;
        }
        LeadsOn(start, raw, beyond, s, b);
        pos := next;
      }
      LeadsEnd(start, raw, beyond, State(), buf[pos..bufUsed]);
    }

    /** The frame at a position, if it is complete. */
    method OneFrame(pos: nat) returns (next: nat, complete: bool)
      requires Valid() && pos + 9 <= bufUsed
      modifies `goaway, `window, `events
      ensures complete <==> Complete(buf[pos..bufUsed])
      ensures !complete ==> State() == old(State())
      ensures complete ==> State() == Turn(old(State()), buf[pos..bufUsed], buf[bufUsed..])
      ensures complete ==> pos < next <= bufUsed && buf[next..bufUsed] == buf[pos..bufUsed][FrameSize(buf[pos..bufUsed])..]
    {
      var ok, at, h := ReadFrame(buf, pos, bufUsed);
      if at + h.length > bufUsed { return pos, false; }
      Slices(buf[..], pos, bufUsed, h.length);
      HandleFrame(h, at);
      return at + h.length, true;
    }
  }

  lemma Slices(all: seq<byte>, pos: nat, used: nat, n: nat)
    requires pos + 9 + n <= used <= |all| - 4
    ensures var b := all[pos..used];
      && b[9..9 + n] == all[pos + 9..pos + 9 + n] && b[9 + n..] == all[pos + 9 + n..used]
      && (b + all[used..])[9..13] == all[pos + 9..pos + 13]
  {
    assert all[pos..used] + all[used..] == all[pos..];
  }

  function Mark(s: Session, rest: seq<byte>, u: bool): bool { true }

  /** A run that goes on from a session with some bytes unread. */
  ghost predicate Leads(start: Session, raw: seq<byte>, beyond: seq<byte>, s: Session, rest: seq<byte>)
    requires |beyond| >= 4
  {
    forall u {:trigger Mark(s, rest, u)} :: Mark(s, rest, u) ==> Run(start, raw, beyond) == Run(s, rest, beyond)
  }

  lemma LeadsStart(s: Session, raw: seq<byte>, beyond: seq<byte>)
    requires |beyond| >= 4
    ensures Leads(s, raw, beyond, s, raw)
  {}

  lemma LeadsOn(start: Session, raw: seq<byte>, beyond: seq<byte>, s: Session, b: seq<byte>)
    requires |beyond| >= 4 && Leads(start, raw, beyond, s, b) && Complete(b) && !s.goaway
    ensures Leads(start, raw, beyond, Turn(s, b, beyond), b[FrameSize(b)..])
  {
    assert Mark(s, b, true);
  }

  lemma LeadsEnd(start: Session, raw: seq<byte>, beyond: seq<byte>, s: Session, b: seq<byte>)
    requires |beyond| >= 4 && Leads(start, raw, beyond, s, b) && (!Complete(b) || s.goaway)
    ensures Run(start, raw, beyond) == Outcome(s, b)
  {
    assert Mark(s, b, true);
  }
}
