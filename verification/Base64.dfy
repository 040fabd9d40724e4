/** Base64 as the server runtime writes and reads it (RFC 4648, section 4). */
module Base64 {
  import opened Bytes

  const TABLE := "ABCDEFGHIJKLMNOPQRSTUVWXYZ" + "abcdefghijklmnopqrstuvwxyz" + "0123456789+/"

  function Digit(k: nat): (c: char)
    requires k < 64
  {
    if k < 26 then ('A' as int + k) as char
    else if k < 52 then ('a' as int + (k - 26)) as char
    else if k < 62 then ('0' as int + (k - 52)) as char
    else if k == 62 then '+' else '/'
  }

  /** The digits are those of the table. */
  lemma DigitsFromTable(k: nat)
    requires k < 64
    ensures TABLE[k] == Digit(k)
  {
    match k
    case 0 => case 1 => case 2 => case 3 => case 4 => case 5 => case 6 => case 7 => case 8 => case 9 => case 10 => case 11 =>
    case 12 => case 13 => case 14 => case 15 => case 16 => case 17 => case 18 => case 19 => case 20 => case 21 => case 22 => case 23 =>
    case 24 => case 25 => case 26 => case 27 => case 28 => case 29 => case 30 => case 31 => case 32 => case 33 => case 34 => case 35 =>
    case 36 => case 37 => case 38 => case 39 => case 40 => case 41 => case 42 => case 43 => case 44 => case 45 => case 46 => case 47 =>
    case 48 => case 49 => case 50 => case 51 => case 52 => case 53 => case 54 => case 55 => case 56 => case 57 => case 58 => case 59 =>
    case 60 => case 61 => case 62 => case 63 =>
  }

  /** The value of a digit, or -1. */
  function Value(c: char): (v: int)
    ensures -1 <= v < 64
  {
    if 'A' <= c <= 'Z' then c as int - 'A' as int
    else if 'a' <= c <= 'z' then c as int - 'a' as int + 26
    else if '0' <= c <= '9' then c as int - '0' as int + 52
    else if c == '+' then 62
    else if c == '/' then 63
    else -1
  }

  lemma ValueOfDigit(k: nat)
    requires k < 64
    ensures Value(Digit(k)) == k && Digit(k) != '='
  {}

  /** Three bytes as one number, missing ones as zero. */
  function Triple(b: seq<byte>): (v: nat)
    requires b != []
    ensures v < 0x100_0000
  {
    b[0] as int * 0x1_0000 + (if |b| > 1 then b[1] as int * 0x100 else 0) + (if |b| > 2 then b[2] as int else 0)
  }

  function Four(q: nat, r: nat, t: nat, u: nat, n: nat): (g: string)
    requires q < 64 && r < 64 && t < 64 && u < 64
    ensures |g| == 4
  {
    [Digit(q), Digit(r), if n > 1 then Digit(t) else '=', if n > 2 then Digit(u) else '=']
  }

  function Group(b: seq<byte>): (g: string)
    requires b != []
    ensures |g| == 4
  {
    var v := Triple(b);
    Four(v / 0x4_0000 % 64, v / 0x1000 % 64, v / 64 % 64, v % 64, |b|)
  }

  function Encoded(b: seq<byte>): string {
    if b == [] then "" else if |b| <= 3 then Group(b) else Group(b) + Encoded(b[3..])
  }

  // ----- reading -----

  /** The character at a position; the terminating zero is the only one read behind the end. */
  function At(s: string, i: nat): char { if i < |s| then s[i] else '\0' }

  /** A digit, zero for padding, for the end and for anything else. */
  function Lenient(s: string, i: nat): (v: nat)
    ensures v < 64
  {
    if i < |s| && s[i] != '=' && Value(s[i]) >= 0 then Value(s[i]) else 0
  }

  function Bits(a: nat, b: nat, c: nat, d: nat): (t: nat)
    requires a < 64 && b < 64 && c < 64 && d < 64
    ensures t < 0x100_0000
  {
    a * 0x4_0000 + b * 0x1000 + c * 64 + d
  }

  function ThreeBytes(t: nat): (b: seq<byte>)
    requires t < 0x100_0000
    ensures |b| == 3
  {
    [t / 0x1_0000, t / 0x100 % 256, t % 256]
  }

  function OutLen(s: string): (n: nat) {
    var n := |s|;
    var m := n / 4 * 3 - (if n > 0 && s[n - 1] == '=' then 1 else 0) - (if n > 1 && s[n - 2] == '=' then 1 else 0);
    if m < 0 then 0 else m
  }

  /** The bytes written from position i on when room is left for so many. */
  function Written(s: string, i: nat, room: nat): (r: seq<byte>)
    ensures |r| <= room
    decreases room
  {
    if i >= |s| || room == 0 then []
    else
      var a, b := Value(s[i]), Value(At(s, i + 1));
      if a < 0 || b < 0 then []
      else
        var three := ThreeBytes(Bits(a, b, Lenient(s, i + 2), Lenient(s, i + 3)));
        if room <= 3 then three[..room] else three + Written(s, i + 4, room - 3)
  }

  // ----- reading inverts writing -----

  lemma FourBack(q: nat, r: nat, t: nat, u: nat, n: nat)
    requires q < 64 && r < 64 && t < 64 && u < 64 && (n <= 1 ==> t == 0) && (n <= 2 ==> u == 0)
    ensures var g := Four(q, r, t, u, n); Value(g[0]) == q && Value(g[1]) == r && Lenient(g, 2) == t && Lenient(g, 3) == u
  {
    ValueOfDigit(q);
    ValueOfDigit(r);
    ValueOfDigit(t);
    ValueOfDigit(u);
  }

  /** The number that the reader puts together from four characters. */
  function Joined(g: string): (t: nat)
    requires |g| == 4 && Value(g[0]) >= 0 && Value(g[1]) >= 0
    ensures t < 0x100_0000
  {
    Bits(Value(g[0]), Value(g[1]), Lenient(g, 2), Lenient(g, 3))
  }

  lemma GroupBack(b: seq<byte>)
    requires b != []
    ensures Value(Group(b)[0]) >= 0 && Value(Group(b)[1]) >= 0 && Joined(Group(b)) == Triple(b)
  {
    var v := Triple(b);
    Padding(b);
    FourBack(v / 0x4_0000 % 64, v / 0x1000 % 64, v / 64 % 64, v % 64, |b|);
    Sextets(v);
  }

  lemma TripleBack(b: seq<byte>)
    requires b != []
    ensures var k := if |b| < 3 then |b| else 3; ThreeBytes(Triple(b))[..k] == b[..k]
  {
    Octets(b[0], if |b| > 1 then b[1] else 0, if |b| > 2 then b[2] else 0);
  }

  lemma Padding(b: seq<byte>)
    requires b != []
    ensures |b| <= 2 ==> Triple(b) % 64 == 0
    ensures |b| <= 1 ==> Triple(b) / 64 % 64 == 0
  {
    if |b| == 1 { assert Triple(b) == b[0] as int * 0x400 * 64; }
  }

  /** A 24-bit number is the four sextets it is cut into. */
  lemma Sextets(v: nat)
    requires v < 0x100_0000
    ensures Bits(v / 0x4_0000 % 64, v / 0x1000 % 64, v / 64 % 64, v % 64) == v
  {
    var x := v / 64;
    var y := x / 64;
    var z := y / 64;
    Remainder(v, y, 0x1000, x % 64 * 64 + v % 64);
    Remainder(v, z, 0x4_0000, y % 64 * 0x1000 + x % 64 * 64 + v % 64);
    assert z % 64 == z;
  }

  lemma Octets(x: byte, y: byte, z: byte)
    ensures ThreeBytes(x as int * 0x1_0000 + y as int * 0x100 + z as int) == [x, y, z]
  {
    var w: int := x as int * 0x100 + y as int;
    var v: int := w * 0x100 + z as int;
    Remainder(v, x, 0x1_0000, y as int * 0x100 + z as int);
    Remainder(v, w, 0x100, z);
    Remainder(w, x, 0x100, y);
  }

  /** One turn of the reader on four characters. */
  lemma OneGroup(p: string, g: string, rest: string, room: nat)
    requires |g| == 4 && Value(g[0]) >= 0 && Value(g[1]) >= 0 && room > 0
    ensures Written(p + g + rest, |p|, room)
      == if room <= 3 then ThreeBytes(Joined(g))[..room] else ThreeBytes(Joined(g)) + Written(p + g + rest, |p| + 4, room - 3)
  {
    var s, i := p + g + rest, |p|;
    assert s[i] == g[0] && s[i + 1] == g[1] && s[i + 2] == g[2] && s[i + 3] == g[3];
  }

  lemma GroupWritten(p: string, b: seq<byte>, rest: string)
    requires b != []
    ensures var s := p + Group(b) + rest;
      Written(s, |p|, |b|) == if |b| <= 3 then b else b[..3] + Written(s, |p| + 4, |b| - 3)
  {
    GroupBack(b);
    TripleBack(b);
    OneGroup(p, Group(b), rest, |b|);
    var three := ThreeBytes(Joined(Group(b)));
    assert b[..|b|] == b && three[..3] == three;
  }

  function Told(e: string, b: seq<byte>, u: bool): bool { true }

  /** e is the encoding of b; what its groups look like does not matter here. */
  ghost predicate Encodes(e: string, b: seq<byte>) {
    forall u {:trigger Told(e, b, u)} :: Told(e, b, u) ==> e == Encoded(b)
  }

  lemma EncodesMean(e: string, b: seq<byte>)
    ensures Encodes(e, b) <==> e == Encoded(b)
  {
    assert Told(e, b, true);
  }

  /** The first group and the rest. */
  lemma FirstGroup(p: string, e: string, b: seq<byte>) returns (g: string, rest: string)
    requires b != [] && Encodes(e, b)
    ensures e == g + rest && |g| == 4 && if |b| <= 3 then rest == "" else Encodes(rest, b[3..])
    ensures var s := p + g + rest; Written(s, |p|, |b|) == if |b| <= 3 then b else b[..3] + Written(s, |p| + 4, |b| - 3)
  {
    EncodesMean(e, b);
    g, rest := Group(b), if |b| <= 3 then "" else Encoded(b[3..]);
    if |b| > 3 { EncodesMean(rest, b[3..]); }
    GroupWritten(p, b, rest);
  }

  lemma {:induction false} WrittenBack(p: string, e: string, b: seq<byte>)
    requires Encodes(e, b)
    ensures Written(p + e, |p|, |b|) == b
    decreases |b|
  {
    if b != [] {
      var g, rest := FirstGroup(p, e, b);
      assert p + e == p + g + rest;
      if |b| > 3 {
        WrittenBack(p + g, rest, b[3..]);
        assert b == b[..3] + b[3..];
      }
    }
  }

  predicate Padded(e: string, n: nat) {
    && |e| == (n + 2) / 3 * 4
    && forall i :: 0 <= i < |e| ==> (e[i] == '=' <==> i >= |e| - (3 - n % 3) % 3) && (e[i] != '=' ==> Value(e[i]) >= 0)
  }

  lemma GroupShape(b: seq<byte>)
    requires b != []
    ensures var g := Group(b);
      forall i :: 0 <= i < 4 ==> (g[i] == '=' <==> i > |b|) && (g[i] != '=' ==> Value(g[i]) >= 0)
  {
    var v := Triple(b);
    ValueOfDigit(v / 0x4_0000 % 64);
    ValueOfDigit(v / 0x1000 % 64);
    ValueOfDigit(v / 64 % 64);
    ValueOfDigit(v % 64);
  }

  lemma PadMore(g: string, r: string, n: nat)
    requires n > 3 && |g| == 4 && (forall i :: 0 <= i < 4 ==> g[i] != '=' && Value(g[i]) >= 0) && Padded(r, n - 3)
    ensures Padded(g + r, n)
  {
    assert (n - 3) % 3 == n % 3 && (n - 3 + 2) / 3 == (n + 2) / 3 - 1;
    var e := g + r;
    forall i | 0 <= i < |e| ensures e[i] == if i < 4 then g[i] else r[i - 4] {}
  }

  /** Four characters for every three bytes begun, ending in as much padding as bytes are missing;
      everything else is a digit. */
  lemma {:induction false} Shape(b: seq<byte>)
    ensures Padded(Encoded(b), |b|)
    decreases |b|
  {
    if b != [] {
      GroupShape(b);
      if |b| > 3 {
        Shape(b[3..]);
        PadMore(Group(b), Encoded(b[3..]), |b|);
      }
    }
  }

  /** Reading gives the written bytes back. */
  lemma RoundTrip(b: seq<byte>)
    ensures OutLen(Encoded(b)) == |b| && Written(Encoded(b), 0, |b|) == b
  {
    LengthOfEncoded(b);
    EncodesMean(Encoded(b), b);
    WrittenBack("", Encoded(b), b);
    FromStart("", Encoded(b), b);
  }

  lemma LengthOfEncoded(b: seq<byte>)
    ensures OutLen(Encoded(b)) == |b|
  {
    Shape(b);
    LengthBack(Encoded(b), |b|);
  }

  lemma FromStart(p: string, e: string, b: seq<byte>)
    requires p == "" && Written(p + e, |p|, |b|) == b
    ensures Written(e, 0, |b|) == b
  {
    assert p + e == e;
  }

  lemma LengthBack(e: string, n: nat)
    requires Padded(e, n)
    ensures OutLen(e) == n
  {
    var k := (n + 2) / 3;
    assert |e| / 4 == k && (n % 3 == 0 ==> n == 3 * k) && (n % 3 == 1 ==> n == 3 * k - 2) && (n % 3 == 2 ==> n == 3 * k - 1);
  }

  // ----- the loops -----

  /** The encoding of the bytes from i on, if there are any. */
  ghost function Remaining(b: seq<byte>, i: nat): string { if i < |b| then Encoded(b[i..]) else "" }

  lemma NextGroup(b: seq<byte>, i: nat)
    requires i < |b|
    ensures Remaining(b, i) == Group(b[i..]) + Remaining(b, i + 3)
  {
    if i + 3 < |b| { assert b[i..][3..] == b[i + 3..]; }
  }

  lemma EncodedLength(b: seq<byte>)
    ensures |Encoded(b)| == (|b| + 2) / 3 * 4
  {
    Shape(b);
  }

  /** Writes the encoding and a terminating zero. */
  method Encode(b: array<byte>, out: array<char>)
    requires out.Length > (b.Length + 2) / 3 * 4
    modifies out
    ensures out[..(b.Length + 2) / 3 * 4 + 1] == Encoded(b[..]) + ['\0']
    ensures out[(b.Length + 2) / 3 * 4 + 1..] == old(out[(b.Length + 2) / 3 * 4 + 1..])
  {
    var i, j := 0, 0;
    ghost var all := b[..];
    assert all[0..] == all;
    EncodedLength(all);
    while i < b.Length
      invariant j + |Remaining(all, i)| == (b.Length + 2) / 3 * 4
      invariant Encoded(all) == out[..j] + Remaining(all, i)
      invariant out[j..] == old(out[j..])
    {
      assert old(out[j + 4..]) == old(out[j..])[4..];
      WriteGroup(b, i, out, j);
      i, j := i + 3, j + 4;
    }
    out[j] := '\0';
  }

  method WriteGroup(b: array<byte>, i: nat, out: array<char>, j: nat)
    requires i < b.Length && j + 4 <= out.Length
    modifies out
    ensures out[..j + 4] + Remaining(b[..], i + 3) == old(out[..j]) + Remaining(b[..], i)
    ensures |Remaining(b[..], i)| == 4 + |Remaining(b[..], i + 3)|
    ensures out[j + 4..] == old(out[j + 4..])
  {
    FourCharacters(b, i, out, j);
    NextGroup(b[..], i);
    assert b[..][i..] == b[i..];
    assert old(out[..j]) + Group(b[i..]) + Remaining(b[..], i + 3) == old(out[..j]) + (Group(b[i..]) + Remaining(b[..], i + 3));
  }

  method FourCharacters(b: array<byte>, i: nat, out: array<char>, j: nat)
    requires i < b.Length && j + 4 <= out.Length
    modifies out
    ensures out[..j + 4] == old(out[..j]) + Group(b[i..])
    ensures out[j + 4..] == old(out[j + 4..])
  {
    var n := if b.Length - i < 3 then b.Length - i else 3;
    var v := b[i] as int * 0x1_0000 + (if n > 1 then b[i + 1] as int * 0x100 else 0) + (if n > 2 then b[i + 2] as int else 0);
    assert v == Triple(b[i..]);
    FromTable(b[i..]);
    ghost var g := Group(b[i..]);
    WriteFour(v / 0x4_0000 % 64, v / 0x1000 % 64, v / 64 % 64, v % 64, n, out, j, g);
  }

  /** The four characters of a group, looked up in the table. */
  lemma FromTable(b: seq<byte>)
    requires b != []
    ensures var v := Triple(b);
      Group(b) == [TABLE[v / 0x4_0000 % 64], TABLE[v / 0x1000 % 64], if |b| > 1 then TABLE[v / 64 % 64] else '=', if |b| > 2 then TABLE[v % 64] else '=']
  {
    var v := Triple(b);
    FourFromTable(v / 0x4_0000 % 64, v / 0x1000 % 64, v / 64 % 64, v % 64, |b|);
  }

  lemma FourFromTable(q: nat, r: nat, t: nat, u: nat, n: nat)
    requires q < 64 && r < 64 && t < 64 && u < 64
    ensures Four(q, r, t, u, n) == [TABLE[q], TABLE[r], if n > 1 then TABLE[t] else '=', if n > 2 then TABLE[u] else '=']
  {
    DigitsFromTable(q);
    DigitsFromTable(r);
    DigitsFromTable(t);
    DigitsFromTable(u);
  }

  method WriteFour(q: nat, r: nat, t: nat, u: nat, n: nat, out: array<char>, j: nat, ghost g: string)
    requires q < 64 && r < 64 && t < 64 && u < 64 && j + 4 <= out.Length
    requires g == [TABLE[q], TABLE[r], if n > 1 then TABLE[t] else '=', if n > 2 then TABLE[u] else '=']
    modifies out
    ensures out[..j + 4] == old(out[..j]) + g
    ensures out[j + 4..] == old(out[j + 4..])
  {
    out[j] := TABLE[q];
    out[j + 1] := TABLE[r];
    out[j + 2] := if n > 1 then TABLE[t] else '=';
    out[j + 3] := if n > 2 then TABLE[u] else '=';
    assert out[j..j + 4] == g;
    assert out[..j + 4] == out[..j] + out[j..j + 4];
  }

  /** Reads a string; bytes that are never written hold whatever the allocator left there. */
  method Decode(s: string) returns (out: array<byte>, n: nat)
    ensures n == OutLen(s) && out.Length == n + 1 && fresh(out)
    ensures Written(s, 0, n) <= out[..n]
  {
    n := OutLen(s);
    out := new byte[n + 1];
    Fill(s, out, n);
  }

  method Fill(s: string, out: array<byte>, n: nat)
    requires out.Length == n + 1
    modifies out
    ensures Written(s, 0, n) <= out[..n]
  {
    var i, j := 0, 0;
    ghost var whole := Written(s, 0, n);
    ghost var rest := whole;
    TailIs(s, 0, n, rest);
    while i < |s| && j < n
      invariant j <= n && whole == out[..j] + rest && Tail(s, i, n - j, rest)
      decreases n - j
    {
      var ok;
      ok, j, rest := Round(s, i, out, j, n, rest);
      if !ok { break; }
      i := i + 4;
    }
    TailIs(s, i, n - j, rest);
    out[n] := 0;
    assert out[..j] <= out[..n];
  }

  /** One turn of the loop. */
  method Round(s: string, i: nat, out: array<byte>, j: nat, n: nat, ghost rest: seq<byte>) returns (ok: bool, next: nat, ghost left: seq<byte>)
    requires i < |s| && j < n < out.Length && Tail(s, i, n - j, rest)
    modifies out
    ensures !ok ==> left == rest == [] && next == j && out[..j] == old(out[..j])
    ensures ok ==> j < next <= n && out[..next] + left == old(out[..j]) + rest && Tail(s, i + 4, n - next, left)
  {
    var triple;
    ok, triple, left := ReadGroup(s, i, n - j, rest);
    if !ok { return ok, j, left; }
    next := Put(out, j, n, triple);
  }

  function Ask(s: string, i: nat, room: nat, u: bool): bool { true }

  /** What is still to be written. */
  ghost predicate Tail(s: string, i: nat, room: nat, rest: seq<byte>) {
    forall u {:trigger Ask(s, i, room, u)} :: Ask(s, i, room, u) ==> Written(s, i, room) == rest
  }

  lemma TailIs(s: string, i: nat, room: nat, rest: seq<byte>)
    ensures Tail(s, i, room, rest) <==> Written(s, i, room) == rest
    ensures Tail(s, i, room, rest) && (i >= |s| || room == 0) ==> rest == []
  {
    assert Ask(s, i, room, true);
  }

  /** Four characters from a position on, if they start with two digits. */
  method ReadGroup(s: string, i: nat, room: nat, ghost rest: seq<byte>) returns (ok: bool, triple: nat, ghost left: seq<byte>)
    requires i < |s| && room > 0 && Tail(s, i, room, rest)
    ensures !ok ==> left == rest == []
    ensures ok ==> triple < 0x100_0000 && var k := if room < 3 then room else 3;
      rest == ThreeBytes(triple)[..k] + left && Tail(s, i + 4, room - k, left)
  {
    var a, b := Value(s[i]), Value(At(s, i + 1));
    TailIs(s, i, room, rest);
    if a < 0 || b < 0 { return false, 0, rest; }
    OneTurn(s, i, room);
    triple := Bits(a, b, Lenient(s, i + 2), Lenient(s, i + 3));
    left := Written(s, i + 4, room - if room < 3 then room else 3);
    TailIs(s, i + 4, room - if room < 3 then room else 3, left);
    ok := true;
  }

  lemma OneTurn(s: string, i: nat, room: nat)
    requires i < |s| && room > 0 && Value(s[i]) >= 0 && Value(At(s, i + 1)) >= 0
    ensures var three := ThreeBytes(Bits(Value(s[i]), Value(At(s, i + 1)), Lenient(s, i + 2), Lenient(s, i + 3)));
      var k := if room < 3 then room else 3;
      Written(s, i, room) == three[..k] + Written(s, i + 4, room - k)
  {}

  /** As many of three bytes as there is room for. */
  method Put(out: array<byte>, j: nat, n: nat, triple: nat) returns (next: nat)
    requires j < n < out.Length && triple < 0x100_0000
    modifies out
    ensures next == (if n - j < 3 then n else j + 3) && out[..next] == old(out[..j]) + ThreeBytes(triple)[..next - j]
  {
    next := j;
    if next < n { out[next] := triple / 0x1_0000; next := next + 1; }
    if next < n { out[next] := triple / 0x100 % 256; next := next + 1; }
    if next < n { out[next] := triple % 256; next := next + 1; }
    assert out[..j] == old(out[..j]) && out[j..next] == ThreeBytes(triple)[..next - j];
    assert out[..next] == out[..j] + out[j..next];
  }

  /** Decoding what was encoded returns the original bytes. */
  method EncodeThenDecode(b: array<byte>) returns (r: array<byte>, n: nat)
    ensures n == b.Length <= r.Length && r[..n] == b[..]
  {
    var total := (b.Length + 2) / 3 * 4;
    var out := new char[total + 1];
    Encode(b, out);
    EncodedLength(b[..]);
    RoundTrip(b[..]);
    var text := out[..total];
    assert text == out[..total + 1][..total] == Encoded(b[..]);
    r, n := Decode(text);
  }
}
