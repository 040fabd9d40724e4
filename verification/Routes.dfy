/** What a set of registered routes answers, on the plain list of registrations. */
module Routes {
  import opened Wrappers

  /** Kind of a pattern segment: `{name}` and `{name:int}` are placeholders. */
  datatype Kind = Literal | Placeholder(isInt: bool)

  function FirstColon(s: string, i: nat): (j: nat)
    requires i <= |s|
    ensures i <= j <= |s| && (j < |s| ==> s[j] == ':') && forall k :: i <= k < j ==> s[k] != ':'
    decreases |s| - i
  {
    if i == |s| || s[i] == ':' then i else FirstColon(s, i + 1)
  }

  function KindOf(s: string): Kind {
    var n := |s|;
    if n < 3 || s[0] != '{' || s[n - 1] != '}' then Literal
    else
      var c := FirstColon(s, 0);
      Placeholder(c < n - 1 && c + 4 == n - 1 && s[c + 1..n - 1] == "int")
  }

  /** A name in braces is a placeholder, with the suffix `:int` one for integers. */
  lemma NamedKind(n: string)
    requires n != "" && ':' !in n
    ensures KindOf("{" + n + "}") == Placeholder(false) && KindOf("{" + n + ":int}") == Placeholder(true)
  {
    var s := "{" + n + "}";
    assert forall k :: 0 < k <= |n| ==> s[k] == n[k - 1];
    assert FirstColon(s, 0) == |s|;
    IntSuffix(n);
  }

  lemma IntSuffix(n: string)
    requires ':' !in n
    ensures KindOf("{" + n + ":int}") == Placeholder(true)
  {
    var s := "{" + n + ":int}";
    var c := FirstColon(s, 0);
    assert forall k :: 0 < k <= |n| ==> s[k] == n[k - 1];
    assert s[|n| + 1] == ':' && c == |n| + 1;
    assert s[c + 1..|s| - 1] == "int";
  }

  /** Nothing else is one: a placeholder is something in braces, and for integers exactly if what
      follows the first colon is `int`. */
  lemma KindExactly(s: string)
    ensures KindOf(s).Placeholder? <==> exists n :: n != "" && s == "{" + n + "}"
    ensures KindOf(s) == Placeholder(true) <==> exists n :: ':' !in n && s == "{" + n + ":int}"
  {
    if KindOf(s).Placeholder? {
      var n := s[1..|s| - 1];
      assert n != "" && s == "{" + n + "}";
      if KindOf(s).isInt {
        var c := FirstColon(s, 0);
        assert s == "{" + s[1..c] + ":int}" && ':' !in s[1..c];
      }
    }
    forall n | ':' !in n && s == "{" + n + ":int}" ensures KindOf(s) == Placeholder(true) {
      IntSuffix(n);
    }
  }

  /** The test of an int placeholder: digits after an optional sign. */
  predicate DigitAt(s: string, k: nat)
    requires k < |s|
  {
    (k == 0 && s[k] == '-') || '0' <= s[k] <= '9'
  }

  predicate IntLike(s: string) { forall k :: 0 <= k < |s| ==> DigitAt(s, k) }

  predicate SignAndDigits(s: string, sign: string, digits: string) {
    sign in ["", "-"] && s == sign + digits && forall k :: 0 <= k < |digits| ==> digits[k] in "0123456789"
  }

  /** What passes the test is a sign or none and then digits, no other character. */
  lemma IntLikeExactly(s: string)
    ensures IntLike(s) <==> exists sign, digits :: SignAndDigits(s, sign, digits)
  {
    if IntLike(s) {
      var n := if s != "" && s[0] == '-' then 1 else 0;
      Parts(s, n);
    }
    forall sign, digits | SignAndDigits(s, sign, digits) ensures IntLike(s) {
      forall k | 0 <= k < |s| ensures DigitAt(s, k) {
        if k >= |sign| {
          assert s[k] == digits[k - |sign|];
          DigitChar(s[k]);
        }
      }
    }
  }

  lemma Parts(s: string, n: nat)
    requires IntLike(s) && n == if s != "" && s[0] == '-' then 1 else 0
    ensures SignAndDigits(s, s[..n], s[n..])
  {
    var digits := s[n..];
    forall k | 0 <= k < |digits| ensures digits[k] in "0123456789" {
      assert DigitAt(s, k + n);
      DigitChar(s[k + n]);
    }
    assert s[..n] == if n == 0 then "" else "-";
  }

  lemma DigitChar(c: char)
    ensures '0' <= c <= '9' <==> c in "0123456789"
  {
    if '0' <= c <= '9' { assert c == "0123456789"[c as int - '0' as int]; }
  }

  // ----- paths -----

  /** First slash at or after i, or the end. */
  function Slash(s: string, i: nat): (j: nat)
    requires i <= |s|
    ensures i <= j <= |s| && (j < |s| ==> s[j] == '/') && forall k :: i <= k < j ==> s[k] != '/'
    decreases |s| - i
  {
    if i == |s| || s[i] == '/' then i else Slash(s, i + 1)
  }

  const MAX_SEGMENTS := 64

  /** Segments from position i on, when some were already taken. */
  function SegmentsFrom(s: string, i: nat, taken: nat): seq<string>
    requires i <= |s|
    decreases |s| - i
  {
    if i == |s| || taken >= MAX_SEGMENTS then []
    else
      var j := Slash(s, i);
      [s[i..j]] + SegmentsFrom(s, if j < |s| then j + 1 else j, taken + 1)
  }

  /** One leading slash is skipped; at most 64 segments are kept. */
  function Segments(s: string): seq<string> {
    SegmentsFrom(s, if s != [] && s[0] == '/' then 1 else 0, 0)
  }

  // ----- routes -----

  datatype Key = Lit(s: string) | Param

  function KeyOf(s: string): Key { if KindOf(s).Placeholder? then Param else Lit(s) }

  function Keys(segs: seq<string>): (k: seq<Key>)
    ensures |k| == |segs| && forall i :: 0 <= i < |segs| ==> k[i] == KeyOf(segs[i])
  {
    seq(|segs|, i requires 0 <= i < |segs| => KeyOf(segs[i]))
  }

  datatype Route = Route(segs: seq<string>, verb: string, handler: nat, isWs: bool) {
    function Pattern(): seq<Key> { Keys(segs) }
  }

  predicate IsInt(s: string) { KindOf(s).Placeholder? && KindOf(s).isInt }

  /** Some registered pattern starts with the key. */
  predicate Present(routes: seq<Route>, k: seq<Key>) {
    k == [] || exists i :: 0 <= i < |routes| && k <= routes[i].Pattern()
  }

  /** The int test of the placeholder at the end of the key: that of the first pattern
      registered with it. */
  predicate FirstInt(routes: seq<Route>, k: seq<Key>)
    requires k != []
  {
    if routes == [] then false
    else
      var init, last := routes[..|routes| - 1], routes[|routes| - 1];
      if Present(init, k) then FirstInt(init, k) else k <= last.Pattern() && IsInt(last.segs[|k| - 1])
  }

  /** The last registration on exactly this key. */
  function LastRoute(routes: seq<Route>, k: seq<Key>): (r: Option<Route>)
    ensures r.Some? ==> r.value in routes && r.value.Pattern() == k
  {
    if routes == [] then None
    else
      var last := routes[|routes| - 1];
      if last.Pattern() == k then Some(last) else LastRoute(routes[..|routes| - 1], k)
  }

  /** The greedy walk: at each segment a literal wins over a placeholder, and there is no
      way back. */
  function Walk(routes: seq<Route>, k: seq<Key>, segs: seq<string>): Option<seq<Key>>
    decreases |segs|
  {
    if segs == [] then Some(k)
    else if Present(routes, k + [Lit(segs[0])]) then Walk(routes, k + [Lit(segs[0])], segs[1..])
    else if Present(routes, k + [Param]) && (FirstInt(routes, k + [Param]) ==> IntLike(segs[0])) then
      Walk(routes, k + [Param], segs[1..])
    else None
  }

  /** A method is stored in eight bytes, the last of them 0. */
  function Stored(m: string): string { if |m| <= 7 then m else m[..7] }

  predicate Accepts(stored: string, isWs: bool, m: string) {
    stored == m || stored == "*" || (isWs && m == "GET")
  }

  /** A registration of up to seven letters accepts its own method, and any method if it is `*`; a
      longer one only the first seven letters. A web socket is opened by GET as well. */
  lemma MethodsAccepted(verb: string, isWs: bool, m: string)
    ensures |verb| <= 7 ==> (Accepts(Stored(verb), isWs, m) <==> m == verb || verb == "*" || (isWs && m == "GET"))
    ensures |verb| > 7 ==> (Accepts(Stored(verb), isWs, m) <==> (|m| == 7 && m <= verb) || (isWs && m == "GET"))
  {}

  /** What the server does with a request, said on the list of registrations. */
  function Answer(routes: seq<Route>, segs: seq<string>, m: string): Option<Route> {
    match Walk(routes, [], segs)
    case None => None
    case Some(k) =>
      match LastRoute(routes, k)
      case None => None
      case Some(r) => if Accepts(Stored(r.verb), r.isWs, m) then Some(r) else None
  }

  // ----- facts about answers -----

  /** A key fits the segments: literals are equal, placeholders stand for anything. */
  predicate Fits(k: seq<Key>, segs: seq<string>) {
    |k| == |segs| && forall i :: 0 <= i < |k| ==> k[i] == Lit(segs[i]) || k[i] == Param
  }

  lemma {:induction false} WalkFits(routes: seq<Route>, k: seq<Key>, done: seq<string>, segs: seq<string>)
    requires Fits(k, done) && Walk(routes, k, segs).Some?
    ensures Fits(Walk(routes, k, segs).value, done + segs)
    decreases |segs|
  {
    if segs == [] {
      assert done + segs == done;
    } else {
      assert done + segs == done + [segs[0]] + segs[1..];
      if Present(routes, k + [Lit(segs[0])]) {
        WalkFits(routes, k + [Lit(segs[0])], done + [segs[0]], segs[1..]);
      } else {
        WalkFits(routes, k + [Param], done + [segs[0]], segs[1..]);
      }
    }
  }

  /** An answer is a registered route, the last one on its key, whose pattern fits the path. */
  lemma AnswerSound(routes: seq<Route>, segs: seq<string>, m: string)
    requires Answer(routes, segs, m).Some?
    ensures var r := Answer(routes, segs, m).value;
      && r in routes && LastRoute(routes, r.Pattern()) == Some(r) && |r.segs| == |segs|
      && (forall i :: 0 <= i < |segs| && KindOf(r.segs[i]).Literal? ==> r.segs[i] == segs[i])
      && Accepts(Stored(r.verb), r.isWs, m)
  {
    WalkFits(routes, [], [], segs);
    assert [] + segs == segs;
    var r := Answer(routes, segs, m).value;
    forall i | 0 <= i < |segs| && KindOf(r.segs[i]).Literal? ensures r.segs[i] == segs[i] {
      assert r.Pattern()[i] == Lit(r.segs[i]);
    }
  }

  lemma {:induction false} WalkExtends(routes: seq<Route>, k: seq<Key>, segs: seq<string>)
    requires Walk(routes, k, segs).Some?
    ensures k <= Walk(routes, k, segs).value
    decreases |segs|
  {
    if segs != [] {
      var x := if Present(routes, k + [Lit(segs[0])]) then Lit(segs[0]) else Param;
      WalkExtends(routes, k + [x], segs[1..]);
      assert k <= k + [x];
    }
  }

  /** The walk goes on along the pattern at a position: its literal is the segment, or it has a
      placeholder there, no registered pattern offers the segment as a literal instead, and the
      placeholder's test lets the segment pass. */
  predicate Passes(routes: seq<Route>, p: seq<Key>, segs: seq<string>, i: nat)
    requires i < |p| == |segs|
  {
    || p[i] == Lit(segs[i])
    || (p[i] == Param && !Present(routes, p[..i] + [Lit(segs[i])]) && (FirstInt(routes, p[..i + 1]) ==> IntLike(segs[i])))
  }

  lemma OnePass(routes: seq<Route>, r: Route, segs: seq<string>, n: nat)
    requires r in routes && n < |segs| == |r.segs|
    ensures var p := r.Pattern();
      Walk(routes, p[..n], segs[n..]) == Some(p)
      <==> Passes(routes, p, segs, n) && Walk(routes, p[..n + 1], segs[n + 1..]) == Some(p)
  {
    var p, rest := r.Pattern(), segs[n..];
    var k := p[..n];
    assert rest[0] == segs[n] && rest[1..] == segs[n + 1..];
    assert p[..n + 1] == k + [p[n]] && p[..n + 1] <= p && Present(routes, p[..n + 1]);
    var x := if Present(routes, k + [Lit(segs[n])]) then Lit(segs[n]) else Param;
    if x != p[n] && Walk(routes, k + [x], rest[1..]).Some? {
      WalkExtends(routes, k + [x], rest[1..]);
      assert (k + [x])[n] != p[n];
    }
  }

  lemma {:induction false} WalkPasses(routes: seq<Route>, r: Route, segs: seq<string>, n: nat)
    requires r in routes && n <= |segs| == |r.segs|
    ensures Walk(routes, r.Pattern()[..n], segs[n..]) == Some(r.Pattern())
      <==> forall i :: n <= i < |segs| ==> Passes(routes, r.Pattern(), segs, i)
    decreases |segs| - n
  {
    if n == |segs| {
      assert r.Pattern()[..n] == r.Pattern();
    } else {
      OnePass(routes, r, segs, n);
      WalkPasses(routes, r, segs, n + 1);
    }
  }

  /** Exactly when a registration answers: the last one on its key answers a request whose method it
      accepts if and only if the walk goes on along its pattern at every segment. */
  lemma AnswersExactly(routes: seq<Route>, r: Route, segs: seq<string>, m: string)
    requires LastRoute(routes, r.Pattern()) == Some(r) && Accepts(Stored(r.verb), r.isWs, m)
    ensures Answer(routes, segs, m) == Some(r)
      <==> |segs| == |r.segs| && forall i :: 0 <= i < |segs| ==> Passes(routes, r.Pattern(), segs, i)
  {
    assert r.Pattern()[..0] == [] && segs[0..] == segs && [] + segs == segs;
    if |segs| == |r.segs| {
      WalkPasses(routes, r, segs, 0);
    } else if Walk(routes, [], segs).Some? {
      WalkFits(routes, [], [], segs);
    }
  }

  /** Literals win: the last registration of a pattern without placeholders answers its own
      path, whatever else is registered. */
  lemma LiteralWins(routes: seq<Route>, r: Route, m: string)
    requires LastRoute(routes, r.Pattern()) == Some(r) && (forall i :: 0 <= i < |r.segs| ==> KindOf(r.segs[i]).Literal?)
    requires Accepts(Stored(r.verb), r.isWs, m)
    ensures Answer(routes, r.segs, m) == Some(r)
  {
    AnswersExactly(routes, r, r.segs, m);
  }

  /** The test of a placeholder is that of the first pattern registered with it. */
  lemma {:induction false} FirstRegistered(routes: seq<Route>, k: seq<Key>, i: nat)
    requires k != [] && i < |routes| && k <= routes[i].Pattern() && forall j :: 0 <= j < i ==> !(k <= routes[j].Pattern())
    ensures FirstInt(routes, k) == IsInt(routes[i].segs[|k| - 1])
  {
    var init := routes[..|routes| - 1];
    if i < |init| {
      assert init[i] == routes[i];
      FirstRegistered(init, k, i);
    }
  }

  lemma Unlike(k: seq<Key>, p: seq<Key>, i: nat)
    requires i < |k| && i < |p| && k[i] != p[i]
    ensures !(k <= p)
  {}

  /** The walk does not go back: with `/a/x` and `/{p}/y` registered, `/a/y` finds nothing
      although the second pattern fits it. */
  lemma GreedyMisses(r1: Route, r2: Route, a: string, x: string, y: string, m: string)
    requires r1.Pattern() == [Lit(a), Lit(x)] && r2.Pattern() == [Param, Lit(y)] && x != y
    ensures Fits(r2.Pattern(), [a, y]) && Answer([r1, r2], [a, y], m) == None
  {
    var rs := [r1, r2];
    assert Present(rs, [Lit(a)]) by { assert [Lit(a)] <= rs[0].Pattern(); }
    Absent(rs, [Lit(a), Lit(y)], 1, 0);
    Absent(rs, [Lit(a), Param], 1, 0);
    assert [Lit(a)] + [Lit(y)] == [Lit(a), Lit(y)] && [Lit(a)] + [Param] == [Lit(a), Param];
    assert Walk(rs, [Lit(a)], [y]) == None;
    assert [] + [Lit(a)] == [Lit(a)] && [a, y][1..] == [y];
  }

  lemma Absent(rs: seq<Route>, k: seq<Key>, i: nat, j: nat)
    requires |rs| == 2 && i < |k| && i < |rs[0].Pattern()| && k[i] != rs[0].Pattern()[i]
    requires j < |k| && j < |rs[1].Pattern()| && k[j] != rs[1].Pattern()[j]
    ensures !Present(rs, k)
  {
    Unlike(k, rs[0].Pattern(), i);
    Unlike(k, rs[1].Pattern(), j);
  }

  /** The int test of a placeholder is lost when one without a test was registered at the same
      place before. */
  lemma FirstTestStays(r1: Route, r2: Route, x: string, m: string)
    requires r1.Pattern() == r2.Pattern() == [Param] && !IsInt(r1.segs[0]) && IsInt(r2.segs[0]) && !IntLike(x)
    requires Accepts(Stored(r2.verb), r2.isWs, m)
    ensures Answer([r1, r2], [x], m) == Some(r2) && Answer([r2], [x], m) == None
  {
    OneParam([r2], x);
    OneParam([r1, r2], x);
    assert [r1, r2][..1] == [r1] && [r1][..0] == [] && [r2][..0] == [];
    assert !Present([], [Param]) && [Param] <= [r1][0].Pattern();
  }

  /** With only one-placeholder patterns registered, a path of one segment is decided by the
      first pattern's test. */
  lemma OneParam(routes: seq<Route>, x: string)
    requires routes != [] && forall i :: 0 <= i < |routes| ==> routes[i].Pattern() == [Param]
    ensures Present(routes, [Param])
    ensures Walk(routes, [], [x]) == if FirstInt(routes, [Param]) ==> IntLike(x) then Some([Param]) else None
  {
    assert !Present(routes, [Lit(x)]) by { Unlike([Lit(x)], [Param], 0); }
    assert Present(routes, [Param]) by { assert [Param] <= routes[0].Pattern(); }
    OneStep(routes, x);
  }

  lemma OneStep(routes: seq<Route>, x: string)
    requires !Present(routes, [Lit(x)]) && Present(routes, [Param])
    ensures Walk(routes, [], [x]) == if FirstInt(routes, [Param]) ==> IntLike(x) then Some([Param]) else None
  {
    assert [] + [Param] == [Param] && [] + [Lit(x)] == [Lit(x)] && [x][1..] == [];
  }

  // ----- splitting is the inverse of joining -----

  function Join(segs: seq<string>): string {
    if segs == [] then "" else "/" + segs[0] + Join(segs[1..])
  }

  predicate NoSlash(s: string) { forall k :: 0 <= k < |s| ==> s[k] != '/' }

  /** The segments stand in s from position i on, a slash between them. */
  predicate Spelled(s: string, i: nat, segs: seq<string>)
    requires segs != []
    decreases |segs|
  {
    var j := i + |segs[0]|;
    && j <= |s| && s[i..j] == segs[0]
    && if |segs| == 1 then j == |s| else j < |s| && s[j] == '/' && Spelled(s, j + 1, segs[1..])
  }

  function Ask(s: string, p: string, segs: seq<string>, u: bool): bool { true }

  /** s is p and the joined segments behind it. */
  ghost predicate Joined(s: string, p: string, segs: seq<string>) {
    forall u {:trigger Ask(s, p, segs, u)} :: Ask(s, p, segs, u) ==> s == p + Join(segs)
  }

  lemma {:induction false} JoinSpelled(s: string, p: string, segs: seq<string>)
    requires segs != [] && Joined(s, p, segs)
    ensures Spelled(s, |p| + 1, segs)
    decreases |segs|
  {
    var q := JoinFirst(s, p, segs);
    if |segs| > 1 { JoinSpelled(s, q, segs[1..]); }
  }

  lemma JoinFirst(s: string, p: string, segs: seq<string>) returns (q: string)
    requires segs != [] && Joined(s, p, segs)
    ensures var j := |p| + 1 + |segs[0]|;
      && Joined(s, q, segs[1..]) && |q| == j <= |s| && s[|p| + 1..j] == segs[0]
      && if |segs| == 1 then j == |s| else j < |s| && s[j] == '/'
  {
    assert Ask(s, p, segs, true);
    q := p + "/" + segs[0];
    Regroup(p, segs[0], Join(segs[1..]));
    if |segs| > 1 { StartsWithSlash(segs[1..]); }
  }

  lemma StartsWithSlash(segs: seq<string>)
    requires segs != []
    ensures Join(segs) != "" && Join(segs)[0] == '/'
  {}

  lemma Regroup(p: string, seg: string, rest: string)
    ensures var s, q, j := p + ("/" + seg + rest), p + "/" + seg, |p| + 1 + |seg|;
      && s == q + rest && |q| == j && |s| == j + |rest| && s[|p| + 1..j] == seg && (rest != "" ==> s[j] == rest[0])
  {
    var s, q, j := p + ("/" + seg + rest), p + "/" + seg, |p| + 1 + |seg|;
    assert s == q + rest;
  }

  lemma SlashAt(s: string, i: nat, seg: string)
    requires i + |seg| <= |s| && s[i..i + |seg|] == seg && NoSlash(seg) && (i + |seg| < |s| ==> s[i + |seg|] == '/')
    ensures Slash(s, i) == i + |seg|
  {
    forall k | i <= k < i + |seg| ensures s[k] == seg[k - i] {}
  }

  lemma FirstSegment(s: string, i: nat, seg: string, taken: nat)
    requires i < |s| && taken < MAX_SEGMENTS && i + |seg| <= |s| && s[i..i + |seg|] == seg && NoSlash(seg)
    requires i + |seg| < |s| ==> s[i + |seg|] == '/'
    ensures var j := i + |seg|; SegmentsFrom(s, i, taken) == [seg] + SegmentsFrom(s, if j < |s| then j + 1 else j, taken + 1)
  {
    SlashAt(s, i, seg);
  }

  /** The first of the segments that stand in s, and where the others stand. */
  lemma FirstOfSpelled(s: string, i: nat, segs: seq<string>, taken: nat) returns (next: nat)
    requires segs != [] && Spelled(s, i, segs) && taken < MAX_SEGMENTS && NoSlash(segs[0])
    requires |segs| == 1 ==> segs[0] != ""
    ensures i < next <= |s| && SegmentsFrom(s, i, taken) == [segs[0]] + SegmentsFrom(s, next, taken + 1)
    ensures if |segs| == 1 then next == |s| else Spelled(s, next, segs[1..])
  {
    var j := i + |segs[0]|;
    next := if |segs| == 1 then j else j + 1;
    FirstSegment(s, i, segs[0], taken);
  }

  /** What is left of the segments when so many are kept; an empty one at the end is not seen. */
  function KeptOf(segs: seq<string>, room: nat): seq<string> {
    if segs == [] || Blank(segs) || room == 0 then [] else [segs[0]] + KeptOf(segs[1..], room - 1)
  }

  predicate Blank(segs: seq<string>) { |segs| == 1 && segs[0] == "" }

  lemma {:induction false} KeptMeans(segs: seq<string>, room: nat)
    requires segs != []
    ensures var n := if segs[|segs| - 1] == "" then |segs| - 1 else |segs|;
      KeptOf(segs, room) == segs[..if n <= room then n else room]
    decreases |segs|
  {
    if |segs| > 1 && room > 0 {
      KeptMeans(segs[1..], room - 1);
      assert segs == [segs[0]] + segs[1..];
    }
  }

  lemma {:induction false} SegmentsOfSpelled(s: string, i: nat, segs: seq<string>, taken: nat, room: nat)
    requires segs != [] && Spelled(s, i, segs) && taken + room == MAX_SEGMENTS
    requires forall k :: 0 <= k < |segs| ==> NoSlash(segs[k])
    ensures SegmentsFrom(s, i, taken) == KeptOf(segs, room)
    decreases |segs|
  {
    if Blank(segs) || room == 0 {
      NoMore(s, i, segs, taken);
    } else {
      var next := FirstOfSpelled(s, i, segs, taken);
      if |segs| > 1 { SegmentsOfSpelled(s, next, segs[1..], taken + 1, room - 1); }
    }
  }

  lemma NoMore(s: string, i: nat, segs: seq<string>, taken: nat)
    requires segs != [] && Spelled(s, i, segs) && (Blank(segs) || taken >= MAX_SEGMENTS)
    ensures i <= |s| && SegmentsFrom(s, i, taken) == []
  {}

  /** A path written from segments without slashes splits back into the first 64 of them; a slash at
      the end makes no segment. */
  lemma SplitJoin(segs: seq<string>)
    requires forall i :: 0 <= i < |segs| ==> NoSlash(segs[i])
    ensures var n := if segs != [] && segs[|segs| - 1] == "" then |segs| - 1 else |segs|;
      Segments(Join(segs)) == segs[..if n <= 64 then n else 64]
  {
    if segs != [] {
      JoinedAlone(segs);
      JoinSpelled(Join(segs), "", segs);
      StartsWithSlash(segs);
      var room: nat :| room == 64;
      SegmentsOfSpelled(Join(segs), 1, segs, 0, room);
      KeptMeans(segs, room);
    }
  }

  lemma JoinedAlone(segs: seq<string>)
    requires segs != []
    ensures Joined(Join(segs), "", segs)
  {
    assert "" + Join(segs) == Join(segs);
  }

  // ----- placeholders from end to end -----

  lemma OneSegment(s: string)
    requires s != "" && NoSlash(s)
    ensures Segments("/" + s) == [s]
  {
    assert Join([s][1..]) == "" && Join([s]) == "/" + s + "" == "/" + s;
    SplitJoin([s]);
  }

  lemma OnlyParam(r: Route, x: string, m: string)
    requires r.Pattern() == [Param] && Accepts(Stored(r.verb), r.isWs, m)
    ensures Answer([r], [x], m) == if IsInt(r.segs[0]) ==> IntLike(x) then Some(r) else None
  {
    OneParam([r], x);
    assert [r][..0] == [] && [Param] <= [r][0].Pattern();
    assert !Present([], [Param]) && FirstInt([r], [Param]) == IsInt(r.segs[0]);
  }

  /** A name in braces, registered alone, answers every path of one segment, and with the suffix
      `:int` those that are an integer. */
  lemma PlaceholderAnswers(n: string, verb: string, handler: nat, isWs: bool, x: string)
    requires n != "" && ':' !in n && NoSlash(n) && x != "" && NoSlash(x) && |verb| <= 7
    ensures var r := Route(Segments("/{" + n + "}"), verb, handler, isWs); Answer([r], Segments("/" + x), verb) == Some(r)
    ensures var r := Route(Segments("/{" + n + ":int}"), verb, handler, isWs);
      Answer([r], Segments("/" + x), verb) == if exists sign, digits :: SignAndDigits(x, sign, digits) then Some(r) else None
  {
    NamedKind(n);
    OneSegment(x);
    IntLikeExactly(x);
    var plain, whole := "{" + n + "}", "{" + n + ":int}";
    assert "/{" + n + "}" == "/" + plain && "/{" + n + ":int}" == "/" + whole;
    OneSegment(plain);
    OneSegment(whole);
    OnlyParam(Route([plain], verb, handler, isWs), x, verb);
    OnlyParam(Route([whole], verb, handler, isWs), x, verb);
  }
}
