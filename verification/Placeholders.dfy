/** robofleet/agent/adk_entry.py `_make_optional`: every template placeholder becomes an optional one. */
module Placeholders {
  import opened Text

  /** A template read left to right: single characters outside any match, and matched brace groups. */
  datatype Piece = Plain(c: char) | Group(opens: nat, body: string, closes: nat)

  predicate IsBrace(c: char) {
    c == '{' || c == '}'
  }

  /** Length of the leading text without braces. */
  function BodyLength(s: string): (n: nat)
    ensures n <= |s|
    ensures forall i | 0 <= i < n :: !IsBrace(s[i])
    ensures n < |s| ==> IsBrace(s[n])
  {
    if s == "" || IsBrace(s[0]) then 0 else 1 + BodyLength(s[1..])
  }

  /**
   The greedy match of one or more opening braces, a body without braces and one or more closing ones at the start of
   `s`, as the lengths of the three parts. Giving back an opening brace never helps: the body could not start.
   */
  function MatchAt(s: string): (m: (nat, nat, nat))
    ensures m.0 + m.1 + m.2 <= |s|
  {
    var a := RunLength(s, '{');
    var b := BodyLength(s[a..]);
    var c := RunLength(s[a + b..], '}');
    (a, b, c)
  }

  predicate Matches(s: string) {
    var m := MatchAt(s);
    m.0 > 0 && m.2 > 0
  }

  function Braces(n: nat, c: char): (s: string)
    ensures |s| == n && forall i | 0 <= i < n :: s[i] == c
  {
    seq(n, _ => c)
  }

  function RenderPiece(p: Piece): string {
    match p
    case Plain(c) => [c]
    case Group(n, body, m) => Braces(n, '{') + body + Braces(m, '}')
  }

  function Render(ps: seq<Piece>): string {
    if ps == [] then "" else RenderPiece(ps[0]) + Render(ps[1..])
  }

  /** The scan of `re.sub`: leftmost matches, none overlapping. */
  function Pieces(s: string): seq<Piece>
    decreases |s|
  {
    if s == "" then []
    else if Matches(s) then
      var m := MatchAt(s);
      [Group(m.0, s[m.0..m.0 + m.1], m.2)] + Pieces(s[m.0 + m.1 + m.2..])
    else [Plain(s[0])] + Pieces(s[1..])
  }

  /** The group's name, as the callback strips it. */
  function Inner(p: Piece): string
    requires p.Group?
  {
    Strip(p.body)
  }

  /** A placeholder that raises when its variable is missing. */
  predicate Required(p: Piece) {
    p.Group? && Inner(p) != "" && Inner(p)[|Inner(p)| - 1] != '?' && !("artifact." <= Inner(p))
  }

  function Optional(p: Piece): Piece {
    if Required(p) then Group(1, Inner(p) + "?", 1) else p
  }

  function OptionalAll(ps: seq<Piece>): seq<Piece> {
    if ps == [] then [] else [Optional(ps[0])] + OptionalAll(ps[1..])
  }

  function MakeOptional(template: string): string {
    Render(OptionalAll(Pieces(template)))
  }

  // ---- The scan loses nothing and is recoverable from its pieces ----

  lemma BracesAt(s: string, c: char, n: nat)
    requires n <= |s| && forall i | 0 <= i < n :: s[i] == c
    ensures s[..n] == Braces(n, c)
  {
  }

  lemma GroupText(s: string)
    ensures var m := MatchAt(s);
            s[..m.0 + m.1 + m.2] == Braces(m.0, '{') + s[m.0..m.0 + m.1] + Braces(m.2, '}')
  {
    hide RunLength, BodyLength, Braces;
    var m := MatchAt(s);
    BracesAt(s, '{', m.0);
    BracesAt(s[m.0 + m.1..], '}', m.2);
    ThreeParts(s, m.0, m.1, m.2);
  }

  lemma ThreeParts(s: string, a: nat, b: nat, c: nat)
    requires a + b + c <= |s|
    ensures s[..a + b + c] == s[..a] + s[a..a + b] + s[a + b..][..c]
  {
  }

  lemma {:induction false} RenderPieces(s: string)
    ensures Render(Pieces(s)) == s
    decreases |s|
  {
    hide MatchAt;
    if s == "" {
    } else if Matches(s) {
      var m := MatchAt(s);
      GroupText(s);
      RenderPieces(s[m.0 + m.1 + m.2..]);
      assert s == s[..m.0 + m.1 + m.2] + s[m.0 + m.1 + m.2..];
    } else {
      RenderPieces(s[1..]);
      assert s == [s[0]] + s[1..];
    }
  }

  /** The first brace of the rendered text is a closing one. */
  predicate FirstBraceCloses(ps: seq<Piece>) {
    ps != [] && match ps[0]
    case Plain(c) => c == '}' || (c != '{' && FirstBraceCloses(ps[1..]))
    case Group(_, _, _) => false
  }

  /** An opening brace put before the rendered text would start a match. */
  predicate OpensMatch(ps: seq<Piece>) {
    ps != [] && match ps[0]
    case Plain(c) => if c == '{' then OpensMatch(ps[1..]) else c == '}' || FirstBraceCloses(ps[1..])
    case Group(_, _, _) => true
  }

  predicate NoBrace(s: string) {
    forall i | 0 <= i < |s| :: !IsBrace(s[i])
  }

  /** The piece lists that a scan can produce: every group stands alone and no plain opening brace starts a match. */
  predicate Canonical(ps: seq<Piece>) {
    ps == [] || (Canonical(ps[1..]) && match ps[0]
    case Plain(c) => c == '{' ==> !OpensMatch(ps[1..])
    case Group(n, body, m) => n > 0 && m > 0 && NoBrace(body) && !(ps[1..] != [] && ps[1] == Plain('}')))
  }

  lemma BodyLengthIs(s: string, n: nat)
    requires n <= |s| && forall i | 0 <= i < n :: !IsBrace(s[i])
    requires n < |s| ==> IsBrace(s[n])
    ensures BodyLength(s) == n
  {
  }

  lemma MatchAtIs(s: string, a: nat, b: nat, c: nat)
    requires a + b + c <= |s| && c > 0
    requires forall i | 0 <= i < a :: s[i] == '{'
    requires forall i | a <= i < a + b :: !IsBrace(s[i])
    requires forall i | a + b <= i < a + b + c :: s[i] == '}'
    requires a + b + c < |s| ==> s[a + b + c] != '}'
    ensures MatchAt(s) == (a, b, c)
  {
    BracesAre();
    hide IsBrace, RunLength, BodyLength;
    var v, w := s[a..], s[a + b..];
    assert forall i | 0 <= i < b :: v[i] == s[a + i];
    assert forall i | 0 <= i < c :: w[i] == s[a + b + i];
    assert b < |v| ==> v[b] == s[a + b];
    assert c < |w| ==> w[c] == s[a + b + c];
    RunLengthIs(s, '{', a);
    BodyLengthIs(v, b);
    RunLengthIs(w, '}', c);
  }

  lemma BracesAre()
    ensures forall ch :: IsBrace(ch) <==> ch == '{' || ch == '}'
  {
  }

  lemma GroupMatch(p: Piece, t: string)
    requires p.Group? && p.opens > 0 && p.closes > 0 && NoBrace(p.body)
    requires t == "" || t[0] != '}'
    ensures var s := RenderPiece(p) + t;
            && MatchAt(s) == (p.opens, |p.body|, p.closes) && Matches(s)
            && s[p.opens..p.opens + |p.body|] == p.body && s[|RenderPiece(p)|..] == t
            && |RenderPiece(p)| == p.opens + |p.body| + p.closes
  {
    var s := RenderPiece(p) + t;
    MatchAtIs(s, p.opens, |p.body|, p.closes);
  }

  /** After its opening braces and body, `t` goes on with a closing brace. */
  predicate ClosesAfterOpens(t: string) {
    var a := RunLength(t, '{');
    var b := BodyLength(t[a..]);
    a + b < |t| && t[a + b] == '}'
  }

  lemma MatchesIffCloses(s: string)
    requires s != "" && s[0] == '{'
    ensures Matches(s) <==> ClosesAfterOpens(s[1..])
  {
    var t := s[1..];
    var a := RunLength(t, '{');
    RunLengthIs(s, '{', a + 1);
    assert s[a + 1..] == t[a..];
  }

  lemma BodyHead(c: char, u: string)
    ensures BodyLength([c] + u) == if IsBrace(c) then 0 else 1 + BodyLength(u)
  {
    hide IsBrace;
    assert ([c] + u)[1..] == u;
  }

  lemma GroupHead(p: Piece, u: string)
    requires p.Group? && p.opens > 0
    ensures (RenderPiece(p) + u)[0] == '{' && BodyLength(RenderPiece(p) + u) == 0
  {
    assert (RenderPiece(p) + u)[0] == '{';
  }

  lemma {:induction false} FirstBraceText(ps: seq<Piece>)
    requires Canonical(ps)
    ensures var t := Render(ps); var b := BodyLength(t);
            FirstBraceCloses(ps) <==> b < |t| && t[b] == '}'
  {
    hide NoBrace, OpensMatch, BodyLength, RenderPiece;
    if ps != [] {
      var u := Render(ps[1..]);
      match ps[0]
      case Plain(c) =>
        PlainText(c);
        BodyHead(c, u);
        FirstBraceText(ps[1..]);
        assert BodyLength(u) < |u| ==> ([c] + u)[BodyLength(u) + 1] == u[BodyLength(u)];
      case Group(_, _, _) =>
        GroupHead(ps[0], u);
    }
  }

  lemma ClosesOpen(u: string)
    ensures ClosesAfterOpens(['{'] + u) <==> ClosesAfterOpens(u)
  {
    hide BodyLength, RunLength;
    var t := ['{'] + u;
    var a := RunLength(u, '{');
    RunLengthIs(t, '{', a + 1);
    assert t[a + 1..] == u[a..];
  }

  lemma ClosesHead(t: string)
    requires t == "" || t[0] != '{'
    ensures var b := BodyLength(t); ClosesAfterOpens(t) <==> b < |t| && t[b] == '}'
  {
    hide BodyLength;
    RunLengthIs(t, '{', 0);
    assert t[0..] == t;
  }

  lemma ClosesPlain(c: char, u: string)
    requires c != '{'
    ensures var b := BodyLength(u); ClosesAfterOpens([c] + u) <==> c == '}' || (b < |u| && u[b] == '}')
  {
    hide ClosesAfterOpens;
    var t := [c] + u;
    ClosesHead(t);
    assert t[1..] == u && t[0] == c;
  }

  lemma ClosesGroup(p: Piece, t: string)
    requires p.Group? && p.opens > 0 && p.closes > 0 && NoBrace(p.body)
    requires t == "" || t[0] != '}'
    ensures ClosesAfterOpens(RenderPiece(p) + t)
  {
    hide RunLength, BodyLength;
    GroupMatch(p, t);
    var s := RenderPiece(p) + t;
    assert RunLength(s[p.opens + |p.body|..], '}') > 0;
  }

  lemma {:induction false} OpensMatchText(ps: seq<Piece>)
    requires Canonical(ps)
    ensures OpensMatch(ps) <==> ClosesAfterOpens(Render(ps))
  {
    hide ClosesAfterOpens, BodyLength, RenderPiece;
    if ps == [] {
      EmptyDoesNotClose();
    } else {
      var u := Render(ps[1..]);
      match ps[0]
      case Plain(c) =>
        PlainText(c);
        if c == '{' { ClosesOpen(u); } else { ClosesPlain(c, u); }
        OpensMatchText(ps[1..]);
        FirstBraceText(ps[1..]);
      case Group(n, body, m) =>
        HeadNotClosing(ps[1..]);
        ClosesGroup(ps[0], u);
    }
  }

  lemma PlainText(c: char)
    ensures RenderPiece(Plain(c)) == [c]
  {
  }

  lemma EmptyDoesNotClose()
    ensures !ClosesAfterOpens("")
  {
  }

  lemma HeadNotClosing(ps: seq<Piece>)
    requires Canonical(ps) && !(ps != [] && ps[0] == Plain('}'))
    ensures Render(ps) == "" || Render(ps)[0] != '}'
  {
    if ps != [] && ps[0].Group? {
      assert Render(ps)[0] == '{';
    }
  }

  /** A scan of the rendered text finds the same pieces again: no group merges with its neighbours. */
  lemma {:induction false} PiecesRender(ps: seq<Piece>)
    requires Canonical(ps)
    ensures Pieces(Render(ps)) == ps
  {
    hide MatchAt, Matches, ClosesAfterOpens, OpensMatch, NoBrace, RenderPiece;
    if ps != [] {
      var s, u := Render(ps), Render(ps[1..]);
      PiecesRender(ps[1..]);
      match ps[0]
      case Plain(c) =>
        PlainText(c);
        assert s[0] == c && s[1..] == u;
        if c == '{' {
          OpensMatchText(ps[1..]);
          MatchesIffCloses(s);
        } else {
          NoMatchAt(s);
        }
      case Group(n, body, m) =>
        HeadNotClosing(ps[1..]);
        GroupMatch(ps[0], u);
    }
  }

  lemma NoMatchAt(s: string)
    requires s != "" && s[0] != '{'
    ensures !Matches(s)
  {
  }

  lemma PiecesHead(s: string)
    requires s == "" || s[0] != '}'
    ensures Pieces(s) == [] || Pieces(s)[0] != Plain('}')
  {
    hide MatchAt;
  }

  lemma MatchParts(s: string)
    ensures var m := MatchAt(s); var k := m.0 + m.1 + m.2;
            && NoBrace(s[m.0..m.0 + m.1])
            && (m.2 > 0 && k < |s| ==> s[k] != '}')
            && (forall i | 0 < i < k && s[i] == '{' :: s[i - 1] == '{')
  {
    var m := MatchAt(s);
    assert s[m.0..][..m.1] == s[m.0..m.0 + m.1];
  }

  lemma {:induction false} PiecesCanonical(s: string)
    ensures Canonical(Pieces(s))
    decreases |s|
  {
    hide ClosesAfterOpens, MatchAt, OpensMatch, NoBrace;
    if s == "" {
    } else if Matches(s) {
      var m := MatchAt(s);
      var rest := s[m.0 + m.1 + m.2..];
      MatchParts(s);
      PiecesCanonical(rest);
      PiecesHead(rest);
    } else {
      PiecesCanonical(s[1..]);
      if s[0] == '{' {
        RenderPieces(s[1..]);
        MatchesIffCloses(s);
        OpensMatchText(Pieces(s[1..]));
      }
    }
  }

  // ---- What the rewriting does ----

  /** Adding the mark leaves a name stripped, and no longer required. */
  lemma MarkedInner(p: Piece)
    requires Required(p)
    ensures Inner(Optional(p)) == Inner(p) + "?" && !Required(Optional(p))
  {
    hide Strip, IsSpace;
    var name := Inner(p);
    var marked := name + "?";
    assert marked[0] == name[0] && marked[|name|] == '?';
    MarkIsNoSpace();
    TrimFixed(marked);
  }

  lemma MarkIsNoSpace()
    ensures !IsSpace('?')
  {
  }

  lemma PartsNoBrace(s: string, i: nat)
    requires i <= |s| && NoBrace(s)
    ensures NoBrace(s[i..]) && NoBrace(s[..i])
  {
    hide IsBrace;
  }

  lemma StripNoBrace(s: string)
    requires NoBrace(s)
    ensures NoBrace(Strip(s))
  {
    hide IsSpace, AllSpace, NoBrace, TrimLeft, TrimRight;
    var l := TrimLeft(s);
    PartsNoBrace(s, |s| - |l|);
    PartsNoBrace(l, |TrimRight(l)|);
  }

  lemma {:induction false} OptionalKeepsShape(ps: seq<Piece>)
    ensures FirstBraceCloses(OptionalAll(ps)) <==> FirstBraceCloses(ps)
    ensures OpensMatch(OptionalAll(ps)) <==> OpensMatch(ps)
  {
    hide Inner;
    if ps != [] {
      OptionalKeepsShape(ps[1..]);
    }
  }

  lemma OptionalShape(p: Piece)
    ensures p.Plain? ==> Optional(p) == p
    ensures p.Group? && p.opens > 0 && p.closes > 0 && NoBrace(p.body) ==>
              var q := Optional(p); q.Group? && q.opens > 0 && q.closes > 0 && NoBrace(q.body)
  {
    hide Strip, NoBrace;
    if p.Group? && NoBrace(p.body) {
      StripNoBrace(p.body);
      MarkNoBrace(Inner(p));
    }
  }

  lemma MarkNoBrace(name: string)
    requires NoBrace(name)
    ensures NoBrace(name + "?")
  {
    assert !IsBrace('?');
    hide IsBrace;
  }

  lemma {:induction false} OptionalCanonical(ps: seq<Piece>)
    requires Canonical(ps)
    ensures Canonical(OptionalAll(ps))
  {
    hide Optional, OpensMatch, NoBrace;
    if ps != [] {
      OptionalCanonical(ps[1..]);
      OptionalKeepsShape(ps[1..]);
      OptionalShape(ps[0]);
      if |ps| > 1 {
        OptionalIsPlain(ps[1]);
      }
    }
  }

  lemma OptionalIsPlain(p: Piece)
    ensures Optional(p) == Plain('}') <==> p == Plain('}')
  {
  }

  /**
   Scanning the rewritten template finds the original pieces with the required groups marked and nothing else
   changed: the text between groups is kept, and brace runs never merge with it.
   */
  lemma RewritesOnlyGroups(template: string)
    ensures Pieces(MakeOptional(template)) == OptionalAll(Pieces(template))
    ensures Render(Pieces(template)) == template
  {
    hide Pieces, Render, OptionalAll, Canonical;
    RenderPieces(template);
    PiecesCanonical(template);
    OptionalCanonical(Pieces(template));
    PiecesRender(OptionalAll(Pieces(template)));
  }

  lemma {:induction false} OptionalAt(ps: seq<Piece>, k: nat)
    requires k < |ps|
    ensures |OptionalAll(ps)| == |ps| && OptionalAll(ps)[k] == Optional(ps[k])
  {
    hide Optional;
    if |ps| > 1 {
      OptionalAt(ps[1..], if k > 0 then k - 1 else 0);
    } else {
      assert OptionalAll(ps[1..]) == [];
    }
  }

  /**
   Piece by piece: the rewritten template scans to as many pieces; a character outside the groups stays; a group whose
   stripped name is empty, already optional or an artifact stays as it is, braces and all; every other becomes its
   stripped name with a question mark between single braces.
   */
  lemma PieceByPiece(template: string, k: nat)
    requires k < |Pieces(template)|
    ensures |Pieces(MakeOptional(template))| == |Pieces(template)|
    ensures var p, q := Pieces(template)[k], Pieces(MakeOptional(template))[k];
            match p
            case Plain(_) => q == p
            case Group(_, body, _) =>
              var name := Strip(body);
              q == if name == "" || name[|name| - 1] == '?' || "artifact." <= name then p else Group(1, name + "?", 1)
  {
    hide Pieces, Render, OptionalAll, MakeOptional, Strip;
    RewritesOnlyGroups(template);
    OptionalAt(Pieces(template), k);
  }

  lemma {:induction false} OptionalTwice(ps: seq<Piece>)
    ensures OptionalAll(OptionalAll(ps)) == OptionalAll(ps)
    ensures forall p | p in OptionalAll(ps) :: !Required(p)
  {
    hide Required, Inner;
    if ps != [] {
      OptionalTwice(ps[1..]);
      if Required(ps[0]) {
        MarkedInner(ps[0]);
      }
    }
  }

  lemma MakeOptionalIdempotent(template: string)
    ensures MakeOptional(MakeOptional(template)) == MakeOptional(template)
  {
    hide Pieces, Render, OptionalAll;
    RewritesOnlyGroups(template);
    OptionalTwice(Pieces(template));
  }

  /** `n` opening braces at `i`, a body of length `b` without braces, `m` closing braces; neither run can be longer. */
  predicate GroupSpan(s: string, i: nat, n: nat, b: nat, m: nat) {
    && n > 0 && m > 0 && i + n + b + m <= |s|
    && (forall k | i <= k < i + n :: s[k] == '{') && (i == 0 || s[i - 1] != '{')
    && (forall k | i + n <= k < i + n + b :: !IsBrace(s[k]))
    && (forall k | i + n + b <= k < i + n + b + m :: s[k] == '}')
    && (i + n + b + m == |s| || s[i + n + b + m] != '}')
  }

  /** How far the scan gets with its first piece. */
  function FirstStep(s: string): nat
    requires s != ""
  {
    if Matches(s) then MatchAt(s).0 + MatchAt(s).1 + MatchAt(s).2 else 1
  }

  lemma PiecesStep(s: string)
    requires s != ""
    ensures FirstStep(s) <= |s|
    ensures forall p | p in Pieces(s[FirstStep(s)..]) :: p in Pieces(s)
    ensures forall i | 0 < i < FirstStep(s) && s[i] == '{' :: s[i - 1] == '{'
  {
    hide MatchAt;
    MatchParts(s);
  }

  lemma SpanAtStart(s: string, n: nat, b: nat, m: nat)
    requires GroupSpan(s, 0, n, b, m)
    ensures Group(n, s[n..n + b], m) in Pieces(s)
  {
    hide MatchAt;
    MatchAtIs(s, n, b, m);
  }

  /** The scan misses no maximal brace group. */
  lemma {:induction false} ScanFindsGroup(s: string, i: nat, n: nat, b: nat, m: nat)
    requires GroupSpan(s, i, n, b, m)
    ensures Group(n, s[i + n..i + n + b], m) in Pieces(s)
    decreases |s|
  {
    hide MatchAt, Matches, Pieces, FirstStep, GroupSpan;
    SpanBounds(s, i, n, b, m);
    if i == 0 {
      SpanAtStart(s, n, b, m);
    } else {
      PiecesStep(s);
      PositiveStep(s);
      SpanShifts(s, i, n, b, m, FirstStep(s));
      ScanFindsGroup(s[FirstStep(s)..], i - FirstStep(s), n, b, m);
    }
  }

  lemma PositiveStep(s: string)
    requires s != ""
    ensures FirstStep(s) > 0
  {
    hide MatchAt;
  }

  lemma SpanBounds(s: string, i: nat, n: nat, b: nat, m: nat)
    requires GroupSpan(s, i, n, b, m)
    ensures i + n + b + m <= |s| && n > 0 && s[i] == '{' && (i > 0 ==> s[i - 1] != '{')
  {
  }

  lemma SpanShifts(s: string, i: nat, n: nat, b: nat, m: nat, k: nat)
    requires GroupSpan(s, i, n, b, m) && k <= i
    ensures GroupSpan(s[k..], i - k, n, b, m)
    ensures s[k..][i - k + n..i - k + n + b] == s[i + n..i + n + b]
  {
    hide IsBrace;
    var t := s[k..];
    assert forall j | 0 <= j < |t| :: t[j] == s[k + j];
  }

  /** Every maximal brace group of a rewritten template is empty, optional, or an artifact: none is required. */
  lemma NoRequiredGroupLeft(template: string, i: nat, n: nat, b: nat, m: nat)
    requires GroupSpan(MakeOptional(template), i, n, b, m)
    ensures i + n + b <= |MakeOptional(template)|
    ensures var name := Strip(MakeOptional(template)[i + n..i + n + b]);
            name == "" || name[|name| - 1] == '?' || "artifact." <= name
  {
    hide Pieces, Render, OptionalAll, MakeOptional, Strip, GroupSpan;
    SpanBounds(MakeOptional(template), i, n, b, m);
    ScanFindsGroup(MakeOptional(template), i, n, b, m);
    RewritesOnlyGroups(template);
    OptionalTwice(Pieces(template));
    assert !Required(Group(n, MakeOptional(template)[i + n..i + n + b], m));
  }
}
