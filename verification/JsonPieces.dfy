/** What minifying keeps of a text: its tokens, without the gaps and comments between them. */
module JsonPieces {
  import opened JsonText
  import opened JsonValue
  import opened JsonMinify

  /** A text in pieces: string literals, other characters that stay, a slash that opens no comment, single blanks,
      comments to the end of a line, and comments from a slash with a star to a star with a slash. ShortComment is
      the one whose star serves for both. */
  datatype Piece =
    | Literal(body: string)
    | Single(c: char)
    | Slash
    | Gap(c: char)
    | LineComment(body: string)
    | StarComment(body: string)
    | ShortComment

  /** Inside quotes a backslash takes the next character along, and no other quote stands. */
  predicate BodyOk(w: string) {
    w == "" ||
    if w[0] == '\\' then |w| > 1 && w[1] != NUL && BodyOk(w[2..])
    else w[0] != '\"' && w[0] != NUL && BodyOk(w[1..])
  }

  predicate NoClose(w: string) {
    forall k :: 0 <= k < |w| - 1 ==> !(w[k] == '*' && w[k + 1] == '/')
  }

  predicate PieceOk(p: Piece) {
    match p
    case Literal(body) => BodyOk(body)
    case Single(c) => c !in {' ', '\t', '\r', '\n', '/', '\"', NUL}
    case Gap(c) => c in {' ', '\t', '\r', '\n'}
    case LineComment(body) => Terminated(body) && '\n' !in body
    case StarComment(body) => Terminated(body) && NoClose(body) && (body != "" ==> body[0] != '/')
    case _ => true
  }

  function PieceText(p: Piece): (w: string)
    ensures w != ""
  {
    match p
    case Literal(body) => "\"" + (body + "\"")
    case Single(c) => [c]
    case Slash => "/"
    case Gap(c) => [c]
    case LineComment(body) => "//" + body
    case StarComment(body) => "/*" + (body + "*/")
    case ShortComment => "/*/"
  }

  /** Tokens stay, blanks and comments go. */
  function PieceKept(p: Piece): string {
    if p.Literal? || p.Single? || p.Slash? then PieceText(p) else ""
  }

  /** A line comment goes on to a line feed or the end, and a slash opens no comment. */
  predicate Precedes(p: Piece, rest: string) {
    && (p.LineComment? && rest != "" ==> rest[0] == '\n')
    && (p.Slash? && rest != "" ==> rest[0] != '/' && rest[0] != '*')
  }

  function TextOf(ps: seq<Piece>): string {
    if ps == [] then "" else PieceText(ps[0]) + TextOf(ps[1..])
  }

  function KeptOf(ps: seq<Piece>): string {
    if ps == [] then "" else PieceKept(ps[0]) + KeptOf(ps[1..])
  }

  predicate PiecesOk(ps: seq<Piece>) {
    ps != [] ==> PieceOk(ps[0]) && Precedes(ps[0], TextOf(ps[1..])) && PiecesOk(ps[1..])
  }

  // ----- one turn of the minifier is one piece -----

  lemma {:induction false} QuoteEndIs(s: string, i: nat, body: string)
    requires BodyOk(body) && Here(s, i, body) && At(s, i + |body|) == '\"'
    ensures QuoteEnd(s, i) == i + |body|
    decreases |body|
  {
    if body != "" {
      HereAt(s, i, body, 0);
      var n := if body[0] == '\\' then 2 else 1;
      assert body == body[..n] + body[n..];
      HereSplit(s, i, body[..n], body[n..]);
      QuoteEndIs(s, i + n, body[n..]);
    }
  }

  lemma {:induction false} LineEndIs(s: string, i: nat, j: nat)
    requires i <= j && (At(s, j) == NUL || At(s, j) == '\n')
    requires forall k: nat :: i <= k < j ==> At(s, k) != NUL && At(s, k) != '\n'
    ensures LineEnd(s, i) == j
    decreases j - i
  {
    if i < j {
      LineEndIs(s, i + 1, j);
    }
  }

  predicate ClosesAt(s: string, k: nat) {
    At(s, k) == '*' && At(s, k + 1) == '/'
  }

  lemma {:induction false} StarEndIs(s: string, i: nat, j: nat)
    requires i <= j && ClosesAt(s, j) && forall k: nat :: i <= k < j ==> At(s, k) != NUL && !ClosesAt(s, k)
    ensures StarEnd(s, i) == j
    decreases j - i
  {
    if i < j {
      StarEndIs(s, i + 1, j);
    }
  }

  lemma QuoteTurn(s: string, i: nat)
    requires i < |s| && s[i] == '\"' && i + 1 <= QuoteEnd(s, i + 1) < |s|
    ensures Ended(s, i) && Turn(s, i) == (QuoteEnd(s, i + 1) + 1, s[i..QuoteEnd(s, i + 1) + 1])
  {
    hide QuoteEnd;
  }

  lemma LiteralTurn(s: string, i: nat, body: string)
    requires BodyOk(body) && Here(s, i, PieceText(Literal(body)))
    ensures i < |s| && Ended(s, i) && Turn(s, i) == (i + |body| + 2, PieceText(Literal(body)))
  {
    hide QuoteEnd, BodyOk, Here, Turn, Ended;
    var w := PieceText(Literal(body));
    HereAt(s, i, w, 0);
    HereSplit(s, i, "\"", body + "\"");
    HereSplit(s, i + 1, body, "\"");
    HereAt(s, i + 1 + |body|, "\"", 0);
    QuoteEndIs(s, i + 1, body);
    QuoteTurn(s, i);
    HereSlice(s, i, w);
  }

  lemma HereSlice(s: string, i: nat, w: string)
    requires Here(s, i, w)
    ensures i + |w| <= |s| && s[i..i + |w|] == w
  {
    forall k | 0 <= k < |w|
      ensures s[i..i + |w|][k] == w[k]
    {
      assert s[i + k] == w[k];
    }
  }

  lemma LineTurn(s: string, i: nat, body: string)
    requires PieceOk(LineComment(body)) && Here(s, i, "//" + body)
    requires i + 2 + |body| == |s| || s[i + 2 + |body|] == '\n'
    ensures i < |s| && Ended(s, i) && Turn(s, i) == (i + 2 + |body|, "")
  {
    HereSplit(s, i, "//", body);
    HereAt(s, i, "//", 0);
    HereAt(s, i, "//", 1);
    forall k: nat | i + 1 <= k < i + 2 + |body|
      ensures At(s, k) != NUL && At(s, k) != '\n'
    {
      if k >= i + 2 {
        HereAt(s, i + 2, body, k - i - 2);
      }
    }
    LineEndIs(s, i + 1, i + 2 + |body|);
  }

  lemma StarTurn(s: string, i: nat, body: string)
    requires PieceOk(StarComment(body)) && Here(s, i, PieceText(StarComment(body)))
    ensures i < |s| && Ended(s, i) && Turn(s, i) == (i + 4 + |body|, "")
  {
    HereSplit(s, i, "/*", body + "*/");
    HereSplit(s, i + 2, body, "*/");
    HereAt(s, i, "/*", 0);
    HereAt(s, i, "/*", 1);
    HereAt(s, i + 2 + |body|, "*/", 0);
    HereAt(s, i + 2 + |body|, "*/", 1);
    forall k: nat | i <= k < i + 2 + |body|
      ensures At(s, k) != NUL && !ClosesAt(s, k)
    {
      if k >= i + 2 {
        HereAt(s, i + 2, body, k - i - 2);
      }
      if i + 2 <= k + 1 < i + 2 + |body| {
        HereAt(s, i + 2, body, k + 1 - i - 2);
      }
    }
    StarEndIs(s, i, i + 2 + |body|);
  }

  lemma PieceTurn(s: string, i: nat, p: Piece, rest: string)
    requires PieceOk(p) && Precedes(p, rest) && Here(s, i, PieceText(p) + rest) && i + |PieceText(p) + rest| == |s|
    ensures i < |s| && Ended(s, i) && Turn(s, i) == (i + |PieceText(p)|, PieceKept(p))
  {
    hide Turn;
    HereSplit(s, i, PieceText(p), rest);
    match p
    case Literal(body) => LiteralTurn(s, i, body);
    case LineComment(body) =>
      if rest != "" {
        HereAt(s, i + |PieceText(p)|, rest, 0);
      }
      LineTurn(s, i, body);
    case StarComment(body) => StarTurn(s, i, body);
    case ShortComment => ShortTurn(s, i);
    case _ => OneTurn(s, i, p, rest);
  }

  lemma ShortTurn(s: string, i: nat)
    requires Here(s, i, "/*/")
    ensures i < |s| && Ended(s, i) && Turn(s, i) == (i + 3, "")
  {
    HereAt(s, i, "/*/", 0);
    HereAt(s, i, "/*/", 1);
    HereAt(s, i, "/*/", 2);
    assert ClosesAt(s, i + 1) && !ClosesAt(s, i);
    StarEndIs(s, i, i + 1);
  }

  lemma OneTurn(s: string, i: nat, p: Piece, rest: string)
    requires PieceOk(p) && Precedes(p, rest) && (p.Single? || p.Slash? || p.Gap?)
    requires Here(s, i, PieceText(p)) && Here(s, i + 1, rest) && i + 1 + |rest| == |s|
    ensures i < |s| && Ended(s, i) && Turn(s, i) == (i + 1, PieceKept(p))
  {
    HereAt(s, i, PieceText(p), 0);
    if rest != "" {
      HereAt(s, i + 1, rest, 0);
    }
  }

  lemma PiecesStep(ps: seq<Piece>)
    ensures ps == [] ==> TextOf(ps) == "" && KeptOf(ps) == ""
    ensures ps != [] && PiecesOk(ps) ==>
      && PieceOk(ps[0]) && Precedes(ps[0], TextOf(ps[1..])) && PiecesOk(ps[1..])
      && TextOf(ps) == PieceText(ps[0]) + TextOf(ps[1..]) && KeptOf(ps) == PieceKept(ps[0]) + KeptOf(ps[1..])
  {
    hide PieceOk, PieceText, PieceKept, Precedes;
  }

  lemma TurnStep(s: string, i: nat, j: nat, w: string)
    requires i < |s| && Ended(s, i) && Turn(s, i) == (j, w)
    ensures Minified(s, i) == w + Minified(s, j) && (Closed(s, j) ==> Closed(s, i))
  {
    hide Turn, Ended;
  }

  lemma AtEnd(s: string)
    ensures Minified(s, |s|) == "" && Closed(s, |s|)
  {
  }

  lemma {:induction false} PiecesMinified(s: string, i: nat, ps: seq<Piece>)
    requires PiecesOk(ps) && Here(s, i, TextOf(ps)) && i + |TextOf(ps)| == |s|
    ensures Minified(s, i) == KeptOf(ps) && Closed(s, i)
    decreases |ps|
  {
    hide Turn, Ended, PieceOk, PieceText, PieceKept, Precedes, Here, Minified, Closed, PiecesOk, TextOf, KeptOf;
    PiecesStep(ps);
    if ps == [] {
      AtEnd(s);
    } else {
      HereSplit(s, i, PieceText(ps[0]), TextOf(ps[1..]));
      PieceTurn(s, i, ps[0], TextOf(ps[1..]));
      PiecesMinified(s, i + |PieceText(ps[0])|, ps[1..]);
      TurnStep(s, i, i + |PieceText(ps[0])|, PieceKept(ps[0]));
    }
  }

  /** A text in pieces is minified to its tokens, and nothing is left open in it. */
  lemma MinifyPieces(ps: seq<Piece>)
    requires PiecesOk(ps)
    ensures Minified(TextOf(ps), 0) == KeptOf(ps) && Closed(TextOf(ps), 0)
  {
    hide TextOf, KeptOf, Minified, Closed;
    PiecesMinified(TextOf(ps), 0, ps);
  }

  // ----- every text in which nothing is left open is a text in pieces -----

  lemma {:induction false} QuoteBody(s: string, i: nat)
    requires i <= QuoteEnd(s, i) < |s| && Terminated(s)
    ensures BodyOk(s[i..QuoteEnd(s, i)]) && s[QuoteEnd(s, i)] == '\"'
    decreases |s| - i
  {
    var e := QuoteEnd(s, i);
    if i < e {
      var n := if s[i] == '\\' then 2 else 1;
      QuoteBody(s, i + n);
      assert s[i..e][n..] == s[i + n..e];
    }
  }

  lemma {:induction false} LineBody(s: string, i: nat)
    requires i <= |s|
    ensures i <= LineEnd(s, i) <= |s| && '\n' !in s[i..LineEnd(s, i)]
    ensures LineEnd(s, i) < |s| ==> At(s, LineEnd(s, i)) == '\n' || At(s, LineEnd(s, i)) == NUL
    decreases |s| - i
  {
    if i < LineEnd(s, i) {
      LineBody(s, i + 1);
      assert s[i..LineEnd(s, i)] == [s[i]] + s[i + 1..LineEnd(s, i)];
    }
  }

  lemma {:induction false} StarBody(s: string, i: nat)
    requires StarEnd(s, i) < |s|
    ensures i <= StarEnd(s, i) && forall k: nat :: i <= k < StarEnd(s, i) ==> !ClosesAt(s, k)
    ensures Terminated(s) ==> ClosesAt(s, StarEnd(s, i))
    decreases |s| - i
  {
    if i < StarEnd(s, i) {
      StarBody(s, i + 1);
    }
  }

  /** What stands at i up to where the turn goes on. */
  predicate IsPiece(s: string, i: nat, p: Piece)
    requires i < |s|
  {
    && Turn(s, i).0 <= |s| && PieceOk(p) && PieceText(p) == s[i..Turn(s, i).0]
    && Precedes(p, s[Turn(s, i).0..])
  }

  lemma LiteralAt(s: string, i: nat)
    requires i < |s| && Terminated(s) && Ended(s, i) && s[i] == '\"'
    ensures IsPiece(s, i, Literal(s[i + 1..QuoteEnd(s, i + 1)]))
  {
    hide QuoteEnd, BodyOk, Turn;
    var e := QuoteEnd(s, i + 1);
    QuoteBody(s, i + 1);
    QuoteTurn(s, i);
    Enclosed(s, i, e);
  }

  lemma Enclosed(s: string, i: nat, e: nat)
    requires i < e < |s| && s[i] == '\"' && s[e] == '\"'
    ensures s[i..e + 1] == "\"" + (s[i + 1..e] + "\"")
  {
  }

  lemma LineAt(s: string, i: nat)
    requires i < |s| && Terminated(s) && s[i] == '/' && At(s, i + 1) == '/'
    ensures i + 2 <= LineEnd(s, i + 1) <= |s| && IsPiece(s, i, LineComment(s[i + 2..LineEnd(s, i + 1)]))
  {
    var e := LineEnd(s, i + 1);
    LineBody(s, i + 1);
    assert s[i..e] == "//" + s[i + 2..e];
    assert forall k :: i + 2 <= k < e ==> s[k] == s[i + 1..e][k - i - 1];
  }

  lemma StarAt(s: string, i: nat) returns (p: Piece)
    requires i < |s| && Terminated(s) && Ended(s, i) && s[i] == '/' && At(s, i + 1) == '*'
    ensures IsPiece(s, i, p)
  {
    var e := StarEnd(s, i);
    StarBody(s, i);
    assert ClosesAt(s, e) && !ClosesAt(s, i);
    if e == i + 1 {
      p := ShortComment;
      assert s[i..e + 2] == "/*/";
    } else {
      var body := s[i + 2..e];
      p := StarComment(body);
      assert s[i..e + 2] == "/*" + (body + "*/");
      assert !ClosesAt(s, i + 1);
      forall k | 0 <= k < |body| - 1
        ensures !(body[k] == '*' && body[k + 1] == '/')
      {
        assert !ClosesAt(s, i + 2 + k);
      }
    }
  }

  lemma PieceAt(s: string, i: nat) returns (p: Piece)
    requires i < |s| && Terminated(s) && Ended(s, i)
    ensures IsPiece(s, i, p)
  {
    if s[i] == '\"' {
      LiteralAt(s, i);
      p := Literal(s[i + 1..QuoteEnd(s, i + 1)]);
    } else if s[i] == '/' && At(s, i + 1) == '/' {
      LineAt(s, i);
      p := LineComment(s[i + 2..LineEnd(s, i + 1)]);
    } else if s[i] == '/' && At(s, i + 1) == '*' {
      p := StarAt(s, i);
    } else {
      p := if Dropped(s[i]) then Gap(s[i]) else if s[i] == '/' then Slash else Single(s[i]);
    }
  }

  lemma {:induction false} PiecesFrom(s: string, i: nat) returns (ps: seq<Piece>)
    requires i <= |s| && Terminated(s) && Closed(s, i)
    ensures PiecesOk(ps) && TextOf(ps) == s[i..]
    decreases |s| - i
  {
    hide Turn, Ended, PieceOk, PieceText, Precedes, TextOf, PiecesOk, Closed;
    ps := [];
    ClosedStep(s, i);
    PiecesStep(ps);
    if i < |s| {
      var p := PieceAt(s, i);
      var rest := PiecesFrom(s, Turn(s, i).0);
      ps := [p] + rest;
      MorePieces(s, i, p, rest);
    }
  }

  lemma ClosedStep(s: string, i: nat)
    requires Closed(s, i) && i <= |s|
    ensures i < |s| ==> Ended(s, i) && Closed(s, Turn(s, i).0)
    ensures PiecesOk([])
  {
    hide Turn, Ended;
  }

  lemma MorePieces(s: string, i: nat, p: Piece, rest: seq<Piece>)
    requires i < |s| && IsPiece(s, i, p) && PiecesOk(rest) && TextOf(rest) == s[Turn(s, i).0..]
    ensures PiecesOk([p] + rest) && TextOf([p] + rest) == s[i..]
  {
    hide Turn, Ended, PieceOk, PieceText, Precedes;
    assert ([p] + rest)[1..] == rest && s[i..] == s[i..Turn(s, i).0] + s[Turn(s, i).0..];
  }

  /** A text is one in pieces exactly if no comment and no string is left open in it; and then the minifier keeps
      the tokens of any such reading. */
  lemma ClosedInPieces(s: string)
    requires Terminated(s)
    ensures Closed(s, 0) <==> exists ps :: PiecesOk(ps) && TextOf(ps) == s
    ensures forall ps :: PiecesOk(ps) && TextOf(ps) == s ==> Minified(s, 0) == KeptOf(ps)
  {
    hide PiecesOk, TextOf, KeptOf, Closed, Minified;
    if Closed(s, 0) {
      var ps := PiecesFrom(s, 0);
      assert s[0..] == s;
    }
    forall ps | PiecesOk(ps) && TextOf(ps) == s
      ensures Minified(s, 0) == KeptOf(ps) && Closed(s, 0)
    {
      MinifyPieces(ps);
    }
  }

  /** A comment whose text begins with a slash is cut short: its opening star is taken for the closing one. */
  lemma CommentCutShort()
    ensures Minified("/*/ x */", 0) == "x*/"
  {
    var s := "/*/ x */";
    assert StarEnd(s, 0) == 1 && Turn(s, 0) == (3, "");
    assert Minified(s, 7) == "/";
    assert Minified(s, 5) == "*/";
    assert Minified(s, 3) == "x*/";
  }
}
