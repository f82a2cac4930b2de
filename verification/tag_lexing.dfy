/** Which texts tokenize, and to what (crates/ferridriver-bdd/src/filter.rs:71-125). */
module TagLexing {
  import opened Json
  import opened Scanning
  import opened TagFilter

  /** A blank, or the text of one token. */
  datatype Piece = Space(c: char) | Lexeme(token: Token)

  function TextOf(p: Piece): string {
    match p
    case Space(c) => [c]
    case Lexeme(TagToken(name)) => name
    case Lexeme(AndToken) => "and"
    case Lexeme(OrToken) => "or"
    case Lexeme(NotToken) => "not"
    case Lexeme(LParen) => "("
    case Lexeme(RParen) => ")"
  }

  function Spelled(pieces: seq<Piece>): string {
    if pieces == [] then "" else TextOf(pieces[0]) + Spelled(pieces[1..])
  }

  function TokensOf(pieces: seq<Piece>): seq<Token> {
    if pieces == [] then []
    else (if pieces[0].Lexeme? then [pieces[0].token] else []) + TokensOf(pieces[1..])
  }

  predicate IsWord(p: Piece) {
    p == Lexeme(AndToken) || p == Lexeme(OrToken) || p == Lexeme(NotToken)
  }

  /** The text after a piece cannot be read as more of it. */
  predicate Stops(p: Piece, rest: string, wide: char -> bool) {
    (p.Lexeme? && p.token.TagToken? ==> rest == "" || !Continues(rest[0], true, wide)) &&
    (IsWord(p) ==> rest == "" || !Continues(rest[0], false, wide))
  }

  predicate Legal(p: Piece, wide: char -> bool) {
    match p
    case Space(c) => Blank(c)
    case Lexeme(TagToken(name)) => LegalName(name, wide)
    case _ => true
  }

  /** Blanks and tokens one after the other, no name or keyword run on into the next. */
  predicate WellSpelled(pieces: seq<Piece>, wide: char -> bool) {
    pieces == [] ||
    (Legal(pieces[0], wide) && Stops(pieces[0], Spelled(pieces[1..]), wide) && WellSpelled(pieces[1..], wide))
  }

  lemma LexPiece(p: Piece, rest: string, wide: char -> bool)
    requires Legal(p, wide) && Stops(p, rest, wide)
    ensures Lex(TextOf(p) + rest, wide) == if p.Space? then Lex(rest, wide) else Prepend(p.token, Lex(rest, wide))
  {
    match p
    case Space(c) => assert ([c] + rest)[1..] == rest;
    case Lexeme(TagToken(name)) => LexName(name, rest, wide);
    case Lexeme(LParen) => LexOpen(rest, wide);
    case Lexeme(RParen) => LexClose(rest, wide);
    case Lexeme(_) => LexWord(TextOf(p), p.token, rest, wide);
  }

  lemma LexWord(word: string, token: Token, rest: string, wide: char -> bool)
    requires (word == "and" && token == AndToken) || (word == "or" && token == OrToken) ||
             (word == "not" && token == NotToken)
    requires rest == "" || !Continues(rest[0], false, wide)
    ensures Lex(word + rest, wide) == Prepend(token, Lex(rest, wide))
  {
    var s := word + rest;
    LeadingAll(word, rest, false, wide);
    assert s[..|word|] == word && s[|word|..] == rest && s[0] == word[0];
  }

  lemma FirstToken(pieces: seq<Piece>)
    requires pieces != []
    ensures var rest := Ok(TokensOf(pieces[1..]));
            Ok(TokensOf(pieces)) == if pieces[0].Space? then rest else Prepend(pieces[0].token, rest)
  {
    assert [] + TokensOf(pieces[1..]) == TokensOf(pieces[1..]);
  }

  /** Every well spelled text tokenizes to its tokens. */
  lemma {:induction false} SpelledLexes(pieces: seq<Piece>, wide: char -> bool)
    requires WellSpelled(pieces, wide)
    ensures Lex(Spelled(pieces), wide) == Ok(TokensOf(pieces))
  {
    if pieces != [] {
      SpelledLexes(pieces[1..], wide);
      LexPiece(pieces[0], Spelled(pieces[1..]), wide);
      FirstToken(pieces);
    }
  }

  lemma {:induction false} LeadingContinues(s: string, dash: bool, wide: char -> bool)
    ensures var n := Leading(s, dash, wide);
            (forall i :: 0 <= i < n ==> Continues(s[i], dash, wide)) && (n < |s| ==> !Continues(s[n], dash, wide))
  {
    if s != "" && Continues(s[0], dash, wide) {
      LeadingContinues(s[1..], dash, wide);
      assert forall i :: 0 < i < Leading(s, dash, wide) ==> s[i] == s[1..][i - 1];
    }
  }

  /** The first piece of a text that tokenizes. */
  lemma FirstPiece(s: string, wide: char -> bool) returns (p: Piece, n: nat)
    requires s != "" && Lex(s, wide).Ok?
    ensures 0 < n <= |s| && TextOf(p) == s[..n] && Legal(p, wide) && Stops(p, s[n..], wide) && Lex(s[n..], wide).Ok?
  {
    if Blank(s[0]) {
      p, n := Space(s[0]), 1;
    } else if s[0] == '(' || s[0] == ')' {
      p, n := Lexeme(if s[0] == '(' then LParen else RParen), 1;
    } else if s[0] == '@' {
      n := Leading(s[1..], true, wide) + 1;
      p := Lexeme(TagToken(s[..n]));
      LeadingContinues(s[1..], true, wide);
      assert forall i :: 0 < i < n ==> s[..n][i] == s[1..][i - 1];
      assert n < |s| ==> s[n] == s[1..][n - 1];
    } else {
      n := Leading(s, false, wide);
      p := Lexeme(Keyword(s[..n], s[0]).value);
      LeadingContinues(s, false, wide);
    }
  }

  /** Every text that tokenizes is well spelled. */
  lemma {:induction false} LexedIsSpelled(s: string, wide: char -> bool) returns (pieces: seq<Piece>)
    requires Lex(s, wide).Ok?
    ensures WellSpelled(pieces, wide) && Spelled(pieces) == s && TokensOf(pieces) == Lex(s, wide).value
    decreases |s|
  {
    pieces := [];
    if s != "" {
      var p, n := FirstPiece(s, wide);
      var rest := LexedIsSpelled(s[n..], wide);
      pieces := [p] + rest;
      assert pieces[1..] == rest && s[..n] + s[n..] == s;
      SpelledLexes(pieces, wide);
    }
  }

  /** A text tokenizes to a list of tokens if and only if it spells them out with blanks between where needed. */
  lemma LexIsSpelling(s: string, ts: seq<Token>, wide: char -> bool)
    ensures Lex(s, wide) == Ok(ts) <==>
            exists pieces :: WellSpelled(pieces, wide) && Spelled(pieces) == s && TokensOf(pieces) == ts
  {
    if Lex(s, wide) == Ok(ts) {
      var pieces := LexedIsSpelled(s, wide);
    }
    if pieces :| WellSpelled(pieces, wide) && Spelled(pieces) == s && TokensOf(pieces) == ts {
      SpelledLexes(pieces, wide);
    }
  }
}
