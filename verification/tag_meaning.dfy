/** What combined tag filters select: filters joined as texts match as their meanings join
    (crates/ferridriver-bdd/src/filter.rs). */
module TagMeaning {
  import opened Json
  import opened Scanning
  import opened TagFilter

  // ---------------------------------------------------------------- texts side by side

  lemma {:induction false} LeadingStops(s: string, rest: string, dash: bool, wide: char -> bool)
    requires Delimited(rest, wide)
    ensures Leading(s + rest, dash, wide) == Leading(s, dash, wide)
  {
    if s == "" {
      assert s + rest == rest;
    } else {
      assert (s + rest)[0] == s[0] && (s + rest)[1..] == s[1..] + rest;
      if Continues(s[0], dash, wide) {
        LeadingStops(s[1..], rest, dash, wide);
      }
    }
  }

  lemma AfterOne(t: Token, tokens: Result<seq<Token>, Error>, rest: Result<seq<Token>, Error>)
    requires tokens.Ok?
    ensures Prepend(t, After(tokens.value, rest)) == After(Prepend(t, tokens).value, rest)
  {
    PrependAfter(t, tokens.value, rest);
  }

  lemma SliceOfConcat(s: string, rest: string, n: nat)
    requires n <= |s|
    ensures (s + rest)[..n] == s[..n] && (s + rest)[n..] == s[n..] + rest
  {
  }

  /** A text that lexes, lexes to the same tokens before anything that no name or keyword runs on into. */
  lemma {:induction false} LexConcat(s: string, rest: string, wide: char -> bool)
    requires Lex(s, wide).Ok? && Delimited(rest, wide)
    ensures Lex(s + rest, wide) == After(Lex(s, wide).value, Lex(rest, wide))
    decreases |s|
  {
    if s == "" {
      assert s + rest == rest;
      AfterPrepend([], LParen, Lex(rest, wide));
    } else {
      assert (s + rest)[0] == s[0];
      SliceOfConcat(s, rest, 1);
      if Blank(s[0]) {
        LexConcat(s[1..], rest, wide);
      } else if s[0] == '(' || s[0] == ')' {
        LexConcat(s[1..], rest, wide);
        AfterOne(if s[0] == '(' then LParen else RParen, Lex(s[1..], wide), Lex(rest, wide));
      } else if s[0] == '@' {
        LexTagConcat(s, rest, wide);
      } else {
        LexWordConcat(s, rest, wide);
      }
    }
  }

  lemma {:induction false} LexTagConcat(s: string, rest: string, wide: char -> bool)
    requires s != "" && s[0] == '@' && Lex(s, wide).Ok? && Delimited(rest, wide)
    ensures Lex(s + rest, wide) == After(Lex(s, wide).value, Lex(rest, wide))
    decreases |s|, 0
  {
    var n := Leading(s[1..], true, wide);
    SliceOfConcat(s, rest, 1);
    LeadingStops(s[1..], rest, true, wide);
    SliceOfConcat(s, rest, n + 1);
    LexConcat(s[n + 1..], rest, wide);
    AfterOne(TagToken(s[..n + 1]), Lex(s[n + 1..], wide), Lex(rest, wide));
  }

  lemma {:induction false} LexWordConcat(s: string, rest: string, wide: char -> bool)
    requires s != "" && !Blank(s[0]) && s[0] !in "()@" && Lex(s, wide).Ok? && Delimited(rest, wide)
    ensures Lex(s + rest, wide) == After(Lex(s, wide).value, Lex(rest, wide))
    decreases |s|, 0
  {
    var n := Leading(s, false, wide);
    LeadingStops(s, rest, false, wide);
    SliceOfConcat(s, rest, n);
    LexConcat(s[n..], rest, wide);
    AfterOne(Keyword(s[..n], s[0]).value, Lex(s[n..], wide), Lex(rest, wide));
  }

  lemma TokensJoined(a: seq<Token>, token: Token, b: seq<Token>)
    ensures After(a, Prepend(token, Ok(b))) == Ok(a + [token] + b)
  {
    assert a + ([token] + b) == a + [token] + b;
  }

  lemma LexJoined(a: string, infix: string, token: Token, b: string, wide: char -> bool)
    requires (infix == " and " && token == AndToken) || (infix == " or " && token == OrToken)
    requires Lex(a, wide).Ok? && Lex(b, wide).Ok?
    ensures Lex(a + infix + b, wide) == Ok(Lex(a, wide).value + [token] + Lex(b, wide).value)
  {
    assert a + infix + b == a + (infix + b);
    LexConcat(a, infix + b, wide);
    LexInfix(infix, token, b, wide);
    TokensJoined(Lex(a, wide).value, token, Lex(b, wide).value);
  }

  function Enclosed(a: string): string {
    "(" + a + ")"
  }

  function EnclosedTokens(v: seq<Token>): seq<Token> {
    [LParen] + v + [RParen]
  }

  lemma LexEnclosed(a: string, wide: char -> bool)
    requires Lex(a, wide).Ok?
    ensures Lex(Enclosed(a), wide) == Ok(EnclosedTokens(Lex(a, wide).value))
  {
    Regroup("(", a, ")", "");
    assert ")" + "" == ")" && "(" + a + ")" + "" == Enclosed(a);
    LexClose("", wide);
    LexConcat(a, ")", wide);
    LexOpen(a + ")", wide);
    TokensInParens(Lex(a, wide).value, Ok([]));
    var ts := EnclosedTokens(Lex(a, wide).value);
    assert ts + [] == ts;
  }

  // ---------------------------------------------------------------- token lists side by side

  ghost predicate MeansEither(e: TagExpression, x: TagExpression, y: TagExpression) {
    forall tags :: Matches(e, tags) <==> Matches(x, tags) || Matches(y, tags)
  }

  /** `ts` is one list, `or`, and another. */
  predicate Joins(ts: seq<Token>, v: seq<Token>, w: seq<Token>) {
    |ts| == |v| + 1 + |w| && ts[..|v|] == v && ts[|v|] == OrToken && ts[|v| + 1..] == w
  }

  lemma FormerOperand(ts: seq<Token>, v: seq<Token>, w: seq<Token>, x: TagExpression)
    requires Joins(ts, v, w) && IsOr(v, 0, |v|, x)
    ensures IsOr(ts, 0, |v|, x)
  {
    assert ts[0..|v|] == v[0..|v|];
    OrElsewhere(v, ts, 0, |v|, 0, x);
  }

  lemma LaterOperand(ts: seq<Token>, v: seq<Token>, w: seq<Token>, i: nat, j: nat, y: TagExpression)
    requires Joins(ts, v, w) && i <= j <= |w| && IsAnd(w, i, j, y)
    ensures IsAnd(ts, |v| + 1 + i, |v| + 1 + j, y)
    ensures forall m :: 0 <= m < |w| ==> ts[|v| + 1 + m] == w[m]
  {
    var k := |v| + 1;
    assert forall m :: 0 <= m < |w| ==> ts[k..][m] == ts[k + m];
    assert ts[k + i..k + j] == w[i..j];
    AndElsewhere(w, ts, i, j, k + i, y);
  }

  lemma OrOne(ts: seq<Token>, m: nat, j: nat, x: TagExpression, y: TagExpression)
    requires m < j <= |ts| && ts[m] == OrToken && IsOr(ts, 0, m, x) && IsAnd(ts, m + 1, j, y)
    ensures IsOr(ts, 0, j, Or(x, y))
  {
  }

  /** A chain of `or` before another is one chain, grouped to the left; it means the same. */
  lemma {:induction false} OrChains(ts: seq<Token>, v: seq<Token>, x: TagExpression, w: seq<Token>, j: nat,
                                    y: TagExpression)
    returns (e: TagExpression)
    requires Joins(ts, v, w) && IsOr(v, 0, |v|, x) && j <= |w| && IsOr(w, 0, j, y)
    ensures IsOr(ts, 0, |v| + 1 + j, e) && MeansEither(e, x, y)
    decreases j
  {
    if IsAnd(w, 0, j, y) {
      e := Or(x, y);
      FormerOperand(ts, v, w, x);
      LaterOperand(ts, v, w, 0, j, y);
      OrOne(ts, |v|, |v| + 1 + j, x, y);
    } else {
      var m :| 0 <= m < j && w[m] == OrToken && IsOr(w, 0, m, y.left) && IsAnd(w, m + 1, j, y.right);
      var f := OrChains(ts, v, x, w, m, y.left);
      e := Or(f, y.right);
      LaterOperand(ts, v, w, m + 1, j, y.right);
      OrOne(ts, |v| + 1 + m, |v| + 1 + j, f, y.right);
    }
  }

  lemma EnclosedDerives(v: seq<Token>, x: TagExpression)
    requires IsOr(v, 0, |v|, x)
    ensures IsNot(EnclosedTokens(v), 0, |v| + 2, x)
  {
    var ts := EnclosedTokens(v);
    assert ts[1..1 + |v|] == v[0..|v|];
    OrElsewhere(v, ts, 0, |v|, 1, x);
    assert IsAtom(ts, 0, |ts|, x);
  }

  lemma AndParses(ts: seq<Token>, e: TagExpression)
    requires IsAnd(ts, 0, |ts|, e)
    ensures ParsedTokens(ts) == Ok(e)
  {
    ParserIsTheGrammar(ts, e);
  }

  lemma AndJoins(v: seq<Token>, x: TagExpression, w: seq<Token>, y: TagExpression)
    requires IsAnd(v, 0, |v|, x) && IsNot(w, 0, |w|, y)
    ensures ParsedTokens(v + [AndToken] + w) == Ok(And(x, y))
  {
    AndDerives(x, v, y, w);
    AndParses(v + [AndToken] + w, And(x, y));
  }

  lemma Negates(ts: seq<Token>, v: seq<Token>, x: TagExpression)
    requires IsNot(v, 0, |v|, x) && ts == [NotToken] + v
    ensures ParsedTokens(ts) == Ok(Not(x))
  {
    assert ts[1..1 + |v|] == v[0..|v|];
    NotElsewhere(v, ts, 0, |v|, 1, x);
    AndParses(ts, Not(x));
  }

  // ---------------------------------------------------------------- filters

  /** Any two filters joined by ` or ` are a filter that selects what either selects, without parentheses. */
  lemma FiltersJoinWithOr(a: string, b: string, x: TagExpression, y: TagExpression, wide: char -> bool)
    requires ParsedText(a, wide) == Ok(x) && ParsedText(b, wide) == Ok(y)
    ensures ParsedText(a + " or " + b, wide).Ok? && MeansEither(ParsedText(a + " or " + b, wide).value, x, y)
  {
    var v, w := Lex(a, wide).value, Lex(b, wide).value;
    LexJoined(a, " or ", OrToken, b, wide);
    ParserIsTheGrammar(v, x);
    ParserIsTheGrammar(w, y);
    var ts := v + [OrToken] + w;
    assert Joins(ts, v, w);
    var e := OrChains(ts, v, x, w, |w|, y);
    ParserIsTheGrammar(ts, e);
  }

  lemma EnclosedParses(a: string, x: TagExpression, wide: char -> bool) returns (v: seq<Token>)
    requires ParsedText(a, wide) == Ok(x)
    ensures Lex(Enclosed(a), wide) == Ok(v) && IsNot(v, 0, |v|, x)
  {
    var ts := Lex(a, wide).value;
    LexEnclosed(a, wide);
    ParserIsTheGrammar(ts, x);
    EnclosedDerives(ts, x);
    v := EnclosedTokens(ts);
  }

  /** In parentheses any two filters join with ` and `, to what both select; and any filter can be negated, to what
      it does not select. */
  lemma FiltersJoinWithAnd(a: string, b: string, x: TagExpression, y: TagExpression, wide: char -> bool)
    requires ParsedText(a, wide) == Ok(x) && ParsedText(b, wide) == Ok(y)
    ensures ParsedText(Enclosed(a) + " and " + Enclosed(b), wide) == Ok(And(x, y))
    ensures forall tags :: Matches(ParsedText(Enclosed(a) + " and " + Enclosed(b), wide).value, tags) <==>
                           Matches(x, tags) && Matches(y, tags)
  {
    var v := EnclosedParses(a, x, wide);
    var w := EnclosedParses(b, y, wide);
    LexJoined(Enclosed(a), " and ", AndToken, Enclosed(b), wide);
    AndJoins(v, x, w, y);
  }

  lemma FiltersNegate(a: string, x: TagExpression, wide: char -> bool)
    requires ParsedText(a, wide) == Ok(x)
    ensures ParsedText("not " + Enclosed(a), wide) == Ok(Not(x))
    ensures forall tags :: Matches(ParsedText("not " + Enclosed(a), wide).value, tags) <==> !Matches(x, tags)
  {
    var v := EnclosedParses(a, x, wide);
    LexNotWord(Enclosed(a), wide);
    Negates([NotToken] + v, v, x);
  }

  /** A tag on its own selects the scenarios that carry it. */
  lemma TagSelects(name: string, wide: char -> bool)
    requires LegalName(name, wide)
    ensures ParsedText(name, wide).Ok?
    ensures forall tags: seq<string> :: Matches(ParsedText(name, wide).value, tags) <==> name in tags
  {
    ParsingUndoesPrinting(Tag(name), wide);
  }

  /** Which tags a scenario carries decides, not their order or how often they are given. */
  lemma {:induction false} OnlyTagsCount(e: TagExpression, tags: seq<string>, others: seq<string>)
    requires forall t :: t in tags <==> t in others
    ensures Matches(e, tags) <==> Matches(e, others)
  {
    match e
    case Tag(_) =>
    case Not(inner) => OnlyTagsCount(inner, tags, others);
    case And(a, b) =>
      OnlyTagsCount(a, tags, others);
      OnlyTagsCount(b, tags, others);
    case Or(a, b) =>
      OnlyTagsCount(a, tags, others);
      OnlyTagsCount(b, tags, others);
  }
}
