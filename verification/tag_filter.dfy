/** Cucumber tag expressions: tokenizer, recursive-descent parser and evaluation
    (crates/ferridriver-bdd/src/filter.rs). */
module TagFilter {
  import opened Json
  import opened Scanning

  datatype TagExpression =
    | Tag(name: string)
    | Not(inner: TagExpression)
    | And(left: TagExpression, right: TagExpression)
    | Or(left: TagExpression, right: TagExpression)

  predicate Matches(e: TagExpression, tags: seq<string>) {
    match e
    case Tag(t) => t in tags
    case Not(inner) => !Matches(inner, tags)
    case And(a, b) => Matches(a, tags) && Matches(b, tags)
    case Or(a, b) => Matches(a, tags) || Matches(b, tags)
  }

  datatype Token = TagToken(name: string) | AndToken | OrToken | NotToken | LParen | RParen

  datatype Error =
    | EmptyTagName
    | UnexpectedCharacter(c: char)
    | UnexpectedWord(word: string)
    | UnexpectedToken(token: Token)
    | UnexpectedEnd
    | MissingParen

  // ---------------------------------------------------------------- tokenizer

  predicate Blank(c: char) {
    c == ' ' || c == '\t' || c == '\n' || c == '\r'
  }

  function Prepend(t: Token, rest: Result<seq<Token>, Error>): Result<seq<Token>, Error> {
    if rest.Ok? then Ok([t] + rest.value) else rest
  }

  function Keyword(word: string, c: char): Result<Token, Error> {
    if word == "and" then Ok(AndToken)
    else if word == "or" then Ok(OrToken)
    else if word == "not" then Ok(NotToken)
    else if word == "" then Err(UnexpectedCharacter(c))
    else Err(UnexpectedWord(word))
  }

  function Lex(s: string, wide: char -> bool): Result<seq<Token>, Error>
    decreases |s|
  {
    if s == "" then Ok([])
    else if Blank(s[0]) then Lex(s[1..], wide)
    else if s[0] == '(' then Prepend(LParen, Lex(s[1..], wide))
    else if s[0] == ')' then Prepend(RParen, Lex(s[1..], wide))
    else if s[0] == '@' then
      var n := Leading(s[1..], true, wide);
      if n == 0 then Err(EmptyTagName) else Prepend(TagToken(s[..n + 1]), Lex(s[n + 1..], wide))
    else
      var n := Leading(s, false, wide);
      var keyword := Keyword(s[..n], s[0]);
      if keyword.Err? then Err(keyword.error) else Prepend(keyword.value, Lex(s[n..], wide))
  }

  lemma AfterPrepend(tokens: seq<Token>, t: Token, rest: Result<seq<Token>, Error>)
    ensures After([], rest) == rest
    ensures After(tokens, Prepend(t, rest)) == After(tokens + [t], rest)
  {
    if rest.Ok? {
      assert [] + rest.value == rest.value;
      assert tokens + ([t] + rest.value) == tokens + [t] + rest.value;
    }
  }

  method Tokenize(input: string, wide: char -> bool) returns (result: Result<seq<Token>, Error>)
    ensures result == Lex(input, wide)
  {
    var tokens, i := [], 0;
    assert input[0..] == input;
    AfterPrepend([], LParen, Lex(input, wide));
    while i < |input|
      invariant 0 <= i <= |input|
      invariant Lex(input, wide) == After(tokens, Lex(input[i..], wide))
    {
      var step, end := NextToken(input, i, wide);
      if step.Err? {
        return Err(step.error);
      }
      if step.value.Some? {
        AfterPrepend(tokens, step.value.value, Lex(input[end..], wide));
        tokens := tokens + [step.value.value];
      }
      i := end;
    }
    assert input[i..] == "" && tokens + [] == tokens;
    result := Ok(tokens);
  }

  /** What one round of the tokenizing loop makes of the text from here on. */
  function AfterStep(step: Result<Option<Token>, Error>, rest: Result<seq<Token>, Error>): Result<seq<Token>, Error> {
    match step
    case Err(e) => Err(e)
    case Ok(None) => rest
    case Ok(Some(token)) => Prepend(token, rest)
  }

  /** The loop body: a blank, a parenthesis, a tag or a keyword. */
  method NextToken(input: string, start: nat, wide: char -> bool) returns (step: Result<Option<Token>, Error>, end: nat)
    requires start < |input|
    ensures start <= end <= |input| && (step.Ok? ==> start < end)
    ensures Lex(input[start..], wide) == AfterStep(step, Lex(input[end..], wide))
  {
    var c := input[start];
    assert input[start..][1..] == input[start + 1..];
    if Blank(c) {
      step, end := Ok(None), start + 1;
    } else if c == '(' || c == ')' {
      step, end := Ok(Some(if c == '(' then LParen else RParen)), start + 1;
    } else if c == '@' {
      step, end := NextTag(input, start, wide);
    } else {
      step, end := NextWord(input, start, wide);
    }
  }

  method NextTag(input: string, start: nat, wide: char -> bool) returns (step: Result<Option<Token>, Error>, end: nat)
    requires start < |input| && input[start] == '@'
    ensures start < end <= |input|
    ensures Lex(input[start..], wide) == AfterStep(step, Lex(input[end..], wide))
  {
    end := TakeWhile(input, start + 1, true, wide);
    assert input[start..][1..] == input[start + 1..];
    assert input[start..][..end - start] == input[start..end];
    assert input[start..][end - start..] == input[end..];
    step := if end == start + 1 then Err(EmptyTagName) else Ok(Some(TagToken(input[start..end])));
  }

  method NextWord(input: string, start: nat, wide: char -> bool) returns (step: Result<Option<Token>, Error>, end: nat)
    requires start < |input| && !Blank(input[start]) && input[start] !in "()@"
    ensures start <= end <= |input| && (step.Ok? ==> start < end)
    ensures Lex(input[start..], wide) == AfterStep(step, Lex(input[end..], wide))
  {
    end := TakeWhile(input, start, false, wide);
    assert input[start..][..end - start] == input[start..end];
    assert input[start..][end - start..] == input[end..];
    var keyword := Keyword(input[start..end], input[start]);
    step := if keyword.Err? then Err(keyword.error) else Ok(Some(keyword.value));
  }

  function After(tokens: seq<Token>, rest: Result<seq<Token>, Error>): Result<seq<Token>, Error> {
    if rest.Ok? then Ok(tokens + rest.value) else rest
  }

  // ---------------------------------------------------------------- parser

  datatype Parsed = Parsed(expr: TagExpression, pos: nat) | Failed(error: Error)

  function ParsedOr(ts: seq<Token>, p: nat): (r: Parsed)
    ensures r.Parsed? ==> p < r.pos <= |ts|
    decreases |ts| - p, 4
  {
    var left := ParsedAnd(ts, p);
    if left.Failed? then left else OrRest(ts, left.pos, left.expr)
  }

  function OrRest(ts: seq<Token>, p: nat, left: TagExpression): (r: Parsed)
    requires p <= |ts|
    ensures r.Parsed? ==> p <= r.pos <= |ts|
    decreases |ts| - p, 5
  {
    if p < |ts| && ts[p] == OrToken then
      var right := ParsedAnd(ts, p + 1);
      if right.Failed? then right else OrRest(ts, right.pos, Or(left, right.expr))
    else Parsed(left, p)
  }

  function ParsedAnd(ts: seq<Token>, p: nat): (r: Parsed)
    ensures r.Parsed? ==> p < r.pos <= |ts|
    decreases |ts| - p, 3
  {
    var left := ParsedNot(ts, p);
    if left.Failed? then left else AndRest(ts, left.pos, left.expr)
  }

  function AndRest(ts: seq<Token>, p: nat, left: TagExpression): (r: Parsed)
    requires p <= |ts|
    ensures r.Parsed? ==> p <= r.pos <= |ts|
    decreases |ts| - p, 5
  {
    if p < |ts| && ts[p] == AndToken then
      var right := ParsedNot(ts, p + 1);
      if right.Failed? then right else AndRest(ts, right.pos, And(left, right.expr))
    else Parsed(left, p)
  }

  function ParsedNot(ts: seq<Token>, p: nat): (r: Parsed)
    ensures r.Parsed? ==> p < r.pos <= |ts|
    decreases |ts| - p, 2
  {
    if p < |ts| && ts[p] == NotToken then
      var inner := ParsedNot(ts, p + 1);
      if inner.Failed? then inner else Parsed(Not(inner.expr), inner.pos)
    else ParsedAtom(ts, p)
  }

  function ParsedAtom(ts: seq<Token>, p: nat): (r: Parsed)
    ensures r.Parsed? ==> p < r.pos <= |ts|
    decreases |ts| - p, 1
  {
    if p >= |ts| then Failed(UnexpectedEnd)
    else
      match ts[p]
      case TagToken(name) => Parsed(Tag(name), p + 1)
      case LParen =>
        var inner := ParsedOr(ts, p + 1);
        if inner.Failed? then inner
        else if inner.pos >= |ts| || ts[inner.pos] != RParen then Failed(MissingParen)
        else Parsed(inner.expr, inner.pos + 1)
      case other => Failed(UnexpectedToken(other))
  }

  function ParsedTokens(ts: seq<Token>): Result<TagExpression, Error> {
    match ParsedOr(ts, 0)
    case Failed(error) => Err(error)
    case Parsed(expr, pos) => if pos < |ts| then Err(UnexpectedToken(ts[pos])) else Ok(expr)
  }

  /** `TagExpression::parse`. */
  function ParsedText(input: string, wide: char -> bool): Result<TagExpression, Error> {
    var tokens := Lex(input, wide);
    if tokens.Err? then Err(tokens.error) else ParsedTokens(tokens.value)
  }

  method Parse(input: string, wide: char -> bool) returns (result: Result<TagExpression, Error>)
    ensures result == ParsedText(input, wide)
  {
    var tokens := Tokenize(input, wide);
    if tokens.Err? {
      return Err(tokens.error);
    }
    var parsed := ParseOr(tokens.value, 0);
    if parsed.Failed? {
      return Err(parsed.error);
    }
    if parsed.pos < |tokens.value| {
      return Err(UnexpectedToken(tokens.value[parsed.pos]));
    }
    result := Ok(parsed.expr);
  }

  method ParseOr(ts: seq<Token>, start: nat) returns (r: Parsed)
    ensures r == ParsedOr(ts, start)
    decreases |ts| - start, 4
  {
    r := ParseAnd(ts, start);
    if r.Failed? {
      return;
    }
    var left, pos := r.expr, r.pos;
    while pos < |ts| && ts[pos] == OrToken
      invariant start < pos <= |ts|
      invariant ParsedOr(ts, start) == OrRest(ts, pos, left)
      decreases |ts| - pos
    {
      r := ParseAnd(ts, pos + 1);
      if r.Failed? {
        return;
      }
      left, pos := Or(left, r.expr), r.pos;
    }
    r := Parsed(left, pos);
  }

  method ParseAnd(ts: seq<Token>, start: nat) returns (r: Parsed)
    ensures r == ParsedAnd(ts, start)
    decreases |ts| - start, 3
  {
    r := ParseNot(ts, start);
    if r.Failed? {
      return;
    }
    var left, pos := r.expr, r.pos;
    while pos < |ts| && ts[pos] == AndToken
      invariant start < pos <= |ts|
      invariant ParsedAnd(ts, start) == AndRest(ts, pos, left)
      decreases |ts| - pos
    {
      r := ParseNot(ts, pos + 1);
      if r.Failed? {
        return;
      }
      left, pos := And(left, r.expr), r.pos;
    }
    r := Parsed(left, pos);
  }

  method ParseNot(ts: seq<Token>, start: nat) returns (r: Parsed)
    ensures r == ParsedNot(ts, start)
    decreases |ts| - start, 2
  {
    if start < |ts| && ts[start] == NotToken {
      r := ParseNot(ts, start + 1);
      if r.Parsed? {
        r := Parsed(Not(r.expr), r.pos);
      }
      return;
    }
    r := ParseAtom(ts, start);
  }

  method ParseAtom(ts: seq<Token>, start: nat) returns (r: Parsed)
    ensures r == ParsedAtom(ts, start)
    decreases |ts| - start, 1
  {
    if start >= |ts| {
      return Failed(UnexpectedEnd);
    }
    match ts[start] {
      case TagToken(name) =>
        r := Parsed(Tag(name), start + 1);
      case LParen =>
        r := ParseOr(ts, start + 1);
        if r.Parsed? {
          r := if r.pos >= |ts| || ts[r.pos] != RParen then Failed(MissingParen) else Parsed(r.expr, r.pos + 1);
        }
      case other =>
        r := Failed(UnexpectedToken(other));
    }
  }

  // ---------------------------------------------------------------- the documented grammar

  /** `or_expr = and_expr ("or" and_expr)*`: tokens `i` to `j` derive `e`. */
  predicate IsOr(ts: seq<Token>, i: nat, j: nat, e: TagExpression)
    requires i <= j <= |ts|
    decreases j - i, 4
  {
    IsAnd(ts, i, j, e) ||
    (e.Or? && exists m :: i <= m < j && ts[m] == OrToken && IsOr(ts, i, m, e.left) && IsAnd(ts, m + 1, j, e.right))
  }

  /** `and_expr = not_expr ("and" not_expr)*`. */
  predicate IsAnd(ts: seq<Token>, i: nat, j: nat, e: TagExpression)
    requires i <= j <= |ts|
    decreases j - i, 3
  {
    IsNot(ts, i, j, e) ||
    (e.And? && exists m :: i <= m < j && ts[m] == AndToken && IsAnd(ts, i, m, e.left) && IsNot(ts, m + 1, j, e.right))
  }

  /** `not_expr = "not" not_expr | atom`. */
  predicate IsNot(ts: seq<Token>, i: nat, j: nat, e: TagExpression)
    requires i <= j <= |ts|
    decreases j - i, 2
  {
    IsAtom(ts, i, j, e) || (i < j && ts[i] == NotToken && e.Not? && IsNot(ts, i + 1, j, e.inner))
  }

  /** `atom = "@" IDENT | "(" expr ")"`. */
  predicate IsAtom(ts: seq<Token>, i: nat, j: nat, e: TagExpression)
    requires i <= j <= |ts|
    decreases j - i, 1
  {
    (j == i + 1 && ts[i].TagToken? && e == Tag(ts[i].name)) ||
    (i + 2 <= j && ts[i] == LParen && ts[j - 1] == RParen && IsOr(ts, i + 1, j - 1, e))
  }

  // -------- the parser derives what it returns

  lemma {:induction false} OrSound(ts: seq<Token>, p: nat)
    requires p <= |ts|
    ensures var r := ParsedOr(ts, p); r.Parsed? ==> IsOr(ts, p, r.pos, r.expr)
    decreases |ts| - p, 4
  {
    AndSound(ts, p);
    var left := ParsedAnd(ts, p);
    if left.Parsed? {
      OrRestSound(ts, p, left.pos, left.expr);
    }
  }

  lemma {:induction false} OrRestSound(ts: seq<Token>, i: nat, p: nat, left: TagExpression)
    requires i < p <= |ts| && IsOr(ts, i, p, left)
    ensures var r := OrRest(ts, p, left); r.Parsed? ==> IsOr(ts, i, r.pos, r.expr)
    decreases |ts| - p, 5
  {
    if p < |ts| && ts[p] == OrToken {
      AndSound(ts, p + 1);
      var right := ParsedAnd(ts, p + 1);
      if right.Parsed? {
        OrRestSound(ts, i, right.pos, Or(left, right.expr));
      }
    }
  }

  lemma {:induction false} AndSound(ts: seq<Token>, p: nat)
    requires p <= |ts|
    ensures var r := ParsedAnd(ts, p); r.Parsed? ==> IsAnd(ts, p, r.pos, r.expr)
    decreases |ts| - p, 3
  {
    NotSound(ts, p);
    var left := ParsedNot(ts, p);
    if left.Parsed? {
      AndRestSound(ts, p, left.pos, left.expr);
    }
  }

  lemma {:induction false} AndRestSound(ts: seq<Token>, i: nat, p: nat, left: TagExpression)
    requires i < p <= |ts| && IsAnd(ts, i, p, left)
    ensures var r := AndRest(ts, p, left); r.Parsed? ==> IsAnd(ts, i, r.pos, r.expr)
    decreases |ts| - p, 5
  {
    if p < |ts| && ts[p] == AndToken {
      NotSound(ts, p + 1);
      var right := ParsedNot(ts, p + 1);
      if right.Parsed? {
        AndRestSound(ts, i, right.pos, And(left, right.expr));
      }
    }
  }

  lemma {:induction false} NotSound(ts: seq<Token>, p: nat)
    requires p <= |ts|
    ensures var r := ParsedNot(ts, p); r.Parsed? ==> IsNot(ts, p, r.pos, r.expr)
    decreases |ts| - p, 2
  {
    if p < |ts| && ts[p] == NotToken {
      NotSound(ts, p + 1);
    } else if p < |ts| && ts[p] == LParen {
      OrSound(ts, p + 1);
    }
  }

  // -------- whatever the grammar derives, the parser finds

  lemma {:induction false} OrComplete(ts: seq<Token>, i: nat, j: nat, e: TagExpression)
    requires i <= j <= |ts| && IsOr(ts, i, j, e) && (j < |ts| ==> ts[j] != AndToken)
    ensures ParsedOr(ts, i) == OrRest(ts, j, e)
    decreases j - i, 4
  {
    if IsAnd(ts, i, j, e) {
      AndComplete(ts, i, j, e);
    } else {
      var m :| i <= m < j && ts[m] == OrToken && IsOr(ts, i, m, e.left) && IsAnd(ts, m + 1, j, e.right);
      OrComplete(ts, i, m, e.left);
      AndComplete(ts, m + 1, j, e.right);
    }
  }

  lemma {:induction false} AndComplete(ts: seq<Token>, i: nat, j: nat, e: TagExpression)
    requires i <= j <= |ts| && IsAnd(ts, i, j, e)
    ensures ParsedAnd(ts, i) == AndRest(ts, j, e)
    decreases j - i, 3
  {
    if IsNot(ts, i, j, e) {
      NotComplete(ts, i, j, e);
    } else {
      var m :| i <= m < j && ts[m] == AndToken && IsAnd(ts, i, m, e.left) && IsNot(ts, m + 1, j, e.right);
      AndComplete(ts, i, m, e.left);
      NotComplete(ts, m + 1, j, e.right);
    }
  }

  lemma {:induction false} NotComplete(ts: seq<Token>, i: nat, j: nat, e: TagExpression)
    requires i <= j <= |ts| && IsNot(ts, i, j, e)
    ensures ParsedNot(ts, i) == Parsed(e, j)
    decreases j - i, 2
  {
    if IsAtom(ts, i, j, e) {
      if ts[i] == LParen {
        OrComplete(ts, i + 1, j - 1, e);
      }
    } else {
      NotComplete(ts, i + 1, j, e.inner);
    }
  }

  /** The parser accepts exactly what the grammar derives, all of it, and returns that derivation. */
  lemma ParserIsTheGrammar(ts: seq<Token>, e: TagExpression)
    ensures ParsedTokens(ts) == Ok(e) <==> IsOr(ts, 0, |ts|, e)
  {
    OrSound(ts, 0);
    if IsOr(ts, 0, |ts|, e) {
      OrComplete(ts, 0, |ts|, e);
    }
  }

  /** So the grammar is unambiguous. */
  lemma GrammarIsUnambiguous(ts: seq<Token>, e: TagExpression, f: TagExpression)
    requires IsOr(ts, 0, |ts|, e) && IsOr(ts, 0, |ts|, f)
    ensures e == f
  {
    ParserIsTheGrammar(ts, e);
    ParserIsTheGrammar(ts, f);
  }

  // ---------------------------------------------------------------- parsing undoes printing

  /** The tokens of the precedence-aware rendering: parentheses only where the grammar needs them. */
  function Tokens(e: TagExpression): seq<Token>
    decreases e, 0
  {
    match e
    case Tag(name) => [TagToken(name)]
    case Not(inner) => [NotToken] + Wrapped(inner, inner.And? || inner.Or?)
    case And(a, b) => Wrapped(a, a.Or?) + [AndToken] + Wrapped(b, b.And? || b.Or?)
    case Or(a, b) => Tokens(a) + [OrToken] + Wrapped(b, b.Or?)
  }

  function Wrapped(e: TagExpression, parens: bool): seq<Token>
    decreases e, 1
  {
    if parens then [LParen] + Tokens(e) + [RParen] else Tokens(e)
  }

  function Rendered(e: TagExpression): string
    decreases e, 0
  {
    match e
    case Tag(name) => name
    case Not(inner) => "not " + Text(inner, inner.And? || inner.Or?)
    case And(a, b) => Text(a, a.Or?) + " and " + Text(b, b.And? || b.Or?)
    case Or(a, b) => Rendered(a) + " or " + Text(b, b.Or?)
  }

  function Text(e: TagExpression, parens: bool): string
    decreases e, 1
  {
    if parens then "(" + Rendered(e) + ")" else Rendered(e)
  }

  /** `ts[i..j]` reads the same in place as on its own. */
  lemma {:induction false} OrElsewhere(ts: seq<Token>, us: seq<Token>, i: nat, j: nat, k: nat, e: TagExpression)
    requires i <= j <= |ts| && k + (j - i) <= |us| && ts[i..j] == us[k..k + (j - i)] && IsOr(ts, i, j, e)
    ensures IsOr(us, k, k + (j - i), e)
    decreases j - i, 4
  {
    if IsAnd(ts, i, j, e) {
      AndElsewhere(ts, us, i, j, k, e);
    } else {
      var m :| i <= m < j && ts[m] == OrToken && IsOr(ts, i, m, e.left) && IsAnd(ts, m + 1, j, e.right);
      Slices(ts, us, i, j, k, m);
      OrElsewhere(ts, us, i, m, k, e.left);
      AndElsewhere(ts, us, m + 1, j, k + (m + 1 - i), e.right);
    }
  }

  lemma {:induction false} AndElsewhere(ts: seq<Token>, us: seq<Token>, i: nat, j: nat, k: nat, e: TagExpression)
    requires i <= j <= |ts| && k + (j - i) <= |us| && ts[i..j] == us[k..k + (j - i)] && IsAnd(ts, i, j, e)
    ensures IsAnd(us, k, k + (j - i), e)
    decreases j - i, 3
  {
    if IsNot(ts, i, j, e) {
      NotElsewhere(ts, us, i, j, k, e);
    } else {
      var m :| i <= m < j && ts[m] == AndToken && IsAnd(ts, i, m, e.left) && IsNot(ts, m + 1, j, e.right);
      Slices(ts, us, i, j, k, m);
      AndElsewhere(ts, us, i, m, k, e.left);
      NotElsewhere(ts, us, m + 1, j, k + (m + 1 - i), e.right);
    }
  }

  lemma {:induction false} NotElsewhere(ts: seq<Token>, us: seq<Token>, i: nat, j: nat, k: nat, e: TagExpression)
    requires i <= j <= |ts| && k + (j - i) <= |us| && ts[i..j] == us[k..k + (j - i)] && IsNot(ts, i, j, e)
    ensures IsNot(us, k, k + (j - i), e)
    decreases j - i, 2
  {
    if i < j {
      Slices(ts, us, i, j, k, i);
      Slices(ts, us, i, j, k, j - 1);
    }
    if IsAtom(ts, i, j, e) {
      if j != i + 1 {
        Slices(ts, us, i + 1, j, k + 1, j - 1);
        OrElsewhere(ts, us, i + 1, j - 1, k + 1, e);
      }
    } else {
      NotElsewhere(ts, us, i + 1, j, k + 1, e.inner);
    }
  }

  lemma Slices(ts: seq<Token>, us: seq<Token>, i: nat, j: nat, k: nat, m: nat)
    requires i <= m < j <= |ts| && k + (j - i) <= |us| && ts[i..j] == us[k..k + (j - i)]
    ensures ts[m] == us[k + (m - i)]
    ensures ts[i..m] == us[k..k + (m - i)] && ts[m + 1..j] == us[k + (m + 1 - i)..k + (j - i)]
  {
    var slice, other, n := ts[i..j], us[k..k + (j - i)], m - i;
    assert slice[n] == ts[m] && other[n] == us[k + n];
    assert ts[i..m] == slice[..n] && us[k..k + n] == other[..n];
    assert ts[m + 1..j] == slice[n + 1..] && us[k + n + 1..k + (j - i)] == other[n + 1..];
  }

  lemma {:induction false} TokensDerive(e: TagExpression)
    ensures IsOr(Tokens(e), 0, |Tokens(e)|, e)
    ensures !e.Or? ==> IsAnd(Tokens(e), 0, |Tokens(e)|, e)
    ensures !e.Or? && !e.And? ==> IsNot(Tokens(e), 0, |Tokens(e)|, e)
    decreases e, 0
  {
    var ts, n := Tokens(e), |Tokens(e)|;
    match e
    case Tag(name) =>
    case Not(inner) =>
      var w := Wrapped(inner, inner.And? || inner.Or?);
      WrappedDerives(inner, inner.And? || inner.Or?);
      assert ts[1..n] == w[0..|w|];
      NotElsewhere(w, ts, 0, |w|, 1, inner);
    case And(a, b) =>
      WrappedDerives(a, a.Or?);
      WrappedDerives(b, b.And? || b.Or?);
      AndDerives(a, Wrapped(a, a.Or?), b, Wrapped(b, b.And? || b.Or?));
    case Or(a, b) =>
      TokensDerive(a);
      WrappedDerives(b, b.Or?);
      OrDerives(a, Tokens(a), b, Wrapped(b, b.Or?));
  }

  lemma AndDerives(a: TagExpression, v: seq<Token>, b: TagExpression, w: seq<Token>)
    requires IsAnd(v, 0, |v|, a) && IsNot(w, 0, |w|, b)
    ensures IsAnd(v + [AndToken] + w, 0, |v| + 1 + |w|, And(a, b))
  {
    var ts := v + [AndToken] + w;
    assert ts[0..|v|] == v[0..|v|] && ts[|v| + 1..|ts|] == w[0..|w|] && ts[|v|] == AndToken;
    AndElsewhere(v, ts, 0, |v|, 0, a);
    NotElsewhere(w, ts, 0, |w|, |v| + 1, b);
  }

  lemma OrDerives(a: TagExpression, v: seq<Token>, b: TagExpression, w: seq<Token>)
    requires IsOr(v, 0, |v|, a) && IsAnd(w, 0, |w|, b)
    ensures IsOr(v + [OrToken] + w, 0, |v| + 1 + |w|, Or(a, b))
  {
    var ts := v + [OrToken] + w;
    assert ts[0..|v|] == v[0..|v|] && ts[|v| + 1..|ts|] == w[0..|w|] && ts[|v|] == OrToken;
    OrElsewhere(v, ts, 0, |v|, 0, a);
    AndElsewhere(w, ts, 0, |w|, |v| + 1, b);
  }

  lemma {:induction false} WrappedDerives(e: TagExpression, parens: bool)
    ensures !e.Or? || parens ==> IsAnd(Wrapped(e, parens), 0, |Wrapped(e, parens)|, e)
    ensures (!e.Or? && !e.And?) || parens ==> IsNot(Wrapped(e, parens), 0, |Wrapped(e, parens)|, e)
    decreases e, 1
  {
    TokensDerive(e);
    if parens {
      var ts, w := Tokens(e), Wrapped(e, parens);
      assert w[1..1 + |ts|] == ts[0..|ts|];
      OrElsewhere(ts, w, 0, |ts|, 1, e);
      assert IsAtom(w, 0, |w|, e);
    }
  }

  // -------- the text lexes to the tokens

  predicate LegalName(name: string, wide: char -> bool) {
    |name| > 1 && name[0] == '@' && forall i :: 0 < i < |name| ==> Continues(name[i], true, wide)
  }

  predicate LegalTags(e: TagExpression, wide: char -> bool) {
    match e
    case Tag(name) => LegalName(name, wide)
    case Not(inner) => LegalTags(inner, wide)
    case And(a, b) => LegalTags(a, wide) && LegalTags(b, wide)
    case Or(a, b) => LegalTags(a, wide) && LegalTags(b, wide)
  }

  /** A name cannot run on into `rest`. */
  predicate Delimited(rest: string, wide: char -> bool) {
    rest == "" || !Continues(rest[0], true, wide)
  }

  lemma LexName(name: string, rest: string, wide: char -> bool)
    requires LegalName(name, wide) && Delimited(rest, wide)
    ensures Lex(name + rest, wide) == Prepend(TagToken(name), Lex(rest, wide))
  {
    var s := name + rest;
    assert s[1..] == name[1..] + rest;
    LeadingAll(name[1..], rest, true, wide);
    assert s[..|name|] == name && s[|name|..] == rest;
  }

  lemma LexKeyword(word: string, rest: string, wide: char -> bool)
    requires word == "and" || word == "or" || word == "not"
    ensures Lex(word + " " + rest, wide) == Prepend(Keyword(word, word[0]).value, Lex(rest, wide))
  {
    var s := word + " " + rest;
    assert s == word + (" " + rest);
    LeadingAll(word, " " + rest, false, wide);
    assert s[..|word|] == word && s[|word|..] == " " + rest;
    assert (" " + rest)[1..] == rest;
  }

  lemma LexBlank(rest: string, wide: char -> bool)
    ensures Lex(" " + rest, wide) == Lex(rest, wide)
  {
    assert (" " + rest)[1..] == rest;
  }

  lemma AfterConcat(a: seq<Token>, b: seq<Token>, rest: Result<seq<Token>, Error>)
    ensures After(a, After(b, rest)) == After(a + b, rest)
    ensures forall t :: After([t], rest) == Prepend(t, rest)
  {
    if rest.Ok? {
      assert a + (b + rest.value) == a + b + rest.value;
    }
  }

  lemma LexInfix(infix: string, token: Token, rest: string, wide: char -> bool)
    requires (infix == " and " && token == AndToken) || (infix == " or " && token == OrToken)
    ensures Lex(infix + rest, wide) == Prepend(token, Lex(rest, wide))
  {
    var word := if token == AndToken then "and" else "or";
    assert infix == " " + word + " " && infix + rest == " " + (word + " " + rest);
    LexBlank(word + " " + rest, wide);
    LexKeyword(word, rest, wide);
  }

  /** Two operands that lex on their own lex with an operator between them. */
  lemma LexBinary(left: string, ls: seq<Token>, infix: string, token: Token, right: string, rs: seq<Token>,
                  rest: string, wide: char -> bool)
    requires (infix == " and " && token == AndToken) || (infix == " or " && token == OrToken)
    requires Lex(left + (infix + (right + rest)), wide) == After(ls, Lex(infix + (right + rest), wide))
    requires Lex(right + rest, wide) == After(rs, Lex(rest, wide))
    ensures Lex(left + infix + right + rest, wide) == After(ls + [token] + rs, Lex(rest, wide))
  {
    Regroup(left, infix, right, rest);
    LexInfix(infix, token, right + rest, wide);
    AfterThree(ls, token, rs, Lex(rest, wide));
  }

  lemma AfterThree(ls: seq<Token>, token: Token, rs: seq<Token>, tail: Result<seq<Token>, Error>)
    ensures After(ls, Prepend(token, After(rs, tail))) == After(ls + [token] + rs, tail)
  {
    if tail.Ok? {
      assert ls + ([token] + (rs + tail.value)) == ls + [token] + rs + tail.value;
    }
  }

  lemma {:induction false} LexRendered(e: TagExpression, rest: string, wide: char -> bool)
    requires LegalTags(e, wide) && Delimited(rest, wide)
    ensures Lex(Rendered(e) + rest, wide) == After(Tokens(e), Lex(rest, wide))
    decreases e, 0
  {
    match e
    case Tag(name) =>
      LexName(name, rest, wide);
      AfterConcat([], [], Lex(rest, wide));
    case Not(inner) =>
      LexText(inner, inner.And? || inner.Or?, rest, wide);
      LexNot(Text(inner, inner.And? || inner.Or?), Wrapped(inner, inner.And? || inner.Or?), rest, wide);
    case And(a, b) =>
      LexText(a, a.Or?, " and " + (Text(b, b.And? || b.Or?) + rest), wide);
      LexText(b, b.And? || b.Or?, rest, wide);
      LexBinary(Text(a, a.Or?), Wrapped(a, a.Or?), " and ", AndToken,
                Text(b, b.And? || b.Or?), Wrapped(b, b.And? || b.Or?), rest, wide);
    case Or(a, b) =>
      LexText(a, false, " or " + (Text(b, b.Or?) + rest), wide);
      LexText(b, b.Or?, rest, wide);
      LexBinary(Text(a, false), Wrapped(a, false), " or ", OrToken, Text(b, b.Or?), Wrapped(b, b.Or?), rest, wide);
  }

  lemma LexNot(inner: string, ts: seq<Token>, rest: string, wide: char -> bool)
    requires Lex(inner + rest, wide) == After(ts, Lex(rest, wide))
    ensures Lex("not " + inner + rest, wide) == After([NotToken] + ts, Lex(rest, wide))
  {
    Regroup("not ", inner, "", rest);
    LexNotWord(inner + rest, wide);
    PrependAfter(NotToken, ts, Lex(rest, wide));
  }

  lemma LexNotWord(rest: string, wide: char -> bool)
    ensures Lex("not " + rest, wide) == Prepend(NotToken, Lex(rest, wide))
  {
    assert "not " + rest == "not" + " " + rest;
    LexKeyword("not", rest, wide);
  }

  lemma Regroup(a: string, b: string, c: string, d: string)
    ensures a + b + c + d == a + (b + (c + d))
    ensures a + b + d == a + (b + d)
  {
  }

  lemma PrependAfter(token: Token, ts: seq<Token>, tail: Result<seq<Token>, Error>)
    ensures Prepend(token, After(ts, tail)) == After([token] + ts, tail)
  {
    if tail.Ok? {
      assert [token] + (ts + tail.value) == [token] + ts + tail.value;
    }
  }

  lemma {:induction false} LexText(e: TagExpression, parens: bool, rest: string, wide: char -> bool)
    requires LegalTags(e, wide) && Delimited(rest, wide)
    ensures Lex(Text(e, parens) + rest, wide) == After(Wrapped(e, parens), Lex(rest, wide))
    decreases e, 1
  {
    if parens {
      LexRendered(e, ")" + rest, wide);
      LexParens(Rendered(e), Tokens(e), rest, wide);
    } else {
      LexRendered(e, rest, wide);
    }
  }

  /** What lexes before a closing parenthesis lexes between parentheses. */
  lemma {:induction false} LexParens(inner: string, ts: seq<Token>, rest: string, wide: char -> bool)
    requires Lex(inner + (")" + rest), wide) == After(ts, Lex(")" + rest, wide))
    ensures Lex("(" + inner + ")" + rest, wide) == After([LParen] + ts + [RParen], Lex(rest, wide))
  {
    LexClose(rest, wide);
    LexOpen(inner + (")" + rest), wide);
    TokensInParens(ts, Lex(rest, wide));
    Regroup("(", inner, ")", rest);
  }

  lemma TokensInParens(ts: seq<Token>, tail: Result<seq<Token>, Error>)
    ensures Prepend(LParen, After(ts, Prepend(RParen, tail))) == After([LParen] + ts + [RParen], tail)
  {
    AfterConcat(ts, [RParen], tail);
    PrependAfter(LParen, ts + [RParen], tail);
    assert [LParen] + (ts + [RParen]) == [LParen] + ts + [RParen];
  }

  lemma LexOpen(rest: string, wide: char -> bool)
    ensures Lex("(" + rest, wide) == Prepend(LParen, Lex(rest, wide))
  {
    assert ("(" + rest)[1..] == rest;
  }

  lemma LexClose(rest: string, wide: char -> bool)
    ensures Lex(")" + rest, wide) == Prepend(RParen, Lex(rest, wide))
  {
    assert (")" + rest)[1..] == rest;
  }

  /** Printing an expression and parsing the text gives the same tree back. */
  lemma ParsingUndoesPrinting(e: TagExpression, wide: char -> bool)
    requires LegalTags(e, wide)
    ensures ParsedText(Rendered(e), wide) == Ok(e)
  {
    assert Rendered(e) + "" == Rendered(e) && Tokens(e) + [] == Tokens(e);
    LexRendered(e, "", wide);
    TokensDerive(e);
    ParserIsTheGrammar(Tokens(e), e);
  }
}
