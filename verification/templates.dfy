/** `<column>` templates of Scenario Outlines: the one-pass title filler and the key-by-key
    replacement of step texts (crates/ferridriver-bdd/src/scenario.rs:189-243, 488-494). */
module Templates {
  import opened Scanning

  datatype Piece = Lit(c: char) | Hole(name: string)

  /** The first piece and its length: `<` up to the next `>`, unless there is nothing between. */
  function First(text: string): (r: (Piece, nat))
    requires text != ""
    ensures 0 < r.1 <= |text|
  {
    var n := Find(text[1..], '>');
    if text[0] == '<' && 0 < n < |text| - 1 then (Hole(text[1..1 + n]), n + 2) else (Lit(text[0]), 1)
  }

  function Pieces(text: string): seq<Piece>
    decreases |text|
  {
    if text == "" then [] else [First(text).0] + Pieces(text[First(text).1..])
  }

  function Source(p: Piece): string {
    match p
    case Lit(c) => [c]
    case Hole(name) => "<" + name + ">"
  }

  function Flat(ps: seq<Piece>): string {
    if ps == [] then "" else Source(ps[0]) + Flat(ps[1..])
  }

  /** A column becomes its value, anything else stays as written. */
  function Shown(p: Piece, params: map<string, string>): string {
    if p.Hole? && p.name in params then params[p.name] else Source(p)
  }

  function Filled(ps: seq<Piece>, params: map<string, string>): string {
    if ps == [] then "" else Shown(ps[0], params) + Filled(ps[1..], params)
  }

  // ---------------------------------------------------------------- the index loops

  /** The text built so far followed by the pieces still to come. */
  function FilledFrom(out: string, ps: seq<Piece>, params: map<string, string>): string
    decreases ps
  {
    if ps == [] then out else FilledFrom(out + Shown(ps[0], params), ps[1..], params)
  }

  lemma {:induction false} FilledFromIs(out: string, ps: seq<Piece>, params: map<string, string>)
    ensures FilledFrom(out, ps, params) == out + Filled(ps, params)
    decreases ps
  {
    if ps != [] {
      FilledFromIs(out + Shown(ps[0], params), ps[1..], params);
      assert out + Shown(ps[0], params) + Filled(ps[1..], params) ==
             out + (Shown(ps[0], params) + Filled(ps[1..], params));
    }
  }

  lemma {:induction false} FilledFromStart(ps: seq<Piece>, params: map<string, string>)
    ensures FilledFrom("", ps, params) == Filled(ps, params)
  {
    FilledFromIs("", ps, params);
    assert "" + Filled(ps, params) == Filled(ps, params);
  }

  lemma {:induction false} FilledNext(out: string, ps: seq<Piece>, params: map<string, string>)
    requires ps != []
    ensures FilledFrom(out, ps, params) == FilledFrom(out + Shown(ps[0], params), ps[1..], params)
  {}

  /** `out` and what is still unread of the template fill up to `filled`. */
  ghost predicate FillsUpTo(out: string, rest: string, params: map<string, string>, filled: string) {
    FilledFrom(out, Pieces(rest), params) == filled
  }

  lemma FillingStarts(template: string, params: map<string, string>)
    ensures FillsUpTo("", template[0..], params, Filled(Pieces(template), params))
  {
    assert template[0..] == template;
    FilledFromStart(Pieces(template), params);
  }

  lemma FillingEnds(out: string, template: string, params: map<string, string>, filled: string)
    requires FillsUpTo(out, template[|template|..], params, filled)
    ensures out == filled
  {
    assert Pieces(template[|template|..]) == [];
  }

  method FillTemplate(template: string, params: map<string, string>) returns (out: string)
    ensures out == Filled(Pieces(template), params)
  {
    var i := 0;
    out := "";
    ghost var filled := Filled(Pieces(template), params);
    FillingStarts(template, params);
    while i < |template|
      invariant i <= |template| && FillsUpTo(out, template[i..], params, filled)
    {
      var length;
      out, length := FillOne(template[i..], out, params, filled);
      assert template[i..][length..] == template[i + length..];
      i := i + length;
    }
    FillingEnds(out, template, params, filled);
  }

  /** The loop body of `fill_template`, which writes the piece that starts here. */
  method FillOne(rest: string, out: string, params: map<string, string>, ghost filled: string)
    returns (more: string, length: nat)
    requires rest != "" && FillsUpTo(out, rest, params, filled)
    ensures 0 < length <= |rest| && FillsUpTo(more, rest[length..], params, filled)
  {
    var shown;
    shown, length := ShowPiece(rest, params);
    more := out + shown;
    FilledNext(out, Pieces(rest), params);
  }

  /** A placeholder that starts here, or one character. */
  method ShowPiece(rest: string, params: map<string, string>) returns (shown: string, length: nat)
    requires rest != ""
    ensures shown == Shown(First(rest).0, params) && length == First(rest).1
  {
    if rest[0] == '<' {
      var close := Find(rest[1..], '>');
      if close < |rest| - 1 && close > 0 {
        var key := rest[1..1 + close];
        return if key in params then params[key] else "<" + key + ">", close + 2;
      }
    }
    return [rest[0]], 1;
  }

  function Names(ps: seq<Piece>): seq<string> {
    if ps == [] then [] else (if ps[0].Hole? then [ps[0].name] else []) + Names(ps[1..])
  }

  function NamesFrom(params: seq<string>, ps: seq<Piece>): seq<string>
    decreases ps
  {
    if ps == [] then params else NamesFrom(if ps[0].Hole? then params + [ps[0].name] else params, ps[1..])
  }

  lemma {:induction false} NamesFromIs(params: seq<string>, ps: seq<Piece>)
    ensures NamesFrom(params, ps) == params + Names(ps)
    decreases ps
  {
    if ps != [] {
      NamesFromIs(if ps[0].Hole? then params + [ps[0].name] else params, ps[1..]);
    }
  }

  method TemplateParams(text: string) returns (params: seq<string>)
    ensures params == Names(Pieces(text))
  {
    var i := 0;
    params := [];
    assert text[0..] == text;
    while i < |text|
      invariant i <= |text|
      invariant NamesFrom([], Pieces(text)) == NamesFrom(params, Pieces(text[i..]))
    {
      var (piece, length) := First(text[i..]);
      assert text[i..][length..] == text[i + length..];
      if piece.Hole? {
        params := params + [piece.name];
      }
      i := i + length;
    }
    NamesFromStart(Pieces(text));
  }

  lemma NamesFromStart(ps: seq<Piece>)
    ensures NamesFrom([], ps) == Names(ps)
  {
    NamesFromIs([], ps);
  }

  /** `str::replace`: non-overlapping occurrences from the left. */
  function Replace(s: string, pattern: string, value: string): string
    requires pattern != ""
    decreases |s|
  {
    if s == "" then ""
    else if pattern <= s then value + Replace(s[|pattern|..], pattern, value)
    else [s[0]] + Replace(s[1..], pattern, value)
  }

  function Bracketed(key: string): string {
    "<" + key + ">"
  }

  /** One replacement per key, in the order the map is walked. */
  function Replaced(text: string, order: seq<string>, values: map<string, string>): string
    requires forall k :: k in order ==> k in values
  {
    if order == [] then text
    else
      var n := |order| - 1;
      Replace(Replaced(text, order[..n], values), Bracketed(order[n]), values[order[n]])
  }

  method SubstitutePlaceholders(text: string, order: seq<string>, values: map<string, string>) returns (result: string)
    requires forall k :: k in order ==> k in values
    ensures result == Replaced(text, order, values)
  {
    result := text;
    for n := 0 to |order|
      invariant result == Replaced(text, order[..n], values)
    {
      assert order[..n + 1][..n] == order[..n];
      result := Replace(result, Bracketed(order[n]), values[order[n]]);
    }
    assert order[..|order|] == order;
  }

  // ---------------------------------------------------------------- texts that do not nest brackets

  predicate BracketFree(s: string) {
    forall i :: 0 <= i < |s| ==> s[i] != '<' && s[i] != '>'
  }

  predicate Closes(text: string, from: int) {
    exists k :: from <= k < |text| && 0 <= k && text[k] == '>'
  }

  /** No `<` opens between another `<` and the `>` that closes it. */
  predicate NoNesting(text: string) {
    forall i, j :: 0 <= i < j < |text| && text[i] == '<' && text[j] == '<' && Closes(text, j) ==>
      exists k :: i < k < j && text[k] == '>'
  }

  /** A stray `<` either is never closed or is closed at once. */
  predicate Tame(ps: seq<Piece>) {
    ps != [] ==>
      Tame(ps[1..]) &&
      match ps[0]
      case Lit(c) => c == '<' ==> var rest := Flat(ps[1..]); !Closes(rest, 0) || rest[0] == '>'
      case Hole(name) => name != "" && BracketFree(name)
  }

  lemma FirstSource(text: string)
    requires text != ""
    ensures Source(First(text).0) + text[First(text).1..] == text
  {
    var (p, n) := First(text);
    FindFirst(text[1..], '>');
    if p.Hole? {
      assert text[1..][n - 2] == text[n - 1];
    }
  }

  lemma FlatCons(p: Piece, ps: seq<Piece>)
    ensures Flat([p] + ps) == Source(p) + Flat(ps)
  {
    assert ([p] + ps)[1..] == ps;
  }

  lemma {:induction false} FlatPieces(text: string)
    ensures Flat(Pieces(text)) == text
    decreases |text|
  {
    if text != "" {
      var (p, n) := First(text);
      FlatPieces(text[n..]);
      FirstSource(text);
      FlatCons(p, Pieces(text[n..]));
    }
  }

  lemma NoNestingSuffix(text: string, n: nat)
    requires NoNesting(text) && n <= |text|
    ensures NoNesting(text[n..])
  {
    var rest := text[n..];
    forall i, j | 0 <= i < j < |rest| && rest[i] == '<' && rest[j] == '<' && Closes(rest, j)
      ensures exists k :: i < k < j && rest[k] == '>'
    {
      var close :| j <= close < |rest| && rest[close] == '>';
      assert text[n + close] == '>' && text[n + i] == '<' && text[n + j] == '<';
      assert Closes(text, n + j);
      var k :| n + i < k < n + j && text[k] == '>';
      assert rest[k - n] == '>';
    }
  }

  lemma HoleIsBracketFree(text: string)
    requires text != "" && NoNesting(text) && First(text).0.Hole?
    ensures BracketFree(First(text).0.name)
  {
    var (p, n) := First(text);
    var rest := text[1..];
    FindFirst(rest, '>');
    assert forall k :: 1 <= k < |text| ==> text[k] == rest[k - 1];
    assert forall k :: 1 <= k < n - 1 ==> text[k] != '>';
    assert text[n - 1] == '>';
    forall j | 0 <= j < |p.name| ensures p.name[j] != '<' && p.name[j] != '>' {
      assert p.name[j] == text[j + 1];
      assert Closes(text, j + 1);
    }
  }

  lemma StrayIsTame(text: string)
    requires text != "" && First(text).0 == Lit('<')
    ensures !Closes(text[1..], 0) || text[1] == '>'
  {
    FindFirst(text[1..], '>');
  }

  lemma {:induction false} PiecesAreTame(text: string)
    requires NoNesting(text)
    ensures Tame(Pieces(text))
    decreases |text|
  {
    if text != "" {
      var (p, n) := First(text);
      NoNestingSuffix(text, n);
      PiecesAreTame(text[n..]);
      FlatPieces(text[n..]);
      if p.Hole? {
        HoleIsBracketFree(text);
      } else if p.c == '<' {
        StrayIsTame(text);
      }
    }
  }

  // ---------------------------------------------------------------- replacing one column

  function Lits(s: string): seq<Piece> {
    seq(|s|, i requires 0 <= i < |s| => Lit(s[i]))
  }

  /** The placeholders in `params` replaced by their values, as text that is never looked at again. */
  function Put(ps: seq<Piece>, params: map<string, string>): seq<Piece> {
    if ps == [] then []
    else (if ps[0].Hole? && ps[0].name in params then Lits(params[ps[0].name]) else [ps[0]]) + Put(ps[1..], params)
  }

  lemma {:induction false} FlatConcat(a: seq<Piece>, b: seq<Piece>)
    ensures Flat(a + b) == Flat(a) + Flat(b)
    decreases |a|
  {
    if a == [] {
      assert a + b == b;
    } else {
      assert (a + b)[1..] == a[1..] + b;
      FlatConcat(a[1..], b);
      assert Source(a[0]) + (Flat(a[1..]) + Flat(b)) == Source(a[0]) + Flat(a[1..]) + Flat(b);
    }
  }

  lemma {:induction false} FlatLits(s: string)
    ensures Flat(Lits(s)) == s
    decreases |s|
  {
    if s != "" {
      assert Lits(s)[1..] == Lits(s[1..]);
      FlatLits(s[1..]);
      assert [s[0]] + s[1..] == s;
    }
  }

  lemma {:induction false} PutConcat(a: seq<Piece>, b: seq<Piece>, params: map<string, string>)
    ensures Put(a + b, params) == Put(a, params) + Put(b, params)
    decreases |a|
  {
    if a == [] {
      assert a + b == b;
    } else {
      assert (a + b)[1..] == a[1..] + b;
      PutConcat(a[1..], b, params);
    }
  }

  lemma {:induction false} PutLits(s: string, params: map<string, string>)
    ensures Put(Lits(s), params) == Lits(s)
    decreases |s|
  {
    if s != "" {
      assert Lits(s)[1..] == Lits(s[1..]);
      PutLits(s[1..], params);
    }
  }

  lemma {:induction false} FilledIsPut(ps: seq<Piece>, params: map<string, string>)
    ensures Filled(ps, params) == Flat(Put(ps, params))
  {
    if ps != [] {
      FilledIsPut(ps[1..], params);
      if ps[0].Hole? && ps[0].name in params {
        FlatLits(params[ps[0].name]);
        FlatConcat(Lits(params[ps[0].name]), Put(ps[1..], params));
      } else {
        FlatCons(ps[0], Put(ps[1..], params));
      }
    }
  }

  /** Putting one more column in is putting it in on its own afterwards. */
  lemma {:induction false} PutMore(ps: seq<Piece>, params: map<string, string>, key: string, value: string)
    requires key !in params
    ensures Put(Put(ps, params), map[key := value]) == Put(ps, params[key := value])
  {
    if ps != [] {
      PutMore(ps[1..], params, key, value);
      var head := if ps[0].Hole? && ps[0].name in params then Lits(params[ps[0].name]) else [ps[0]];
      PutConcat(head, Put(ps[1..], params), map[key := value]);
      if ps[0].Hole? && ps[0].name in params {
        PutLits(params[ps[0].name], map[key := value]);
      } else {
        assert [ps[0]][1..] == [];
      }
    }
  }

  /** Text without `<` cannot start an occurrence. */
  lemma {:induction false} ReplaceSkips(a: string, s: string, key: string, value: string)
    requires forall i :: 0 <= i < |a| ==> a[i] != '<'
    ensures Replace(a + s, Bracketed(key), value) == a + Replace(s, Bracketed(key), value)
    decreases |a|
  {
    if a == "" {
      assert a + s == s;
    } else {
      assert (a + s)[1..] == a[1..] + s && (a + s)[0] == a[0];
      ReplaceSkips(a[1..], s, key, value);
      assert Bracketed(key)[0] == '<';
      assert [a[0]] + (a[1..] + Replace(s, Bracketed(key), value)) == a + Replace(s, Bracketed(key), value);
    }
  }

  lemma PrefixNames(name: string, s: string, key: string)
    requires BracketFree(name) && BracketFree(key) && Bracketed(key) <= Bracketed(name) + s
    ensures name == key
  {
    var all, pattern := Bracketed(name) + s, Bracketed(key);
    assert name == all[1..1 + |name|] && all[|name| + 1] == '>';
    assert key == pattern[1..1 + |key|] == all[1..1 + |key|] && all[|key| + 1] == pattern[|key| + 1] == '>';
    assert forall i :: 0 <= i < |name| ==> all[i + 1] == name[i];
    assert forall i :: 0 <= i < |key| ==> all[i + 1] == key[i];
    assert |key| == |name|;
  }

  lemma PrefixCloses(s: string, key: string)
    requires key != "" && BracketFree(key) && Bracketed(key) <= "<" + s
    ensures Closes(s, 0) && s[0] != '>'
  {
    var all, pattern := "<" + s, Bracketed(key);
    assert s[|key|] == all[|key| + 1] == pattern[|key| + 1] == '>';
    assert s[0] == all[1] == pattern[1] == key[0];
  }

  /** A placeholder is an occurrence of the key it names and of no other. */
  lemma ReplaceHole(name: string, s: string, key: string, value: string)
    requires BracketFree(name) && BracketFree(key)
    ensures Replace(Bracketed(name) + s, Bracketed(key), value) ==
            (if name == key then value else Bracketed(name)) + Replace(s, Bracketed(key), value)
  {
    var all, rest := Bracketed(name) + s, Replace(s, Bracketed(key), value);
    if name == key {
      assert all[|Bracketed(key)|..] == s;
    } else {
      if Bracketed(key) <= all {
        PrefixNames(name, s, key);
      }
      assert all[1..] == (name + ">") + s && all[0] == '<';
      ReplaceSkips(name + ">", s, key, value);
      assert ['<'] + ((name + ">") + rest) == Bracketed(name) + rest;
    }
  }

  /** A stray `<` is no occurrence either. */
  lemma ReplaceStray(s: string, key: string, value: string)
    requires key != "" && BracketFree(key) && (!Closes(s, 0) || s[0] == '>')
    ensures Replace("<" + s, Bracketed(key), value) == "<" + Replace(s, Bracketed(key), value)
  {
    var all := "<" + s;
    assert all[1..] == s;
    if Bracketed(key) <= all {
      PrefixCloses(s, key);
    }
  }

  /** Replacing one column in the text of tame pieces puts its value in and touches nothing else. */
  lemma {:induction false} ReplacePuts(ps: seq<Piece>, key: string, value: string)
    requires Tame(ps) && key != "" && BracketFree(key)
    ensures Replace(Flat(ps), Bracketed(key), value) == Flat(Put(ps, map[key := value]))
  {
    if ps != [] {
      var rest := Flat(ps[1..]);
      ReplacePuts(ps[1..], key, value);
      var put := Put(ps[1..], map[key := value]);
      match ps[0]
      case Lit(c) =>
        FlatCons(ps[0], put);
        if c == '<' {
          ReplaceStray(rest, key, value);
        } else {
          ReplaceSkips([c], rest, key, value);
        }
      case Hole(name) =>
        ReplaceHole(name, rest, key, value);
        if name == key {
          FlatLits(value);
          FlatConcat(Lits(value), put);
        } else {
          FlatCons(ps[0], put);
        }
    }
  }

  /** Putting a value in keeps the pieces tame, a leading `>` in place and unclosed text as it is. */
  predicate StaysTame(ps: seq<Piece>, key: string, value: string) {
    var put := Put(ps, map[key := value]);
    Tame(put) &&
    (Flat(ps) != "" && Flat(ps)[0] == '>' ==> Flat(put) != "" && Flat(put)[0] == '>') &&
    (!Closes(Flat(ps), 0) ==> put == ps)
  }

  lemma {:induction false} LitStaysTame(ps: seq<Piece>, key: string, value: string)
    requires ps != [] && Tame(ps) && ps[0].Lit? && StaysTame(ps[1..], key, value)
    ensures StaysTame(ps, key, value)
  {
    var put, rest := Put(ps[1..], map[key := value]), Flat(ps[1..]);
    FlatCons(ps[0], put);
    assert Flat(ps) == [ps[0].c] + rest;
    if Closes(rest, 0) {
      var k :| 0 <= k < |rest| && rest[k] == '>';
      assert Flat(ps)[k + 1] == '>';
    } else {
      assert [ps[0]] + ps[1..] == ps;
    }
  }

  lemma {:induction false} HoleStaysTame(ps: seq<Piece>, key: string, value: string)
    requires ps != [] && Tame(ps) && ps[0].Hole? && StaysTame(ps[1..], key, value) && BracketFree(value)
    ensures StaysTame(ps, key, value)
  {
    var put := Put(ps[1..], map[key := value]);
    assert Flat(ps)[0] == '<' && Flat(ps)[|ps[0].name| + 1] == '>';
    if ps[0].name == key {
      LitsAreTame(value, put);
    } else {
      FlatCons(ps[0], put);
    }
  }

  /** Bracket-free values keep tame pieces tame. */
  lemma {:induction false} PutStaysTame(ps: seq<Piece>, key: string, value: string)
    requires Tame(ps) && BracketFree(value)
    ensures StaysTame(ps, key, value)
  {
    if ps != [] {
      PutStaysTame(ps[1..], key, value);
      if ps[0].Lit? {
        LitStaysTame(ps, key, value);
      } else {
        HoleStaysTame(ps, key, value);
      }
    }
  }

  lemma {:induction false} LitsAreTame(value: string, ps: seq<Piece>)
    requires BracketFree(value) && Tame(ps)
    ensures Tame(Lits(value) + ps)
    decreases |value|
  {
    if value == "" {
      assert Lits(value) + ps == ps;
    } else {
      LitsAreTame(value[1..], ps);
      assert (Lits(value) + ps)[1..] == Lits(value[1..]) + ps;
    }
  }

  // ---------------------------------------------------------------- the two agree

  predicate Columns(values: map<string, string>) {
    forall k :: k in values ==> k != "" && BracketFree(k) && BracketFree(values[k])
  }

  predicate Distinct(order: seq<string>) {
    forall i, j :: 0 <= i < j < |order| ==> order[i] != order[j]
  }

  function Chosen(order: seq<string>, values: map<string, string>): map<string, string> {
    map k | k in order && k in values :: values[k]
  }

  lemma ChosenNext(init: seq<string>, key: string, values: map<string, string>)
    requires key in values
    ensures Chosen(init + [key], values) == Chosen(init, values)[key := values[key]]
    ensures Chosen([], values) == map[]
  {
  }

  lemma {:induction false} ReplacedIsPut(text: string, order: seq<string>, values: map<string, string>)
    requires NoNesting(text) && Columns(values) && Distinct(order) && forall k :: k in order ==> k in values
    ensures Tame(Put(Pieces(text), Chosen(order, values)))
    ensures Replaced(text, order, values) == Flat(Put(Pieces(text), Chosen(order, values)))
    decreases |order|
  {
    var ps := Pieces(text);
    if order == [] {
      assert Chosen(order, values) == map[];
      PiecesAreTame(text);
      FlatPieces(text);
      PutNothing(ps);
    } else {
      var n := |order| - 1;
      var init, key := order[..n], order[n];
      assert order == init + [key];
      ReplacedIsPut(text, init, values);
      OneMoreKey(ps, init, key, values);
    }
  }

  lemma {:induction false} OneMoreKey(ps: seq<Piece>, init: seq<string>, key: string, values: map<string, string>)
    requires Columns(values) && key in values && Tame(Put(ps, Chosen(init, values)))
    requires key !in init
    ensures var after := Put(ps, Chosen(init + [key], values));
            Tame(after) && Replace(Flat(Put(ps, Chosen(init, values))), Bracketed(key), values[key]) == Flat(after)
  {
    var before := Put(ps, Chosen(init, values));
    ReplacePuts(before, key, values[key]);
    PutStaysTame(before, key, values[key]);
    PutMore(ps, Chosen(init, values), key, values[key]);
    ChosenNext(init, key, values);
  }

  lemma {:induction false} PutNothing(ps: seq<Piece>)
    ensures Put(ps, map[]) == ps
  {
    if ps != [] {
      PutNothing(ps[1..]);
      assert [ps[0]] + ps[1..] == ps;
    }
  }

  /** On text whose brackets do not nest, with bracket-free non-empty columns and bracket-free
      values, the key-by-key replacement gives the same text in every order of the keys: the text
      of the one-pass filler. */
  lemma ReplacingIsFilling(text: string, order: seq<string>, values: map<string, string>)
    requires NoNesting(text) && Columns(values) && Distinct(order) && forall k :: k in order <==> k in values
    ensures Replaced(text, order, values) == Filled(Pieces(text), values)
  {
    ReplacedIsPut(text, order, values);
    assert Chosen(order, values) == values;
    FilledIsPut(Pieces(text), values);
  }

  /** A value that reads like a column makes the order of the keys show. */
  lemma BracketedValueMakesOrderMatter()
    ensures var values := map["a" := "<b>", "b" := "x"];
            Replaced("<a>", ["a", "b"], values) == "x" && Replaced("<a>", ["b", "a"], values) == "<b>"
  {
    var values := map["a" := "<b>", "b" := "x"];
    assert Bracketed("a") == "<a>" && Bracketed("b") == "<b>";
    ReplaceWhole("a", "<b>");
    ReplaceWhole("b", "x");
    assert ["a", "b"][..1] == ["a"] && ["b", "a"][..1] == ["b"] && ["a"][..0] == [] && ["b"][..0] == [];
    ReplaceHole("a", "", "b", "x");
    assert Bracketed("a") + "" == "<a>";
  }

  lemma ReplaceWhole(key: string, value: string)
    requires BracketFree(key)
    ensures Replace(Bracketed(key), Bracketed(key), value) == value
  {
    ReplaceHole(key, "", key, value);
    assert Bracketed(key) + "" == Bracketed(key);
  }

  /** Where brackets nest, the one-pass filler reads `<<a>` as one unknown column and the
      replacement finds the column inside. */
  lemma NestingTellsThemApart()
    ensures Replaced("<<a>", ["a"], map["a" := "x"]) == "<x" && Filled(Pieces("<<a>"), map["a" := "x"]) == "<<a>"
  {
    var values := map["a" := "x"];
    assert ["a"][..0] == [] && Bracketed("a") == "<a>" && "<<a>"[1..] == "<a>";
    assert "<a>"[1] == 'a' && "<<a>"[1] == '<';
    ReplaceWhole("a", "x");
    assert "<a>"[1..] == "a>" && "a>"[1..] == ">";
    assert Find(">", '>') == 0 && Find("a>", '>') == 1 && Find("<a>", '>') == 2;
    assert "<<a>"[1..3] == "<a" && "<<a>"[4..] == "";
    assert First("<<a>") == (Hole("<a"), 4);
    assert Pieces("<<a>") == [Hole("<a")];
    assert "<a" !in values by { assert |"<a"| == 2; }
    assert Source(Hole("<a")) == "<<a>" && "<<a>" + "" == "<<a>";
    assert Filled([Hole("<a")], values) == "<<a>";
  }
}
