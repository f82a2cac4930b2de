/** `${name}` substitution in declared commands, and what the shell makes of the result
    (crates/ferridriver-config/src/command_spec.rs). */
module CommandSpec {
  import opened Json
  import opened Scanning

  datatype CommandRun = ShellLine(template: string) | ArgvList(args: seq<string>)

  datatype ResolvedExec = Shell(line: string) | Argv(argv: seq<string>)

  datatype Error = Missing(name: string) | NotScalar(name: string)

  type Lookup = string -> Result<string, Error>

  // ---------------------------------------------------------------- templates

  datatype Item = Lit(c: char) | Hole(name: string)

  /** The first piece of a template and its length: a `${` with a `}` somewhere after it starts a
      placeholder, anything else stands for itself. */
  function First(template: string): (r: (Item, nat))
    requires template != ""
    ensures 0 < r.1 <= |template|
  {
    if "${" <= template && Find(template[2..], '}') < |template| - 2 then
      var n := Find(template[2..], '}');
      (Hole(template[2..2 + n]), n + 3)
    else (Lit(template[0]), 1)
  }

  function Items(template: string): seq<Item>
    decreases |template|
  {
    if template == "" then []
    else [First(template).0] + Items(template[First(template).1..])
  }

  function PieceOf(item: Item, lookup: Lookup): Result<string, Error> {
    match item
    case Lit(c) => Ok([c])
    case Hole(name) => lookup(name)
  }

  /** `out` followed by the pieces; the first placeholder without a value is the error. */
  function FilledFrom(out: string, items: seq<Item>, lookup: Lookup): Result<string, Error>
    decreases items
  {
    if items == [] then Ok(out)
    else
      var piece := PieceOf(items[0], lookup);
      if piece.Err? then piece else FilledFrom(out + piece.value, items[1..], lookup)
  }

  function Filled(items: seq<Item>, lookup: Lookup): Result<string, Error> {
    FilledFrom("", items, lookup)
  }

  /** What filling ends with when `out` is written and the template is read up to `i`. */
  function FilledAt(out: string, template: string, i: nat, lookup: Lookup): Result<string, Error>
    requires i <= |template|
  {
    FilledFrom(out, Items(template[i..]), lookup)
  }

  lemma {:induction false} FilledAtNext(out: string, template: string, i: nat, lookup: Lookup)
    requires i < |template|
    ensures var (item, length) := First(template[i..]);
            FilledAt(out, template, i, lookup) ==
            (var piece := PieceOf(item, lookup);
             if piece.Err? then piece else FilledAt(out + piece.value, template, i + length, lookup))
  {
    var (item, length) := First(template[i..]);
    assert template[i..][length..] == template[i + length..];
    assert Items(template[i..])[1..] == Items(template[i + length..]);
  }

  lemma {:induction false} FilledAtEnds(out: string, template: string, lookup: Lookup)
    ensures FilledAt(out, template, |template|, lookup) == Ok(out)
    ensures FilledAt("", template, 0, lookup) == Filled(Items(template), lookup)
  {
    assert template[|template|..] == "" && template[0..] == template;
  }

  /** The index loop of `subst`; an index counts characters where the source counts UTF-8 bytes. */
  method Subst(template: string, lookup: Lookup) returns (result: Result<string, Error>)
    ensures result == Filled(Items(template), lookup)
  {
    var out, i := "", 0;
    FilledAtEnds(out, template, lookup);
    while i < |template|
      invariant i <= |template|
      invariant FilledAt(out, template, i, lookup) == Filled(Items(template), lookup)
    {
      FilledAtNext(out, template, i, lookup);
      var piece, length := Piece(template[i..], lookup);
      if piece.Err? {
        return piece;
      }
      out, i := out + piece.value, i + length;
    }
    FilledAtEnds(out, template, lookup);
    result := Ok(out);
  }

  /** The loop body: the replacement of the placeholder that starts here, or one character. */
  method Piece(rest: string, lookup: Lookup) returns (piece: Result<string, Error>, length: nat)
    requires rest != ""
    ensures length == First(rest).1
    ensures piece == PieceOf(First(rest).0, lookup)
  {
    if "${" <= rest {
      var end := Find(rest[2..], '}');
      if end < |rest| - 2 {
        return lookup(rest[2..2 + end]), end + 3;
      }
    }
    return Ok([rest[0]]), 1;
  }

  lemma {:induction false} FilledNext(out: string, items: seq<Item>, item: Item, lookup: Lookup)
    ensures FilledFrom(out, items + [item], lookup) ==
            (var before := FilledFrom(out, items, lookup);
             if before.Err? then before
             else if PieceOf(item, lookup).Err? then PieceOf(item, lookup)
             else Ok(before.value + PieceOf(item, lookup).value))
    decreases |items|
  {
    if items != [] && PieceOf(items[0], lookup).Ok? {
      assert (items + [item])[1..] == items[1..] + [item];
      FilledNext(out + PieceOf(items[0], lookup).value, items[1..], item, lookup);
    }
  }

  /** Filling fails exactly when some placeholder has no value, and then for the first such one. */
  lemma {:induction false} FilledFails(items: seq<Item>, lookup: Lookup)
    ensures Filled(items, lookup).Err? <==> exists i :: 0 <= i < |items| && Unfilled(items[i], lookup)
    ensures Filled(items, lookup).Err? ==>
              exists i :: 0 <= i < |items| && Unfilled(items[i], lookup) &&
                lookup(items[i].name) == Filled(items, lookup) &&
                forall j :: 0 <= j < i ==> !Unfilled(items[j], lookup)
  {
    if items != [] {
      var n := |items| - 1;
      assert items == items[..n] + [items[n]];
      FilledNext("", items[..n], items[n], lookup);
      FilledFails(items[..n], lookup);
      assert forall j :: 0 <= j < n ==> items[..n][j] == items[j];
      if Filled(items[..n], lookup).Ok? && Filled(items, lookup).Err? {
        assert Unfilled(items[n], lookup);
      }
    }
  }

  predicate Unfilled(item: Item, lookup: Lookup) {
    item.Hole? && lookup(item.name).Err?
  }

  // ---------------------------------------------------------------- resolve

  /** The scalar a variable holds, as text; `show` is the decimal form of a number. */
  function Scalar(vars: map<string, Value>, show: Number -> string, name: string): Result<string, Error> {
    if name !in vars then Err(Missing(name))
    else
      match vars[name]
      case Str(s) => Ok(s)
      case Num(n) => Ok(show(n))
      case Bool(b) => Ok(if b then "true" else "false")
      case _ => Err(NotScalar(name))
  }

  /** `s.replace('\\'', r"'\\''")`. */
  function Escaped(s: string): string {
    if s == "" then ""
    else Escaped(s[..|s| - 1]) + (if s[|s| - 1] == '\'' then "'\\''" else [s[|s| - 1]])
  }

  function SingleQuoted(s: string): string {
    "'" + Escaped(s) + "'"
  }

  /** Every value single-quoted. */
  function Quoted(lookup: Lookup): Lookup {
    name => if lookup(name).Ok? then Ok(SingleQuoted(lookup(name).value)) else lookup(name)
  }

  function Scalars(vars: map<string, Value>, show: Number -> string): Lookup {
    name => Scalar(vars, show, name)
  }

  /** `CommandSpec::resolve`: in shell form every value is single-quoted, in argv form it is
      inserted as it is. */
  method Resolve(run: CommandRun, vars: map<string, Value>, show: Number -> string)
    returns (result: Result<ResolvedExec, Error>)
    ensures run.ShellLine? ==>
              var filled := Filled(Items(run.template), Quoted(Scalars(vars, show)));
              result == if filled.Ok? then Ok(Shell(filled.value)) else Err(filled.error)
    ensures run.ArgvList? && result.Ok? ==>
              result.value.Argv? && |result.value.argv| == |run.args| &&
              forall i :: 0 <= i < |run.args| ==>
                Filled(Items(run.args[i]), Scalars(vars, show)) == Ok(result.value.argv[i])
    ensures run.ArgvList? && result.Err? ==>
              exists i :: 0 <= i < |run.args| &&
                Filled(Items(run.args[i]), Scalars(vars, show)) == Err(result.error) &&
                forall j :: 0 <= j < i ==> Filled(Items(run.args[j]), Scalars(vars, show)).Ok?
  {
    match run {
      case ShellLine(template) =>
        var line := Subst(template, Quoted(Scalars(vars, show)));
        result := if line.Ok? then Ok(Shell(line.value)) else Err(line.error);
      case ArgvList(args) =>
        var lookup := Scalars(vars, show);
        var out := [];
        for n := 0 to |args|
          invariant |out| == n
          invariant forall i :: 0 <= i < n ==> Filled(Items(args[i]), lookup) == Ok(out[i])
        {
          var arg := Subst(args[n], lookup);
          if arg.Err? {
            return Err(arg.error);
          }
          out := out + [arg.value];
        }
        result := Ok(Argv(out));
    }
  }

  // ---------------------------------------------------------------- the shell's words

  /** Quoting of section 2.2 of POSIX.1-2017 XCU. A `Hole` is an opaque piece of text. */
  datatype Mode = Unquoted | AfterBackslash | InSingle | InDouble | InDoubleAfterBackslash

  datatype Scan = Scan(mode: Mode, words: seq<seq<Item>>, current: Option<seq<Item>>)

  const START := Scan(Unquoted, [], None)

  predicate Blank(c: char) {
    c == ' ' || c == '\t' || c == '\n'
  }

  function Grown(s: Scan, more: seq<Item>, mode: Mode): Scan {
    Scan(mode, s.words, Some((if s.current.Some? then s.current.value else []) + more))
  }

  function Next(s: Scan, item: Item): Scan {
    match item
    case Hole(_) => Grown(s, [item], s.mode)
    case Lit(c) =>
      match s.mode
      case Unquoted =>
        if Blank(c) then
          if s.current.Some? then Scan(Unquoted, s.words + [s.current.value], None) else s
        else if c == '\'' then Grown(s, [], InSingle)
        else if c == '"' then Grown(s, [], InDouble)
        else if c == '\\' then s.(mode := AfterBackslash)
        else Grown(s, [item], Unquoted)
      case AfterBackslash => if c == '\n' then s.(mode := Unquoted) else Grown(s, [item], Unquoted)
      case InSingle => if c == '\'' then s.(mode := Unquoted) else Grown(s, [item], InSingle)
      case InDouble =>
        if c == '"' then s.(mode := Unquoted)
        else if c == '\\' then s.(mode := InDoubleAfterBackslash)
        else Grown(s, [item], InDouble)
      case InDoubleAfterBackslash =>
        if c == '\n' then s.(mode := InDouble)
        else if c == '$' || c == '`' || c == '"' || c == '\\' then Grown(s, [item], InDouble)
        else Grown(s, [Lit('\\'), item], InDouble)
  }

  function Scanned(s: Scan, items: seq<Item>): Scan {
    if items == [] then s else Next(Scanned(s, items[..|items| - 1]), items[|items| - 1])
  }

  /** The words, unless a quotation is left open. */
  function Words(s: Scan): Option<seq<seq<Item>>> {
    if s.mode != Unquoted then None
    else Some(s.words + if s.current.Some? then [s.current.value] else [])
  }

  function Lits(text: string): seq<Item> {
    seq(|text|, i requires 0 <= i < |text| => Lit(text[i]))
  }

  /** Every placeholder stands where the template is not quoted. */
  predicate HolesUnquoted(items: seq<Item>) {
    forall i :: 0 <= i < |items| && items[i].Hole? ==> Scanned(START, items[..i]).mode == Unquoted
  }

  /** A word of the template with the values inserted verbatim. */
  function Inserted(word: seq<Item>, lookup: Lookup): seq<Item> {
    if word == [] then []
    else
      Inserted(word[..|word| - 1], lookup) + InsertedItem(word[|word| - 1], lookup)
  }

  function InsertedItem(item: Item, lookup: Lookup): seq<Item> {
    match item
    case Lit(_) => [item]
    case Hole(name) => if lookup(name).Ok? then Lits(lookup(name).value) else []
  }

  function InsertedAll(words: seq<seq<Item>>, lookup: Lookup): seq<seq<Item>> {
    seq(|words|, i requires 0 <= i < |words| => Inserted(words[i], lookup))
  }

  function InsertedScan(s: Scan, lookup: Lookup): Scan {
    var current := if s.current.Some? then Some(Inserted(s.current.value, lookup)) else None;
    Scan(s.mode, InsertedAll(s.words, lookup), current)
  }

  // -------- a quoted value is one opaque piece

  lemma {:induction false} ScannedConcat(s: Scan, a: seq<Item>, b: seq<Item>)
    ensures Scanned(s, a + b) == Scanned(Scanned(s, a), b)
    decreases |b|
  {
    if b == [] {
      assert a + b == a;
    } else {
      ScannedConcat(s, a, b[..|b| - 1]);
      assert (a + b)[..|a + b| - 1] == a + b[..|b| - 1];
    }
  }

  lemma LitsConcat(a: string, b: string)
    ensures Lits(a + b) == Lits(a) + Lits(b)
  {
  }

  /** Inside single quotes the escaped form of a text adds exactly that text. */
  lemma {:induction false} EscapedScans(s: Scan, text: string)
    requires s.mode == InSingle && s.current.Some?
    ensures Scanned(s, Lits(Escaped(text))) == Grown(s, Lits(text), InSingle)
  {
    if text == "" {
      assert Grown(s, [], InSingle).current.value == s.current.value;
    } else {
      var init, c := text[..|text| - 1], text[|text| - 1];
      EscapedScans(s, init);
      var tail := if c == '\'' then "'\\''" else [c];
      LitsConcat(Escaped(init), tail);
      ScannedConcat(s, Lits(Escaped(init)), Lits(tail));
      OneEscaped(Grown(s, Lits(init), InSingle), c);
      assert text == init + [c];
      LitsConcat(init, [c]);
      assert s.current.value + Lits(init) + [Lit(c)] == s.current.value + Lits(text);
    }
  }

  lemma {:induction false} OneEscaped(s: Scan, c: char)
    requires s.mode == InSingle && s.current.Some?
    ensures Scanned(s, Lits(if c == '\'' then "'\\''" else [c])) == Grown(s, [Lit(c)], InSingle)
  {
    if c == '\'' {
      var q := [Lit('\''), Lit('\\'), Lit('\''), Lit('\'')];
      assert Lits("'\\''") == q;
      assert q[..3][..2][..1] == q[..1] && q[..3][..2] == q[..2] && q[..1][..0] == [];
      assert Scanned(s, q[..1]) == s.(mode := Unquoted);
      assert Scanned(s, q[..2]) == s.(mode := AfterBackslash);
      assert Scanned(s, q[..3]) == Grown(s, [Lit('\'')], Unquoted);
      assert Grown(s, [Lit('\'')], Unquoted).current.value + [] == Grown(s, [Lit('\'')], Unquoted).current.value;
    } else {
      assert Lits([c]) == [Lit(c)] && [Lit(c)][..0] == [];
    }
  }

  lemma {:induction false} QuotedScans(s: Scan, text: string)
    requires s.mode == Unquoted
    ensures Scanned(s, Lits(SingleQuoted(text))) == Grown(s, Lits(text), Unquoted)
  {
    var quote := [Lit('\'')];
    assert Lits("'") == quote && quote[..0] == [];
    LitsConcat("'" + Escaped(text), "'");
    LitsConcat("'", Escaped(text));
    ScannedConcat(s, quote + Lits(Escaped(text)), quote);
    ScannedConcat(s, quote, Lits(Escaped(text)));
    var open := Grown(s, [], InSingle);
    assert Scanned(s, quote) == open;
    EscapedScans(open, text);
    assert Scanned(Grown(open, Lits(text), InSingle), quote) == Grown(open, Lits(text), Unquoted);
    assert open.current.value + Lits(text) == Grown(s, Lits(text), Unquoted).current.value;
  }

  // -------- resolving commutes with word splitting

  lemma InsertedNext(word: seq<Item>, item: Item, lookup: Lookup)
    ensures Inserted(word + [item], lookup) == Inserted(word, lookup) + InsertedItem(item, lookup)
  {
    assert (word + [item])[..|word|] == word;
  }

  lemma Associative(a: seq<Item>, b: seq<Item>, c: seq<Item>)
    ensures a + b + c == a + (b + c) && a + [] == a
  {
  }

  lemma {:induction false} InsertedConcat(a: seq<Item>, b: seq<Item>, lookup: Lookup)
    ensures Inserted(a + b, lookup) == Inserted(a, lookup) + Inserted(b, lookup)
    decreases |b|
  {
    if b == [] {
      Associative(a, [], []);
      Associative(Inserted(a, lookup), [], []);
    } else {
      var init, last := b[..|b| - 1], b[|b| - 1];
      InsertedConcat(a, init, lookup);
      Associative(a, init, [last]);
      assert b == init + [last];
      InsertedNext(a + init, last, lookup);
      Associative(Inserted(a, lookup), Inserted(init, lookup), InsertedItem(last, lookup));
    }
  }

  lemma InsertedOne(item: Item, lookup: Lookup)
    ensures Inserted([item], lookup) == InsertedItem(item, lookup)
    ensures item.Lit? ==> Inserted([Lit('\\'), item], lookup) == [Lit('\\'), item]
  {
    assert [item][..0] == [] && [Lit('\\'), item][..1] == [Lit('\\')] && [Lit('\\')][..0] == [];
    assert Inserted([Lit('\\')], lookup) == [Lit('\\')];
  }

  lemma {:induction false} GrownInserted(s: Scan, more: seq<Item>, mode: Mode, lookup: Lookup)
    ensures InsertedScan(Grown(s, more, mode), lookup) == Grown(InsertedScan(s, lookup), Inserted(more, lookup), mode)
  {
    InsertedConcat(if s.current.Some? then s.current.value else [], more, lookup);
  }

  lemma {:induction false} WordEnds(words: seq<seq<Item>>, word: seq<Item>, lookup: Lookup)
    ensures InsertedAll(words + [word], lookup) == InsertedAll(words, lookup) + [Inserted(word, lookup)]
    ensures words + [] == words && InsertedAll(words, lookup) + [] == InsertedAll(words, lookup)
  {
  }

  /** A word of the template grows by its own characters as they are. */
  lemma {:induction false} GrownByLit(s: Scan, c: char, mode: Mode, lookup: Lookup)
    ensures InsertedScan(Grown(s, [Lit(c)], mode), lookup) == Grown(InsertedScan(s, lookup), [Lit(c)], mode)
  {
    InsertedOne(Lit(c), lookup);
    GrownInserted(s, [Lit(c)], mode, lookup);
  }

  lemma {:induction false} GrownByEscaped(s: Scan, c: char, lookup: Lookup)
    ensures InsertedScan(Grown(s, [Lit('\\'), Lit(c)], InDouble), lookup) ==
            Grown(InsertedScan(s, lookup), [Lit('\\'), Lit(c)], InDouble)
  {
    InsertedOne(Lit('\\'), lookup);
    InsertedNext([Lit('\\')], Lit(c), lookup);
    assert [Lit('\\')] + [Lit(c)] == [Lit('\\'), Lit(c)];
    GrownInserted(s, [Lit('\\'), Lit(c)], InDouble, lookup);
  }

  lemma {:induction false} NextLit(s: Scan, c: char, lookup: Lookup)
    ensures InsertedScan(Next(s, Lit(c)), lookup) == Next(InsertedScan(s, lookup), Lit(c))
  {
    match s.mode
    case Unquoted => NextUnquoted(s, c, lookup);
    case AfterBackslash => GrownByLit(s, c, Unquoted, lookup);
    case InSingle => GrownByLit(s, c, InSingle, lookup);
    case InDouble => GrownByLit(s, c, InDouble, lookup);
    case InDoubleAfterBackslash =>
      GrownByLit(s, c, InDouble, lookup);
      GrownByEscaped(s, c, lookup);
  }

  lemma {:induction false} NextUnquoted(s: Scan, c: char, lookup: Lookup)
    requires s.mode == Unquoted
    ensures InsertedScan(Next(s, Lit(c)), lookup) == Next(InsertedScan(s, lookup), Lit(c))
  {
    if Blank(c) {
      NextBlank(s, c, lookup);
    } else if c == '\'' {
      GrownInserted(s, [], InSingle, lookup);
    } else if c == '"' {
      GrownInserted(s, [], InDouble, lookup);
    } else if c != '\\' {
      GrownByLit(s, c, Unquoted, lookup);
    }
  }

  lemma {:induction false} NextBlank(s: Scan, c: char, lookup: Lookup)
    requires s.mode == Unquoted && Blank(c)
    ensures InsertedScan(Next(s, Lit(c)), lookup) == Next(InsertedScan(s, lookup), Lit(c))
  {
    if s.current.Some? {
      WordEnds(s.words, s.current.value, lookup);
    }
  }

  lemma {:induction false} ResolvedScan(items: seq<Item>, lookup: Lookup)
    requires HolesUnquoted(items) && Filled(items, Quoted(lookup)).Ok?
    ensures Scanned(START, Lits(Filled(items, Quoted(lookup)).value)) == InsertedScan(Scanned(START, items), lookup)
    decreases |items|
  {
    var quoted := Quoted(lookup);
    if items == [] {
      assert Lits("") == [];
    } else {
      var init, last := items[..|items| - 1], items[|items| - 1];
      assert forall i :: 0 <= i < |init| ==> init[..i] == items[..i];
      assert items == init + [last];
      FilledNext("", init, last, quoted);
      ResolvedScan(init, lookup);
      var line, before := Filled(init, quoted).value, Scanned(START, init);
      match last
      case Lit(c) =>
        LitsConcat(line, [c]);
        ScannedConcat(START, Lits(line), Lits([c]));
        assert Lits([c]) == [Lit(c)] && [Lit(c)][..0] == [];
        NextLit(before, c, lookup);
      case Hole(name) =>
        var value := SingleQuoted(lookup(name).value);
        LitsConcat(line, value);
        ScannedConcat(START, Lits(line), Lits(value));
        QuotedScans(InsertedScan(before, lookup), lookup(name).value);
        InsertedOne(last, lookup);
        GrownInserted(before, [last], before.mode, lookup);
    }
  }

  /** When every placeholder stands unquoted, the words of the resolved line are the words of the
      template with each value inserted verbatim, whatever characters the values hold. */
  lemma ResolvingKeepsWords(template: string, lookup: Lookup, line: string)
    requires HolesUnquoted(Items(template))
    requires Filled(Items(template), Quoted(lookup)) == Ok(line)
    ensures var own := Words(Scanned(START, Items(template)));
            Words(Scanned(START, Lits(line))) == if own.None? then None else Some(InsertedAll(own.value, lookup))
  {
    ResolvedScan(Items(template), lookup);
    WordsInserted(Scanned(START, Items(template)), lookup);
  }

  lemma WordsInserted(s: Scan, lookup: Lookup)
    ensures Words(InsertedScan(s, lookup)) == if Words(s).None? then None else Some(InsertedAll(Words(s).value, lookup))
  {
    WordEnds(s.words, if s.current.Some? then s.current.value else [], lookup);
  }

  /** Inside the template's own quotes the value is not one piece: `'${x}'` is one word of the
      template, and with a blank for `x` it resolves to `'' ''`, two words. */
  lemma QuotedHoleSplits()
    ensures var items := [Lit('\''), Hole("x"), Lit('\'')];
            Words(Scanned(START, items)) == Some([[Hole("x")]]) &&
            forall lookup: Lookup :: lookup("x") == Ok(" ") ==> Filled(items, Quoted(lookup)) == Ok("'' ''")
    ensures Words(Scanned(START, Lits("'' ''"))) == Some([[], []])
  {
    var items := [Lit('\''), Hole("x"), Lit('\'')];
    assert items == [] + [Lit('\'')] + [Hole("x")] + [Lit('\'')];
    forall lookup: Lookup | lookup("x") == Ok(" ") ensures Filled(items, Quoted(lookup)) == Ok("'' ''") {
      ThreeScanned(items[0], items[1], items[2], Quoted(lookup));
      assert Escaped(" ") == " " by { assert " "[..0] == "" && "" + " " == " "; }
      assert SingleQuoted(" ") == "' '" && ['\''] + "' '" + ['\''] == "'' ''";
    }
    ThreeScanned(items[0], items[1], items[2], name => Ok(""));
    var empty: seq<Item> := [];
    assert empty + empty == empty && empty + [Hole("x")] == [Hole("x")];
    assert Next(START, Lit('\'')) == Scan(InSingle, [], Some(empty));
    assert Scanned(START, items) == Scan(Unquoted, [], Some([Hole("x")]));
    var words: seq<seq<Item>> := [];
    assert words + [[Hole("x")]] == [[Hole("x")]];
    TwoWords();
  }

  lemma TwoWords()
    ensures Words(Scanned(START, Lits("'' ''"))) == Some([[], []])
  {
    var quote, blank := Lit('\''), Lit(' ');
    var empty: seq<Item> := [];
    var none: seq<seq<Item>> := [];
    assert empty + empty == empty && none + [empty] == [empty] && [empty] + [empty] == [empty, empty];
    assert Lits("'' ''") == [] + [quote] + [quote] + [blank] + [quote, quote];
    ThreeScanned(quote, quote, blank, name => Ok(""));
    assert Next(START, quote) == Scan(InSingle, [], Some(empty));
    assert Next(Scan(InSingle, [], Some(empty)), quote) == Scan(Unquoted, [], Some(empty));
    var second := Scan(Unquoted, [empty], None);
    assert Next(Scan(Unquoted, [], Some(empty)), blank) == second;
    ScannedConcat(START, [] + [quote] + [quote] + [blank], [quote, quote]);
    assert [quote, quote][..1] == [quote] && [quote][..0] == [];
    assert Next(second, quote) == Scan(InSingle, [empty], Some(empty));
    assert Scanned(second, [quote]) == Next(second, quote);
    assert Scanned(second, [quote, quote]) == Scan(Unquoted, [empty], Some(empty));
  }

  lemma ThreeScanned(a: Item, b: Item, c: Item, lookup: Lookup)
    ensures Scanned(START, [] + [a]) == Next(START, a)
    ensures Scanned(START, [] + [a] + [b] + [c]) == Next(Next(Next(START, a), b), c)
    ensures a.Lit? && b.Hole? && lookup(b.name).Ok? && c.Lit? ==>
              Filled([] + [a] + [b] + [c], lookup) == Ok([a.c] + lookup(b.name).value + [c.c])
  {
    var one, two := [] + [a], [] + [a] + [b];
    var three := two + [c];
    assert one[..0] == [] && two[..1] == one && three[..2] == two;
    if a.Lit? && b.Hole? && lookup(b.name).Ok? && c.Lit? {
      assert Filled([], lookup) == Ok("") && "" + [a.c] == [a.c];
      FilledNext("", [], a, lookup);
      FilledNext("", one, b, lookup);
      FilledNext("", two, c, lookup);
    }
  }
}
