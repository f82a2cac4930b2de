/** Exactly which templates keep their words whatever the values are
    (crates/ferridriver-config/src/command_spec.rs:186-247). */
module CommandWords {
  import opened Json
  import opened CommandSpec

  /** The resolved line splits into the template's words with the values in them verbatim. */
  predicate KeepsWords(items: seq<Item>, lookup: Lookup, line: string) {
    var own := Words(Scanned(START, items));
    Words(Scanned(START, Lits(line))) == if own.None? then None else Some(InsertedAll(own.value, lookup))
  }

  /** No placeholder stands right after a backslash that escapes. */
  predicate NoHoleEscaped(items: seq<Item>) {
    forall i :: 0 <= i < |items| && items[i].Hole? ==>
      Scanned(START, items[..i]).mode in {Unquoted, InSingle, InDouble}
  }

  // ---------------------------------------------------------------- a weight that tells the words apart

  /** The characters of the words, and two for each word. */
  function Weight(words: seq<seq<Item>>): nat {
    if words == [] then 0 else Weight(words[..|words| - 1]) + |words[|words| - 1]| + 2
  }

  function Weighed(s: Scan): nat {
    Weight(s.words) + if s.current.Some? then |s.current.value| + 2 else 0
  }

  lemma WeightNext(words: seq<seq<Item>>, word: seq<Item>)
    ensures Weight(words + [word]) == Weight(words) + |word| + 2
  {
    assert (words + [word])[..|words|] == words;
  }

  lemma WordsWeigh(s: Scan)
    requires Words(s).Some?
    ensures Weight(Words(s).value) == Weighed(s)
  {
    if s.current.Some? {
      WeightNext(s.words, s.current.value);
    } else {
      assert s.words + [] == s.words;
    }
  }

  predicate Alike(a: Scan, b: Scan) {
    a.mode == b.mode && a.current.Some? == b.current.Some?
  }

  lemma GrownWeighs(s: Scan, more: seq<Item>, mode: Mode)
    ensures Weighed(Grown(s, more, mode)) == Weighed(s) + |more| + if s.current.Some? then 0 else 2
  {
  }

  /** One character weighs the same in scans that are alike. */
  lemma NextWeighs(a: Scan, b: Scan, c: char)
    requires Alike(a, b)
    ensures Alike(Next(a, Lit(c)), Next(b, Lit(c)))
    ensures Weighed(Next(a, Lit(c))) - Weighed(a) == Weighed(Next(b, Lit(c))) - Weighed(b)
  {
    if a.mode == Unquoted && Blank(c) && a.current.Some? {
      WeightNext(a.words, a.current.value);
      WeightNext(b.words, b.current.value);
    }
  }

  // ---------------------------------------------------------------- a blank for every placeholder

  function Blanks(): Lookup {
    name => Ok(" ")
  }

  const QUOTED_BLANK: string := "' '"

  lemma BlankQuoted(name: string)
    ensures Quoted(Blanks())(name) == Ok(QUOTED_BLANK)
  {
    assert Escaped(" ") == " " by {
      assert " "[..0] == "" && "" + " " == " ";
    }
    assert SingleQuoted(" ") == QUOTED_BLANK;
  }

  lemma BlankScanned(s: Scan)
    ensures Scanned(s, Lits(QUOTED_BLANK)) == Next(Next(Next(s, Lit('\'')), Lit(' ')), Lit('\''))
  {
    var items := Lits(QUOTED_BLANK);
    assert items == [Lit('\''), Lit(' '), Lit('\'')];
    assert items[..2][..1] == items[..1] && items[..1][..0] == [];
    assert Scanned(s, items[..1]) == Next(s, Lit('\''));
    assert Scanned(s, items[..2]) == Next(Scanned(s, items[..1]), Lit(' '));
  }

  /** Unquoted, a blank adds itself; in single quotes it ends a word; in double quotes its own quotes stay. */
  lemma BlankWeighs(s: Scan)
    requires s.mode in {Unquoted, InSingle, InDouble} && (s.mode != Unquoted ==> s.current.Some?)
    ensures var after := Scanned(s, Lits(QUOTED_BLANK));
            after.mode == s.mode && after.current.Some? &&
            Weighed(after) == Weighed(s) +
              match s.mode
              case Unquoted => 1 + if s.current.Some? then 0 else 2
              case InSingle => 2
              case _ => 3
  {
    BlankScanned(s);
    var one := Next(s, Lit('\''));
    var two := Next(one, Lit(' '));
    match s.mode
    case Unquoted =>
      GrownWeighs(s, [], InSingle);
      GrownWeighs(one, [Lit(' ')], InSingle);
    case InSingle =>
      WeightNext(one.words, one.current.value);
      GrownWeighs(two, [], InSingle);
    case _ =>
      GrownWeighs(s, [Lit('\'')], InDouble);
      GrownWeighs(one, [Lit(' ')], InDouble);
      GrownWeighs(two, [Lit('\'')], InDouble);
  }

  /** A quotation has started a word. */
  lemma {:induction false} QuotationsStart(items: seq<Item>)
    ensures var s := Scanned(START, items);
            (s.mode == InSingle || s.mode == InDouble || s.mode == InDoubleAfterBackslash) ==> s.current.Some?
  {
    if items != [] {
      QuotationsStart(items[..|items| - 1]);
    }
  }

  lemma HolesNext(items: seq<Item>)
    requires items != []
    ensures var init, last := items[..|items| - 1], items[|items| - 1];
            (HolesUnquoted(items) <==>
             HolesUnquoted(init) && (last.Hole? ==> Scanned(START, init).mode == Unquoted)) &&
            (NoHoleEscaped(items) ==>
             NoHoleEscaped(init) && (last.Hole? ==> Scanned(START, init).mode in {Unquoted, InSingle, InDouble}))
  {
    var init := items[..|items| - 1];
    assert forall i :: 0 <= i < |init| ==> init[..i] == items[..i] && init[i] == items[i];
  }

  /** With blanks, the resolved line weighs what the template's words with blanks in them weigh, and more for
      every placeholder that stands quoted. */
  lemma {:induction false} ResolvedWeighs(items: seq<Item>) returns (line: string)
    requires NoHoleEscaped(items)
    ensures Filled(items, Quoted(Blanks())) == Ok(line)
    ensures var resolved, expected := Scanned(START, Lits(line)), InsertedScan(Scanned(START, items), Blanks());
            Alike(resolved, expected) && Weighed(resolved) >= Weighed(expected) &&
            (Weighed(resolved) == Weighed(expected) <==> HolesUnquoted(items))
    decreases |items|
  {
    if items == [] {
      line := "";
      assert Lits("") == [];
    } else {
      var init, last := items[..|items| - 1], items[|items| - 1];
      HolesNext(items);
      assert items == init + [last];
      var before := ResolvedWeighs(init);
      FilledNext("", init, last, Quoted(Blanks()));
      var piece := if last.Lit? then [last.c] else QUOTED_BLANK;
      line := before + piece;
      LitsConcat(before, piece);
      ScannedConcat(START, Lits(before), Lits(piece));
      match last
      case Lit(c) => LitWeighs(Scanned(START, Lits(before)), Scanned(START, init), c);
      case Hole(name) =>
        BlankQuoted(name);
        QuotationsStart(init);
        HoleWeighs(Scanned(START, Lits(before)), Scanned(START, init), name);
    }
  }

  lemma LitWeighs(resolved: Scan, own: Scan, c: char)
    requires Alike(resolved, InsertedScan(own, Blanks()))
    ensures var after, expected := Scanned(resolved, Lits([c])), InsertedScan(Next(own, Lit(c)), Blanks());
            Alike(after, expected) &&
            Weighed(after) - Weighed(resolved) == Weighed(expected) - Weighed(InsertedScan(own, Blanks()))
  {
    assert Lits([c]) == [Lit(c)] && [Lit(c)][..0] == [];
    NextLit(own, c, Blanks());
    NextWeighs(resolved, InsertedScan(own, Blanks()), c);
  }

  lemma HoleWeighs(resolved: Scan, own: Scan, name: string)
    requires Alike(resolved, InsertedScan(own, Blanks())) && own.mode in {Unquoted, InSingle, InDouble}
    requires own.mode != Unquoted ==> own.current.Some?
    ensures var after, expected :=
              Scanned(resolved, Lits(QUOTED_BLANK)), InsertedScan(Next(own, Hole(name)), Blanks());
            Alike(after, expected) &&
            var more := Weighed(after) - Weighed(resolved);
            var due := Weighed(expected) - Weighed(InsertedScan(own, Blanks()));
            if own.mode == Unquoted then more == due else more > due
  {
    BlankWeighs(resolved);
    InsertedOne(Hole(name), Blanks());
    GrownInserted(own, [Hole(name)], own.mode, Blanks());
    GrownWeighs(InsertedScan(own, Blanks()), Lits(" "), own.mode);
  }

  /** Exactly when values are safe: of the templates whose quotations close and that escape no placeholder, those
      keep their words under every value that do not put a placeholder between quotes. */
  lemma WordsKeptIffHolesUnquoted(items: seq<Item>)
    requires Words(Scanned(START, items)).Some? && NoHoleEscaped(items)
    ensures HolesUnquoted(items) <==>
            forall lookup: Lookup, line :: Filled(items, Quoted(lookup)) == Ok(line) ==> KeepsWords(items, lookup, line)
  {
    if HolesUnquoted(items) {
      forall lookup: Lookup, line | Filled(items, Quoted(lookup)) == Ok(line) ensures KeepsWords(items, lookup, line) {
        ResolvedScan(items, lookup);
        WordsInserted(Scanned(START, items), lookup);
      }
    } else {
      var line := ResolvedWeighs(items);
      var resolved, expected := Scanned(START, Lits(line)), InsertedScan(Scanned(START, items), Blanks());
      WordsInserted(Scanned(START, items), Blanks());
      WordsWeigh(resolved);
      WordsWeigh(expected);
      assert !KeepsWords(items, Blanks(), line);
    }
  }
}
