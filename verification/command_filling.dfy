/** How a command template reads, and which text each variable gives
    (crates/ferridriver-config/src/command_spec.rs:186-243). */
module CommandFilling {
  import opened Json
  import opened Scanning
  import opened CommandSpec

  function Prefixed(text: string, rest: Result<string, Error>): Result<string, Error> {
    if rest.Ok? then Ok(text + rest.value) else rest
  }

  /** What a whole template is filled to. */
  function FilledTemplate(template: string, lookup: Lookup): Result<string, Error> {
    Filled(Items(template), lookup)
  }

  lemma {:induction false} WrittenStays(out: string, items: seq<Item>, lookup: Lookup)
    ensures FilledFrom(out, items, lookup) == Prefixed(out, Filled(items, lookup))
    decreases |items|
  {
    if items == [] {
      assert out + "" == out;
    } else if PieceOf(items[0], lookup).Ok? {
      var piece := PieceOf(items[0], lookup).value;
      WrittenStays(out + piece, items[1..], lookup);
      WrittenStays("" + piece, items[1..], lookup);
      assert "" + piece == piece;
      if Filled(items[1..], lookup).Ok? {
        assert out + piece + Filled(items[1..], lookup).value == out + (piece + Filled(items[1..], lookup).value);
      }
    }
  }

  lemma FirstItem(template: string, item: Item, rest: string, lookup: Lookup)
    requires template != "" && First(template).0 == item && template[First(template).1..] == rest
    ensures FilledTemplate(template, lookup) ==
            (var piece := PieceOf(item, lookup);
             if piece.Err? then piece else Prefixed(piece.value, FilledTemplate(rest, lookup)))
  {
    var items := Items(template);
    assert items[0] == item && items[1..] == Items(rest);
    if PieceOf(item, lookup).Ok? {
      WrittenStays("" + PieceOf(item, lookup).value, Items(rest), lookup);
      assert "" + PieceOf(item, lookup).value == PieceOf(item, lookup).value;
    }
  }

  /** Text without a dollar stays as it is. */
  lemma {:induction false} PlainStays(text: string, rest: string, lookup: Lookup)
    requires forall i :: 0 <= i < |text| ==> text[i] != '$'
    ensures FilledTemplate(text + rest, lookup) == Prefixed(text, FilledTemplate(rest, lookup))
    decreases |text|
  {
    if text == "" {
      assert text + rest == rest;
      if FilledTemplate(rest, lookup).Ok? {
        assert "" + FilledTemplate(rest, lookup).value == FilledTemplate(rest, lookup).value;
      }
    } else {
      HeadOf(text, rest);
      FirstItem(text + rest, Lit(text[0]), text[1..] + rest, lookup);
      PlainStays(text[1..], rest, lookup);
    }
  }

  lemma FindClose(name: string, rest: string)
    requires '}' !in name
    ensures Find(name + "}" + rest, '}') == |name|
    decreases |name|
  {
    var s := name + "}" + rest;
    if name != "" {
      assert s[0] == name[0] && s[1..] == name[1..] + "}" + rest;
      FindClose(name[1..], rest);
    }
  }

  lemma FindNone(rest: string)
    requires '}' !in rest
    ensures Find(rest, '}') == |rest|
    decreases |rest|
  {
    if rest != "" {
      FindNone(rest[1..]);
    }
  }

  /** A placeholder becomes what its name looks up, which is never read again; without a value it is the error. */
  lemma HoleFilled(name: string, rest: string, lookup: Lookup)
    requires '}' !in name
    ensures FilledTemplate("${" + name + "}" + rest, lookup) ==
            if lookup(name).Err? then lookup(name) else Prefixed(lookup(name).value, FilledTemplate(rest, lookup))
  {
    var s := "${" + name + "}" + rest;
    assert s[2..] == name + "}" + rest;
    FindClose(name, rest);
    assert s[2..2 + |name|] == name && s[|name| + 3..] == rest;
    FirstItem(s, Hole(name), rest, lookup);
  }

  /** A dollar that opens no placeholder, or one that is never closed, is a dollar. */
  lemma DollarStays(rest: string, lookup: Lookup)
    requires rest == "" || rest[0] != '{' || '}' !in rest
    ensures FilledTemplate("$" + rest, lookup) == Prefixed("$", FilledTemplate(rest, lookup))
  {
    var s := "$" + rest;
    assert s[1..] == rest;
    if "${" <= s {
      assert s[2..] == rest[1..] && s[1] == rest[0];
      FindNone(rest[1..]);
    }
    FirstItem(s, Lit('$'), rest, lookup);
  }

  /** The text of a scalar; anything else, and a name without a value, is refused under its name. */
  lemma ScalarTexts(vars: map<string, Value>, show: Number -> string, name: string)
    ensures name !in vars ==> Scalars(vars, show)(name) == Err(Missing(name))
    ensures name in vars ==>
              match vars[name]
              case Str(s) => Scalars(vars, show)(name) == Ok(s)
              case Num(n) => Scalars(vars, show)(name) == Ok(show(n))
              case Bool(b) => Scalars(vars, show)(name) == Ok(if b then "true" else "false")
              case _ => Scalars(vars, show)(name) == Err(NotScalar(name))
  {
  }
}
