/** How a `<column>` template reads (crates/ferridriver-bdd/src/scenario.rs:189-243). */
module TemplateReading {
  import opened Scanning
  import opened Templates

  function Read(text: string, params: map<string, string>): string {
    Filled(Pieces(text), params)
  }

  function Columns(text: string): seq<string> {
    Names(Pieces(text))
  }

  lemma FirstRead(text: string, piece: Piece, rest: string, params: map<string, string>)
    requires text != "" && First(text).0 == piece && text[First(text).1..] == rest
    ensures Read(text, params) == Shown(piece, params) + Read(rest, params)
    ensures Columns(text) == (if piece.Hole? then [piece.name] else []) + Columns(rest)
  {
    assert Pieces(text)[1..] == Pieces(rest);
  }

  /** Text without an opening bracket stays as it is and names no column. */
  lemma {:induction false} PlainStays(text: string, rest: string, params: map<string, string>)
    requires forall i :: 0 <= i < |text| ==> text[i] != '<'
    ensures Read(text + rest, params) == text + Read(rest, params)
    ensures Columns(text + rest) == Columns(rest)
    decreases |text|
  {
    if text == "" {
      assert text + rest == rest;
    } else {
      HeadOf(text, rest);
      FirstRead(text + rest, Lit(text[0]), text[1..] + rest, params);
      PlainStays(text[1..], rest, params);
      assert [] + Columns(rest) == Columns(rest);
    }
  }

  lemma FindClose(name: string, rest: string)
    requires '>' !in name
    ensures Find(name + ">" + rest, '>') == |name|
    decreases |name|
  {
    var s := name + ">" + rest;
    if name != "" {
      assert s[0] == name[0] && s[1..] == name[1..] + ">" + rest;
      FindClose(name[1..], rest);
    }
  }

  lemma FindNone(rest: string)
    requires '>' !in rest
    ensures Find(rest, '>') == |rest|
    decreases |rest|
  {
    if rest != "" {
      FindNone(rest[1..]);
    }
  }

  /** A placeholder is one column of the template, in its place; it becomes the column's value, which is never read
      again, or stays as written when there is no such column. */
  lemma ColumnShown(name: string, rest: string, params: map<string, string>)
    requires name != "" && '>' !in name
    ensures Read("<" + name + ">" + rest, params) ==
            (if name in params then params[name] else "<" + name + ">") + Read(rest, params)
    ensures Columns("<" + name + ">" + rest) == [name] + Columns(rest)
  {
    var s := "<" + name + ">" + rest;
    assert s[1..] == name + ">" + rest;
    FindClose(name, rest);
    assert s[1..1 + |name|] == name && s[|name| + 2..] == rest;
    FirstRead(s, Hole(name), rest, params);
  }

  /** A bracket that closes at once, or never, is a bracket. */
  lemma BracketStays(rest: string, params: map<string, string>)
    requires '>' !in rest || (rest != "" && rest[0] == '>')
    ensures Read("<" + rest, params) == "<" + Read(rest, params)
    ensures Columns("<" + rest) == Columns(rest)
  {
    var s := "<" + rest;
    assert s[1..] == rest;
    if '>' !in rest {
      FindNone(rest);
    }
    FirstRead(s, Lit('<'), rest, params);
    assert [] + Columns(rest) == Columns(rest);
  }
}
