/** Lexical path handling on Unix paths (crates/ferridriver-config/src/layer.rs:1188-1231). */
module Paths {
  import opened Json

  /** What `std::path::Path::components` yields. */
  datatype Component = RootDir | CurDir | ParentDir | Normal(name: string)

  // ---------------------------------------------------------------- strings and components

  function Segments(s: string): seq<string>
    ensures |Segments(s)| >= 1
  {
    if s == "" then [""]
    else
      var rest := Segments(s[..|s| - 1]);
      var c := s[|s| - 1];
      if c == '/' then rest + [""] else rest[|rest| - 1 := rest[|rest| - 1] + [c]]
  }

  function Body(segments: seq<string>): seq<Component> {
    if segments == [] then []
    else
      var init, last := Body(segments[..|segments| - 1]), segments[|segments| - 1];
      if last == "" || last == "." then init
      else if last == ".." then init + [ParentDir]
      else init + [Normal(last)]
  }

  predicate IsAbsolute(s: string) {
    s != "" && s[0] == '/'
  }

  function Components(s: string): seq<Component> {
    (if IsAbsolute(s) then [RootDir] else if Segments(s)[0] == "." then [CurDir] else []) + Body(Segments(s))
  }

  /** `PathBuf::push` of something relative. */
  function Pushed(buffer: string, part: string): string {
    if buffer == "" || buffer[|buffer| - 1] == '/' then buffer + part else buffer + "/" + part
  }

  function Text(c: Component): string {
    match c
    case RootDir => "/"
    case CurDir => "."
    case ParentDir => ".."
    case Normal(name) => name
  }

  /** The text of a `PathBuf` built by pushing the components. */
  function Render(cs: seq<Component>): string {
    if cs == [] then "" else Pushed(Render(cs[..|cs| - 1]), Text(cs[|cs| - 1]))
  }

  function Joined(dir: string, text: string): string {
    if IsAbsolute(text) then text else Pushed(dir, text)
  }

  // ---------------------------------------------------------------- normalize_path

  predicate Rooted(cs: seq<Component>) {
    cs != [] && cs[0] == RootDir
  }

  /** The root only ever comes first. */
  predicate RootFirst(cs: seq<Component>) {
    forall i :: 0 < i < |cs| ==> cs[i] != RootDir
  }

  /** `PathBuf::pop` drops the last component unless it is the root. */
  function Popped(out: seq<Component>): Option<seq<Component>> {
    if out == [] || out[|out| - 1] == RootDir then None else Some(out[..|out| - 1])
  }

  method NormalizePath(path: seq<Component>) returns (out: seq<Component>)
    requires RootFirst(path)
    ensures out == Normalized(path)
  {
    out := [];
    var rooted := false;
    for n := 0 to |path|
      invariant out == Normalized(path[..n])
      invariant rooted == Rooted(path[..n])
    {
      assert path[..n + 1][..n] == path[..n];
      match path[n] {
        case CurDir =>
        case ParentDir =>
          var popped := Popped(out);
          if popped.Some? {
            out := popped.value;
          } else if !rooted {
            out := out + [ParentDir];
          }
        case other =>
          rooted := rooted || other == RootDir;
          out := out + [other];
      }
    }
    assert path[..|path|] == path;
  }

  /** The loop body. */
  function Next(out: seq<Component>, rooted: bool, c: Component): seq<Component> {
    match c
    case CurDir => out
    case ParentDir =>
      var popped := Popped(out);
      if popped.Some? then popped.value else if rooted then out else out + [ParentDir]
    case _ => out + [c]
  }

  /** What the loop has built after reading `path`. */
  function Normalized(path: seq<Component>): seq<Component> {
    if path == [] then []
    else
      Next(Normalized(path[..|path| - 1]), Rooted(path), path[|path| - 1])
  }

  // ---------------------------------------------------------------- the meaning of a path

  /** Reading from the right, a name survives when no `..` is waiting to cancel it. The result is
      the surviving names and the number of `..` left over: how far the path climbs above its start. */
  function Resolve(path: seq<Component>, pending: nat): (seq<string>, nat) {
    if path == [] then ([], pending)
    else
      var init, last := path[..|path| - 1], path[|path| - 1];
      match last
      case RootDir => Resolve(init, pending)
      case CurDir => Resolve(init, pending)
      case ParentDir => Resolve(init, pending + 1)
      case Normal(name) =>
        if pending > 0 then Resolve(init, pending - 1)
        else
          var (names, climb) := Resolve(init, 0);
          (names + [name], climb)
  }

  function Climb(path: seq<Component>): nat {
    Resolve(path, 0).1
  }

  function Names(names: seq<string>): seq<Component> {
    seq(|names|, i requires 0 <= i < |names| => Normal(names[i]))
  }

  /** The path with the same meaning and nothing to cancel: above the root there is only the root. */
  function Meaning(path: seq<Component>): seq<Component> {
    (if Rooted(path) then [RootDir] else seq(Climb(path), _ => ParentDir)) + Names(Resolve(path, 0).0)
  }

  /** `names` and `climb` are what reading `path` from the left has piled up. */
  function Take(names: seq<string>, pending: nat): seq<string> {
    if pending <= |names| then names[..|names| - pending] else []
  }

  lemma TakeSteps(names: seq<string>, name: string, pending: nat)
    ensures Take(names, 0) == names
    ensures Take(Take(names, 1), pending) == Take(names, pending + 1)
    ensures pending > 0 ==> Take(names + [name], pending) == Take(names, pending - 1)
  {
  }

  lemma {:induction false} ResolvePending(path: seq<Component>, pending: nat)
    ensures var (names, climb) := Resolve(path, 0);
            Resolve(path, pending) ==
            (Take(names, pending), if pending <= |names| then climb else climb + pending - |names|)
    decreases |path|
  {
    TakeSteps(Resolve(path, 0).0, "", pending);
    if path != [] {
      var init, last := path[..|path| - 1], path[|path| - 1];
      TakeSteps(Resolve(init, 0).0, Text(last), pending);
      match last
      case RootDir => ResolvePending(init, pending);
      case CurDir => ResolvePending(init, pending);
      case ParentDir =>
        ResolvePending(init, 1);
        ResolvePending(init, pending + 1);
      case Normal(name) =>
        if pending > 0 {
          ResolvePending(init, pending - 1);
        }
    }
  }

  lemma PopNames(base: seq<Component>, names: seq<string>)
    requires names != []
    ensures Popped(base + Names(names)) == Some(base + Names(Take(names, 1)))
  {
    var last := Normal(names[|names| - 1]);
    assert Names(names) == Names(Take(names, 1)) + [last];
    assert base + Names(names) == (base + Names(Take(names, 1))) + [last];
  }

  /** What stands before the names: the root, or on a relative path one `..` per odd climb. */
  function Kept(rooted: bool, climb: nat): seq<Component> {
    if rooted then [RootDir] else if climb % 2 == 1 then [ParentDir] else []
  }

  lemma NextOnNames(rooted: bool, climb: nat, names: seq<string>, c: Component)
    requires c != RootDir
    ensures Next(Kept(rooted, climb) + Names(names), rooted, c) ==
            match c
            case ParentDir => Kept(rooted, if names != [] then climb else climb + 1) + Names(Take(names, 1))
            case Normal(name) => Kept(rooted, climb) + Names(names + [name])
            case _ => Kept(rooted, climb) + Names(names)
  {
    match c
    case ParentDir =>
      if names != [] {
        PopNames(Kept(rooted, climb), names);
      } else {
        assert Kept(rooted, climb) + Names(names) == Kept(rooted, climb);
      }
    case Normal(name) =>
      assert Names(names + [name]) == Names(names) + [Normal(name)];
    case _ =>
  }

  lemma ResolveNext(init: seq<Component>, last: Component)
    ensures var (names, climb) := Resolve(init, 0);
            Resolve(init + [last], 0) ==
            match last
            case ParentDir => (Take(names, 1), if names != [] then climb else climb + 1)
            case Normal(name) => (names + [name], climb)
            case _ => (names, climb)
  {
    assert (init + [last])[..|init|] == init;
    if last == ParentDir {
      ResolvePending(init, 1);
    }
  }

  lemma NormalizedNext(init: seq<Component>, last: Component)
    ensures Normalized(init + [last]) == Next(Normalized(init), Rooted(init + [last]), last)
  {
    assert (init + [last])[..|init|] == init;
  }

  lemma NormalizedStep(init: seq<Component>, last: Component, rooted: bool, names: seq<string>, climb: nat)
    requires last != RootDir && Rooted(init + [last]) == rooted
    requires Normalized(init) == Kept(rooted, climb) + Names(names) && Resolve(init, 0) == (names, climb)
    ensures var (after, climbed) := Resolve(init + [last], 0);
            Normalized(init + [last]) == Kept(rooted, climbed) + Names(after)
  {
    NormalizedNext(init, last);
    ResolveNext(init, last);
    NextOnNames(rooted, climb, names, last);
  }

  /** What the loop builds: the surviving names, below the root if there is one. On a relative path
      every second leftover `..` deletes the one before it, because `pop` removes a kept `..` too. */
  lemma {:induction false} NormalizedIs(path: seq<Component>)
    requires RootFirst(path)
    ensures Normalized(path) == Kept(Rooted(path), Climb(path)) + Names(Resolve(path, 0).0)
    decreases |path|
  {
    if path == [] {
    } else if path[|path| - 1] == RootDir {
      assert path == [RootDir];
    } else {
      var init, last := path[..|path| - 1], path[|path| - 1];
      assert path == init + [last] && Rooted(path) == (Rooted(init) && init != []);
      NormalizedIs(init);
      NormalizedStep(init, last, Rooted(path), Resolve(init, 0).0, Climb(init));
    }
  }

  /** A rooted path keeps its meaning, with `..` dropped at the root. */
  lemma NormalizedRooted(path: seq<Component>)
    requires RootFirst(path) && Rooted(path)
    ensures Normalized(path) == Meaning(path)
    ensures forall i :: 0 < i < |Normalized(path)| ==> Normalized(path)[i].Normal?
  {
    NormalizedIs(path);
  }

  /** A relative path keeps its meaning if and only if it climbs at most one level. */
  lemma NormalizedRelative(path: seq<Component>)
    requires RootFirst(path) && !Rooted(path)
    ensures Normalized(path) == Meaning(path) <==> Climb(path) <= 1
  {
    NormalizedIs(path);
    var (names, climb) := Resolve(path, 0);
    if climb > 1 {
      assert |Meaning(path)| == climb + |names| && |Normalized(path)| == climb % 2 + |names|;
    }
  }

  /** The source promises that a relative path keeps the `..` it needs; `../..` comes out empty. */
  lemma DeepClimbIsLost()
    ensures var path := [ParentDir, ParentDir];
            Normalized(path) == [] && Meaning(path) == path
  {
    var path := [ParentDir, ParentDir];
    assert path[..1] == [ParentDir] && path[..1][..0] == [];
    assert Resolve(path[..1], 1) == ([], 2);
    assert Resolve(path, 0) == ([], 2);
    NormalizedIs(path);
  }

  // ---------------------------------------------------------------- idempotence, on components and on text

  /** Nothing to cancel: names only, below the root or a single kept `..`. */
  predicate Plain(path: seq<Component>) {
    (forall i :: 0 < i < |path| ==> path[i].Normal?) && (path != [] ==> path[0] != CurDir)
  }

  lemma {:induction false} PlainIsNormal(path: seq<Component>)
    requires Plain(path)
    ensures Normalized(path) == path
  {
    if path != [] {
      PlainIsNormal(path[..|path| - 1]);
      assert path == path[..|path| - 1] + [path[|path| - 1]];
    }
  }

  lemma NormalizedIdempotent(path: seq<Component>)
    requires RootFirst(path)
    ensures Plain(Normalized(path)) && Normalized(Normalized(path)) == Normalized(path)
  {
    NormalizedIs(path);
    PlainIsNormal(Normalized(path));
  }

  /** A name `components` could have produced. */
  predicate LegalName(name: string) {
    name != "" && name != "." && name != ".." && '/' !in name
  }

  predicate LegalNames(path: seq<Component>) {
    forall i :: 0 <= i < |path| && path[i].Normal? ==> LegalName(path[i].name)
  }

  lemma {:induction false} SegmentsHaveNoSlash(s: string)
    ensures forall i :: 0 <= i < |Segments(s)| ==> '/' !in Segments(s)[i]
  {
    if s != "" {
      SegmentsHaveNoSlash(s[..|s| - 1]);
    }
  }

  lemma {:induction false} BodyIsLegal(segments: seq<string>)
    requires forall i :: 0 <= i < |segments| ==> '/' !in segments[i]
    ensures LegalNames(Body(segments)) && forall c :: c in Body(segments) ==> c.ParentDir? || c.Normal?
  {
    if segments != [] {
      BodyIsLegal(segments[..|segments| - 1]);
    }
  }

  lemma ComponentsAreLegal(s: string)
    ensures RootFirst(Components(s)) && LegalNames(Components(s))
    ensures Rooted(Components(s)) <==> IsAbsolute(s)
  {
    SegmentsHaveNoSlash(s);
    BodyIsLegal(Segments(s));
    var body := Body(Segments(s));
    assert forall i :: 0 <= i < |body| ==> body[i] in body;
  }

  lemma {:induction false} NormalizedIsLegal(path: seq<Component>)
    requires LegalNames(path)
    ensures LegalNames(Normalized(path))
  {
    if path != [] {
      NormalizedIsLegal(path[..|path| - 1]);
    }
  }

  /** Appending `/name` appends a segment. */
  lemma {:induction false} SegmentsOfName(buffer: string, name: string)
    requires '/' !in name
    ensures Segments(buffer + "/" + name) == Segments(buffer) + [name]
  {
    var s := buffer + "/" + name;
    if name == "" {
      assert s[..|s| - 1] == buffer;
    } else {
      var shorter := name[..|name| - 1];
      assert s[..|s| - 1] == buffer + "/" + shorter;
      SegmentsOfName(buffer, shorter);
      assert shorter + [name[|name| - 1]] == name;
    }
  }

  lemma {:induction false} SegmentsOfWord(name: string)
    requires '/' !in name
    ensures Segments(name) == [name]
  {
    if name != "" {
      SegmentsOfWord(name[..|name| - 1]);
      assert name[..|name| - 1] + [name[|name| - 1]] == name;
    }
  }

  /** `text` reads back as `path`, and can be pushed onto. */
  predicate ReadsBack(path: seq<Component>, text: string) {
    Body(Segments(text)) == (if Rooted(path) then path[1..] else path) &&
    (IsAbsolute(text) <==> Rooted(path)) &&
    (path != [] ==> text != "" && (text[|text| - 1] == '/' <==> path == [RootDir])) &&
    Segments(text)[0] != "."
  }

  lemma BodySnoc(segments: seq<string>, name: string)
    requires LegalName(name)
    ensures Body(segments + [name]) == Body(segments) + [Normal(name)]
  {
    assert (segments + [name])[..|segments|] == segments;
  }

  lemma RootReadsBack()
    ensures ReadsBack([RootDir], "/") && Render([RootDir]) == "/"
  {
    assert [RootDir][..0] == [];
    assert "" + "/" + "" == "/";
    SegmentsOfName("", "");
    assert Segments("/") == ["", ""];
    assert ["", ""][..1] == [""] && [""][..0] == [];
  }

  lemma FirstReadsBack(c: Component)
    requires c != CurDir && (c.Normal? ==> LegalName(c.name))
    ensures ReadsBack([c], Text(c)) && Render([c]) == Text(c)
  {
    if c == RootDir {
      RootReadsBack();
    } else {
      assert [c][..0] == [];
      SegmentsOfWord(Text(c));
      assert [Text(c)][..0] == [];
    }
  }

  lemma SecondReadsBack(name: string)
    requires LegalName(name)
    ensures ReadsBack([RootDir, Normal(name)], "/" + name)
  {
    SegmentsOfName("", name);
    assert "" + "/" + name == "/" + name;
    BodySnoc([""], name);
    assert [""][..0] == [];
  }

  lemma NextReadsBack(path: seq<Component>, text: string, name: string)
    requires path != [] && path != [RootDir] && ReadsBack(path, text) && LegalName(name)
    ensures ReadsBack(path + [Normal(name)], text + "/" + name)
  {
    SegmentsOfName(text, name);
    BodySnoc(Segments(text), name);
  }

  lemma RenderedNextReadsBack(init: seq<Component>, name: string)
    requires init != [] && ReadsBack(init, Render(init)) && LegalName(name)
    ensures ReadsBack(init + [Normal(name)], Render(init + [Normal(name)]))
  {
    RenderNext(init, Normal(name));
    if init == [RootDir] {
      RenderNext([], RootDir);
      assert [] + [RootDir] == init;
      SecondReadsBack(name);
      assert init + [Normal(name)] == [RootDir, Normal(name)];
    } else {
      NextReadsBack(init, Render(init), name);
    }
  }

  lemma RenderNext(path: seq<Component>, c: Component)
    ensures Render(path + [c]) == Pushed(Render(path), Text(c))
  {
    assert (path + [c])[..|path|] == path;
  }

  /** Rendering a plain path and reading it back gives the same components. */
  lemma {:induction false} RenderedReadsBack(path: seq<Component>)
    requires Plain(path) && LegalNames(path)
    ensures ReadsBack(path, Render(path))
    decreases |path|
  {
    if path == [] {
      assert Body([""]) == [] by { assert [""][..0] == []; }
    } else {
      var init, last := path[..|path| - 1], path[|path| - 1];
      assert path == init + [last];
      if init == [] {
        assert path == [last];
        FirstReadsBack(last);
      } else {
        RenderedReadsBack(init);
        RenderedNextReadsBack(init, last.name);
        assert path == init + [Normal(last.name)];
      }
    }
  }

  lemma ComponentsOfRendered(path: seq<Component>)
    requires Plain(path) && LegalNames(path)
    ensures Components(Render(path)) == path
  {
    RenderedReadsBack(path);
    if Rooted(path) {
      assert path == [RootDir] + path[1..];
    }
  }

  /** `normalize_path` from text to text. */
  function NormalizedText(s: string): string {
    Render(Normalized(Components(s)))
  }

  lemma RenderedAbsolute(s: string)
    ensures IsAbsolute(s) ==> IsAbsolute(NormalizedText(s))
  {
    var path := Components(s);
    ComponentsAreLegal(s);
    NormalizedIs(path);
    NormalizedIsLegal(path);
    RenderedReadsBack(Normalized(path));
  }

  /** Normalizing twice is normalizing once, on any text; an absolute path stays absolute. */
  lemma NormalizedTextIdempotent(s: string)
    ensures NormalizedText(NormalizedText(s)) == NormalizedText(s)
    ensures IsAbsolute(s) ==> IsAbsolute(NormalizedText(s))
  {
    RenderedAbsolute(s);
    var path := Components(s);
    ComponentsAreLegal(s);
    NormalizedIdempotent(path);
    NormalizedIsLegal(path);
    ComponentsOfRendered(Normalized(path));
  }
}
