/** The top-level `[browser]` scalars handed down to the sections that launch, and what that does to the ledger
    (crates/ferridriver-config/src/layer.rs: `apply_global_browser_defaults`). */
module BrowserDefaults {
  import opened Json
  import opened LayerMerge
  import opened LayerLedger

  const INHERITED: seq<string> := ["browser", "backend", "headless", "viewport"]

  predicate OtherProduct(browser: map<string, Value>, global: map<string, Value>, key: string) {
    key == "backend" && "browser" in browser && !("browser" in global && browser["browser"] == global["browser"])
  }

  /** Fill `section.browser.key` from the top-level `browser` when the section has no value of its own. */
  function Inherit(doc: Value, global: map<string, Value>, section: string, key: string): Value {
    if !doc.Obj? || key !in global then doc
    else
      var fields := if section in doc.fields then doc.fields else doc.fields[section := Obj(map[])];
      if !fields[section].Obj? then Obj(fields)
      else
        var host := fields[section].fields;
        var browser := if "browser" in host then host["browser"] else Obj(map[]);
        var placed := if browser.Obj? && key !in browser.fields && !OtherProduct(browser.fields, global, key) then
                        Obj(browser.fields[key := global[key]])
                      else browser;
        Obj(fields[section := Obj(host["browser" := placed])])
  }

  function InheritAll(doc: Value, global: map<string, Value>, section: string, keys: seq<string>): Value
    decreases keys
  {
    if keys == [] then doc else InheritAll(Inherit(doc, global, section, keys[0]), global, section, keys[1..])
  }

  function WithBrowserDefaults(doc: Value): Value {
    if doc.Obj? && "browser" in doc.fields && doc.fields["browser"].Obj? then
      var global := doc.fields["browser"].fields;
      InheritAll(InheritAll(doc, global, "mcp", INHERITED), global, "test", INHERITED)
    else doc
  }

  // ---------------------------------------------------------------- the ledger

  type Winners = map<Path, Origin>

  /** The key is copied into the section. */
  predicate Fills(doc: Value, global: map<string, Value>, section: string, key: string) {
    doc.Obj? && key in global &&
    match Member(doc, section)
    case None => true
    case Some(host) =>
      host.Obj? &&
      match Member(host, "browser")
      case None => true
      case Some(browser) => browser.Obj? && key !in browser.fields && !OtherProduct(browser.fields, global, key)
  }

  /** The copied key is won by whatever won the top-level one, if that very path has a winner. */
  function Attributed(doc: Value, global: map<string, Value>, section: string, key: string, w: Winners): Winners {
    if Fills(doc, global, section, key) && ["browser", key] in w then
      w[[section, "browser", key] := w[["browser", key]]]
    else w
  }

  function AttributedAll(doc: Value, global: map<string, Value>, section: string, keys: seq<string>, w: Winners)
    : Winners
    decreases keys
  {
    if keys == [] then w
    else
      AttributedAll(Inherit(doc, global, section, keys[0]), global, section, keys[1..],
                    Attributed(doc, global, section, keys[0], w))
  }

  function WithBrowserWinners(doc: Value, w: Winners): Winners {
    if doc.Obj? && "browser" in doc.fields && doc.fields["browser"].Obj? then
      var global := doc.fields["browser"].fields;
      AttributedAll(InheritAll(doc, global, "mcp", INHERITED), global, "test", INHERITED,
                    AttributedAll(doc, global, "mcp", INHERITED, w))
    else w
  }

  /** Copying this key leaves the ledger exact: a table would bring leaves that nobody is credited with,
      and an empty table it is copied into stops being a leaf. */
  predicate CopiesExactly(doc: Value, global: map<string, Value>, section: string, key: string) {
    Fills(doc, global, section, key) ==>
      !NonEmptyObject(global[key]) && Member(doc, section) != Some(Obj(map[])) &&
      Nested(doc, section, "browser") != Some(Obj(map[]))
  }

  lemma FillsPlaces(doc: Value, global: map<string, Value>, section: string, key: string)
    requires doc.Obj?
    ensures !Fills(doc, global, section, key) ==> Inherit(doc, global, section, key) == doc
    ensures Fills(doc, global, section, key) ==>
              var host := if section in doc.fields then doc.fields[section].fields else map[];
              var browser := if "browser" in host then host["browser"].fields else map[];
              Inherit(doc, global, section, key) ==
              Obj(doc.fields[section := Obj(host["browser" := Obj(browser[key := global[key]])])])
  {
    if key in global && section in doc.fields {
      var host := doc.fields[section];
      assert doc.fields[section := host] == doc.fields;
      if host.Obj? && "browser" in host.fields {
        assert host.fields["browser" := host.fields["browser"]] == host.fields;
      }
    }
  }

  predicate Copied(p: Path, section: string, key: string) {
    |p| >= 3 && p[0] == section && p[1] == "browser" && p[2] == key
  }

  lemma TailLeaf(v: Value, p: Path)
    requires p != []
    ensures IsLeaf(v, p) <==> v.Obj? && p[0] in v.fields && IsLeaf(v.fields[p[0]], p[1..])
  {
  }

  lemma FilledHost(host: map<string, Value>, browser: map<string, Value>, key: string, value: Value, p: Path)
    requires p != [] && if "browser" in host then host["browser"] == Obj(browser) else browser == map[]
    ensures IsLeaf(Obj(host["browser" := Obj(browser[key := value])]), p) <==>
            if |p| >= 2 && p[0] == "browser" && p[1] == key then IsLeaf(value, p[2..])
            else p != ["browser"] && IsLeaf(Obj(host), p)
  {
    var filled := Obj(browser[key := value]);
    TailLeaf(Obj(host["browser" := filled]), p);
    TailLeaf(Obj(host), p);
    if p[0] == "browser" {
      if |p| == 1 {
        assert p == ["browser"] && p[1..] == [] && key in filled.fields;
      } else {
        TailLeaf(filled, p[1..]);
        TailLeaf(Obj(browser), p[1..]);
        assert p[1..][1..] == p[2..];
      }
    }
  }

  /** A copied key brings its own leaves, and what it is copied into is no leaf any more. */
  lemma FilledLeaf(doc: Value, global: map<string, Value>, section: string, key: string, p: Path)
    requires Fills(doc, global, section, key) && p != []
    ensures IsLeaf(Inherit(doc, global, section, key), p) <==>
            if Copied(p, section, key) then IsLeaf(global[key], p[3..])
            else p != [section] && p != [section, "browser"] && IsLeaf(doc, p)
  {
    FillsPlaces(doc, global, section, key);
    var host := if section in doc.fields then doc.fields[section].fields else map[];
    var browser := if "browser" in host then host["browser"].fields else map[];
    var filled := Obj(host["browser" := Obj(browser[key := global[key]])]);
    TailLeaf(Inherit(doc, global, section, key), p);
    TailLeaf(doc, p);
    if p[0] == section && |p| >= 2 {
      FilledHost(host, browser, key, global[key], p[1..]);
      if |p| >= 3 {
        assert p[1..][2..] == p[3..];
      }
    }
  }

  /** What the loop over the keys has copied by its end. */
  predicate FillsOne(doc: Value, global: map<string, Value>, section: string, keys: seq<string>, key: string) {
    key in keys && Fills(doc, global, section, key)
  }

  predicate Distinct(keys: seq<string>) {
    keys == [] || (keys[0] !in keys[1..] && Distinct(keys[1..]))
  }

  /** Copying one key changes nothing about whether another is copied. */
  lemma FillsStays(doc: Value, global: map<string, Value>, section: string, key: string, other: string)
    requires doc.Obj? && key != other
    ensures Fills(Inherit(doc, global, section, key), global, section, other) <==> Fills(doc, global, section, other)
  {
    FillsPlaces(doc, global, section, key);
  }

  lemma FillsElsewhere(doc: Value, global: map<string, Value>, section: string, key: string, other: string)
    requires doc.Obj? && other != section
    ensures Member(Inherit(doc, global, section, key), other) == Member(doc, other)
  {
    FillsPlaces(doc, global, section, key);
  }

  /** The leaf paths of one section, and of everything else, after its keys are copied. */
  predicate LeafAfter(doc: Value, global: map<string, Value>, section: string, keys: seq<string>, p: Path) {
    if |p| >= 3 && p[0] == section && p[1] == "browser" && FillsOne(doc, global, section, keys, p[2]) then
      IsLeaf(global[p[2]], p[3..])
    else
      IsLeaf(doc, p) &&
      ((p == [section] || p == [section, "browser"]) ==>
         forall i :: 0 <= i < |keys| ==> !Fills(doc, global, section, keys[i]))
  }

  lemma {:induction false} LeavesAfter(doc: Value, global: map<string, Value>, section: string, keys: seq<string>,
                                       p: Path)
    requires doc.Obj? && Distinct(keys) && p != []
    ensures InheritAll(doc, global, section, keys).Obj?
    ensures IsLeaf(InheritAll(doc, global, section, keys), p) <==> LeafAfter(doc, global, section, keys, p)
    decreases keys
  {
    if keys != [] {
      var key, rest := keys[0], keys[1..];
      var next := Inherit(doc, global, section, key);
      FillsPlaces(doc, global, section, key);
      LeavesAfter(next, global, section, rest, p);
      forall other | other in rest ensures Fills(next, global, section, other) <==> Fills(doc, global, section, other) {
        FillsStays(doc, global, section, key, other);
      }
      if Fills(doc, global, section, key) {
        FilledLeaf(doc, global, section, key, p);
      }
    }
  }

  lemma {:induction false} WinnersAfter(doc: Value, global: map<string, Value>, section: string, keys: seq<string>,
                                        w: Winners, p: Path)
    requires doc.Obj? && Distinct(keys) && section != "browser"
    ensures p in AttributedAll(doc, global, section, keys, w) <==>
            p in w || (|p| == 3 && p[0] == section && p[1] == "browser" &&
                       FillsOne(doc, global, section, keys, p[2]) && ["browser", p[2]] in w)
    decreases keys
  {
    if keys != [] {
      var key, rest := keys[0], keys[1..];
      var next := Inherit(doc, global, section, key);
      FillsPlaces(doc, global, section, key);
      WinnersAfter(next, global, section, rest, Attributed(doc, global, section, key, w), p);
      forall other | other in rest ensures Fills(next, global, section, other) <==> Fills(doc, global, section, other) {
        FillsStays(doc, global, section, key, other);
      }
      AttributedAt(doc, global, section, key, w, p);
      if |p| == 3 {
        AttributedAt(doc, global, section, key, w, ["browser", p[2]]);
      }
    }
  }

  lemma AttributedAt(doc: Value, global: map<string, Value>, section: string, key: string, w: Winners, p: Path)
    ensures p in Attributed(doc, global, section, key, w) <==>
            p in w || (|p| == 3 && p[0] == section && p[1] == "browser" && p[2] == key &&
                       Fills(doc, global, section, key) && ["browser", key] in w)
  {
    if |p| == 3 && p[0] == section && p[1] == "browser" && p[2] == key {
      assert p == [section, "browser", key];
    }
  }

  ghost predicate TracksAt(doc: Value, w: Winners, p: Path) {
    p in w <==> p != [] && IsLeaf(doc, p)
  }

  predicate SectionExact(doc: Value, global: map<string, Value>, section: string) {
    forall i :: 0 <= i < |INHERITED| ==> CopiesExactly(doc, global, section, INHERITED[i])
  }

  lemma GlobalLeaf(doc: Value, global: map<string, Value>, key: string)
    requires Member(doc, "browser") == Some(Obj(global)) && key in global
    ensures IsLeaf(doc, ["browser", key]) <==> !NonEmptyObject(global[key])
  {
    var p := ["browser", key];
    TailLeaf(doc, p);
    assert p[1..] == [key];
    TailLeaf(Obj(global), [key]);
    assert [key][1..] == [];
  }

  /** What a key is copied into was a leaf when it was an empty table. */
  lemma HostLeaf(doc: Value, global: map<string, Value>, section: string, key: string)
    requires Fills(doc, global, section, key)
    ensures IsLeaf(doc, [section]) <==> Member(doc, section) == Some(Obj(map[]))
    ensures IsLeaf(doc, [section, "browser"]) <==> Nested(doc, section, "browser") == Some(Obj(map[]))
  {
    TailLeaf(doc, [section]);
    assert [section][1..] == [];
    var p := [section, "browser"];
    TailLeaf(doc, p);
    assert p[1..] == ["browser"];
    if section in doc.fields {
      TailLeaf(doc.fields[section], ["browser"]);
      assert ["browser"][1..] == [];
    }
  }

  lemma SectionHosts(doc: Value, global: map<string, Value>, section: string, p: Path)
    requires SectionExact(doc, global, section) && IsLeaf(doc, p) && (p == [section] || p == [section, "browser"])
    ensures forall i :: 0 <= i < |INHERITED| ==> !Fills(doc, global, section, INHERITED[i])
  {
    forall i | 0 <= i < |INHERITED| ensures !Fills(doc, global, section, INHERITED[i]) {
      assert CopiesExactly(doc, global, section, INHERITED[i]);
      if Fills(doc, global, section, INHERITED[i]) {
        HostLeaf(doc, global, section, INHERITED[i]);
      }
    }
  }

  /** Copied exactly, a path is tracked after the copying as before. */
  lemma SectionTracked(doc: Value, global: map<string, Value>, section: string, w: Winners, p: Path)
    requires section != "browser" && Member(doc, "browser") == Some(Obj(global))
    requires p != [] && TracksAt(doc, w, p) && SectionExact(doc, global, section)
    requires forall k :: TracksAt(doc, w, ["browser", k])
    ensures TracksAt(InheritAll(doc, global, section, INHERITED), AttributedAll(doc, global, section, INHERITED, w), p)
  {
    WinnersAfter(doc, global, section, INHERITED, w, p);
    LeavesAfter(doc, global, section, INHERITED, p);
    if |p| >= 3 && p[0] == section && p[1] == "browser" && FillsOne(doc, global, section, INHERITED, p[2]) {
      var i :| 0 <= i < |INHERITED| && INHERITED[i] == p[2];
      assert CopiesExactly(doc, global, section, INHERITED[i]);
      GlobalLeaf(doc, global, p[2]);
      assert TracksAt(doc, w, ["browser", p[2]]);
      NothingThere(doc, global, section, p);
      assert p[3..] == [] <==> |p| == 3;
    } else if IsLeaf(doc, p) && (p == [section] || p == [section, "browser"]) {
      SectionHosts(doc, global, section, p);
    }
  }

  lemma NothingThere(doc: Value, global: map<string, Value>, section: string, p: Path)
    requires |p| >= 3 && p[0] == section && p[1] == "browser" && Fills(doc, global, section, p[2])
    ensures !IsLeaf(doc, p)
  {
    TailLeaf(doc, p);
    if section in doc.fields {
      TailLeaf(doc.fields[section], p[1..]);
      if "browser" in doc.fields[section].fields {
        TailLeaf(doc.fields[section].fields["browser"], p[1..][1..]);
        assert p[1..][1..][0] == p[2];
      }
    }
  }

  /** A copied table brings a leaf that nobody is credited with. */
  lemma TableUntracked(doc: Value, global: map<string, Value>, section: string, w: Winners, key: string)
    returns (p: Path)
    requires section != "browser" && doc.Obj?
    requires forall q :: q != [] && q[0] == section ==> TracksAt(doc, w, q)
    requires key in INHERITED && Fills(doc, global, section, key) && NonEmptyObject(global[key])
    ensures p != [] && p[0] == section
    ensures !TracksAt(InheritAll(doc, global, section, INHERITED), AttributedAll(doc, global, section, INHERITED, w), p)
  {
    var q := SomeLeaf(global[key]);
    p := [section, "browser", key] + q;
    assert p[3..] == q;
    NothingThere(doc, global, section, p);
    assert TracksAt(doc, w, p);
    WinnersAfter(doc, global, section, INHERITED, w, p);
    LeavesAfter(doc, global, section, INHERITED, p);
  }

  /** An empty table that is copied into keeps its winner and is no leaf any more. */
  lemma HostUntracked(doc: Value, global: map<string, Value>, section: string, w: Winners, key: string, p: Path)
    requires section != "browser" && doc.Obj? && TracksAt(doc, w, p)
    requires key in INHERITED && Fills(doc, global, section, key) && IsLeaf(doc, p)
    requires p == [section] || p == [section, "browser"]
    ensures !TracksAt(InheritAll(doc, global, section, INHERITED), AttributedAll(doc, global, section, INHERITED, w), p)
  {
    var i :| 0 <= i < |INHERITED| && INHERITED[i] == key;
    WinnersAfter(doc, global, section, INHERITED, w, p);
    LeavesAfter(doc, global, section, INHERITED, p);
  }

  /** Not copied exactly, some path of the section is left untracked. */
  lemma SectionUntracked(doc: Value, global: map<string, Value>, section: string, w: Winners, key: string)
    returns (p: Path)
    requires section != "browser" && doc.Obj?
    requires forall q :: q != [] && q[0] == section ==> TracksAt(doc, w, q)
    requires key in INHERITED && !CopiesExactly(doc, global, section, key)
    ensures p != [] && p[0] == section
    ensures !TracksAt(InheritAll(doc, global, section, INHERITED), AttributedAll(doc, global, section, INHERITED, w), p)
  {
    if NonEmptyObject(global[key]) {
      p := TableUntracked(doc, global, section, w, key);
    } else {
      HostLeaf(doc, global, section, key);
      p := if Member(doc, section) == Some(Obj(map[])) then [section] else [section, "browser"];
      HostUntracked(doc, global, section, w, key, p);
    }
  }

  /** A section is exact after its copies if and only if each of them is. */
  lemma SectionTracks(doc: Value, global: map<string, Value>, section: string, w: Winners)
    requires section != "browser" && Member(doc, "browser") == Some(Obj(global))
    requires forall p :: p != [] && p[0] == section ==> TracksAt(doc, w, p)
    requires forall k :: TracksAt(doc, w, ["browser", k])
    ensures var copied := InheritAll(doc, global, section, INHERITED);
            var won := AttributedAll(doc, global, section, INHERITED, w);
            (forall p :: p != [] && p[0] == section ==> TracksAt(copied, won, p)) <==>
              SectionExact(doc, global, section)
  {
    if SectionExact(doc, global, section) {
      forall p: Path | p != [] && p[0] == section
        ensures TracksAt(InheritAll(doc, global, section, INHERITED),
                         AttributedAll(doc, global, section, INHERITED, w), p)
      {
        SectionTracked(doc, global, section, w, p);
      }
    } else {
      var i :| 0 <= i < |INHERITED| && !CopiesExactly(doc, global, section, INHERITED[i]);
      var p := SectionUntracked(doc, global, section, w, INHERITED[i]);
    }
  }

  /** Outside the section the copying changes neither the leaves nor the winners. */
  lemma OtherSections(doc: Value, global: map<string, Value>, section: string, w: Winners, p: Path)
    requires doc.Obj? && section != "browser" && (p == [] || p[0] != section)
    ensures var copied := InheritAll(doc, global, section, INHERITED);
            copied.Obj? && TracksAt(copied, AttributedAll(doc, global, section, INHERITED, w), p) == TracksAt(doc, w, p)
  {
    WinnersAfter(doc, global, section, INHERITED, w, p);
    LeavesAfter(doc, global, section, INHERITED, if p == [] then [section] else p);
  }

  lemma {:induction false} OtherMembers(doc: Value, global: map<string, Value>, section: string, keys: seq<string>,
                                        other: string)
    requires doc.Obj? && other != section
    ensures Member(InheritAll(doc, global, section, keys), other) == Member(doc, other)
    decreases keys
  {
    if keys != [] {
      FillsPlaces(doc, global, section, keys[0]);
      FillsElsewhere(doc, global, section, keys[0], other);
      OtherMembers(Inherit(doc, global, section, keys[0]), global, section, keys[1..], other);
    }
  }

  lemma SameMemberExact(doc: Value, copied: Value, global: map<string, Value>, section: string)
    requires doc.Obj? && copied.Obj? && Member(copied, section) == Member(doc, section)
    ensures SectionExact(copied, global, section) <==> SectionExact(doc, global, section)
  {
    assert forall key :: CopiesExactly(copied, global, section, key) == CopiesExactly(doc, global, section, key);
  }

  lemma TwoSections(doc: Value, global: map<string, Value>, first: string, second: string, w: Winners)
    requires first != second && first != "browser" && second != "browser"
    requires Member(doc, "browser") == Some(Obj(global)) && Tracks(doc, w)
    ensures Tracks(InheritAll(InheritAll(doc, global, first, INHERITED), global, second, INHERITED),
                   AttributedAll(InheritAll(doc, global, first, INHERITED), global, second, INHERITED,
                                 AttributedAll(doc, global, first, INHERITED, w))) <==>
            SectionExact(doc, global, first) && SectionExact(doc, global, second)
  {
    var doc1, w1 := InheritAll(doc, global, first, INHERITED), AttributedAll(doc, global, first, INHERITED, w);
    var doc2, w2 := InheritAll(doc1, global, second, INHERITED), AttributedAll(doc1, global, second, INHERITED, w1);
    assert forall p: Path :: TracksAt(doc, w, p);
    SectionTracks(doc, global, first, w);
    forall p: Path | p == [] || p[0] != first ensures TracksAt(doc1, w1, p) {
      OtherSections(doc, global, first, w, p);
    }
    OtherMembers(doc, global, first, INHERITED, "browser");
    OtherMembers(doc, global, first, INHERITED, second);
    SameMemberExact(doc, doc1, global, second);
    SectionTracks(doc1, global, second, w1);
    forall p: Path | p == [] || p[0] != second ensures TracksAt(doc2, w2, p) == TracksAt(doc1, w1, p) {
      OtherSections(doc1, global, second, w1, p);
    }
    BothTracked(doc1, w1, doc2, w2, first, second);
  }

  lemma BothTracked(doc1: Value, w1: Winners, doc2: Value, w2: Winners, first: string, second: string)
    requires first != second
    requires forall p: Path :: p == [] || p[0] != first ==> TracksAt(doc1, w1, p)
    requires forall p: Path :: p == [] || p[0] != second ==> TracksAt(doc2, w2, p) == TracksAt(doc1, w1, p)
    ensures Tracks(doc2, w2) <==>
            (forall p :: p != [] && p[0] == first ==> TracksAt(doc1, w1, p)) &&
            (forall p :: p != [] && p[0] == second ==> TracksAt(doc2, w2, p))
  {
    assert Tracks(doc2, w2) ==> forall p: Path :: TracksAt(doc2, w2, p);
    if (forall p: Path :: TracksAt(doc2, w2, p)) {
      forall p: Path ensures p in w2 <==> p != [] && IsLeaf(doc2, p) {
        assert TracksAt(doc2, w2, p);
      }
    }
  }

  predicate ExactCopies(doc: Value) {
    match Member(doc, "browser")
    case Some(Obj(global)) => SectionExact(doc, global, "mcp") && SectionExact(doc, global, "test")
    case _ => true
  }

  /** The copying leaves an exact ledger exact if and only if no key it copies is a non-empty table and no
      table it copies into was there and empty. */
  lemma DefaultsKeepLedgerExact(doc: Value, w: Winners)
    requires doc.Obj? && Tracks(doc, w)
    ensures Tracks(WithBrowserDefaults(doc), WithBrowserWinners(doc, w)) <==> ExactCopies(doc)
  {
    if Member(doc, "browser").Some? && Member(doc, "browser").value.Obj? {
      var global := doc.fields["browser"].fields;
      TwoSections(doc, global, "mcp", "test", w);
    }
  }

  // ---------------------------------------------------------------- the code that updates in place

  /** The copies into one section. */
  method CopyInto(document: Value, global: map<string, Value>, section: string, provenance: Provenance)
    returns (copied: Value)
    modifies provenance
    ensures copied == InheritAll(document, global, section, INHERITED)
    ensures provenance.winners == AttributedAll(document, global, section, INHERITED, old(provenance.winners))
    ensures provenance.contributors == old(provenance.contributors)
  {
    copied := document;
    var n := 0;
    assert INHERITED[0..] == INHERITED;
    while n < |INHERITED|
      invariant 0 <= n <= |INHERITED| && provenance.contributors == old(provenance.contributors)
      invariant InheritAll(document, global, section, INHERITED) == InheritAll(copied, global, section, INHERITED[n..])
      invariant AttributedAll(document, global, section, INHERITED, old(provenance.winners)) ==
                AttributedAll(copied, global, section, INHERITED[n..], provenance.winners)
    {
      var key := INHERITED[n];
      assert INHERITED[n..][1..] == INHERITED[n + 1..];
      if Fills(copied, global, section, key) && ["browser", key] in provenance.winners {
        provenance.Win([section, "browser", key], provenance.winners[["browser", key]]);
      }
      copied := Inherit(copied, global, section, key);
      n := n + 1;
    }
  }

  method ApplyGlobalBrowserDefaults(document: Value, provenance: Provenance) returns (copied: Value)
    modifies provenance
    ensures copied == WithBrowserDefaults(document)
    ensures provenance.winners == WithBrowserWinners(document, old(provenance.winners))
    ensures provenance.contributors == old(provenance.contributors)
  {
    copied := document;
    if document.Obj? && "browser" in document.fields && document.fields["browser"].Obj? {
      var global := document.fields["browser"].fields;
      copied := CopyInto(copied, global, "mcp", provenance);
      copied := CopyInto(copied, global, "test", provenance);
    }
  }
}
