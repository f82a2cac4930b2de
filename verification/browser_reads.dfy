/** What every path of a document holds after the top-level `[browser]` keys are handed down
    (crates/ferridriver-config/src/layer.rs:456-516). */
module BrowserReads {
  import opened Json
  import opened LayerMerge
  import opened LayerLedger
  import opened BrowserDefaults

  function SectionTable(doc: Value, section: string): Option<Value> {
    Nested(doc, section, "browser")
  }

  function Own(doc: Value, section: string, key: string): Option<Value> {
    var table := SectionTable(doc, section);
    if table.Some? then Member(table.value, key) else None
  }

  /** The section and its `browser` are tables, or not there yet. */
  predicate Hosts(doc: Value, section: string) {
    doc.Obj? && (Member(doc, section).Some? ==> Member(doc, section).value.Obj?) &&
    (SectionTable(doc, section).Some? ==> SectionTable(doc, section).value.Obj?)
  }

  /** The section names a browser of its own, and not the one the top level names. */
  predicate OtherBrowser(doc: Value, section: string) {
    Own(doc, section, "browser").Some? &&
    Own(doc, section, "browser") != Nested(doc, "browser", "browser")
  }

  /** A section's own value stays. Without one it takes the top level's, except that it takes no `backend` meant for
      another browser. */
  function Handed(doc: Value, section: string, key: string): Option<Value> {
    if Own(doc, section, key).Some? then Own(doc, section, key)
    else if Hosts(doc, section) && !(key == "backend" && OtherBrowser(doc, section)) then Nested(doc, "browser", key)
    else None
  }

  lemma FillsMeans(doc: Value, global: map<string, Value>, section: string, key: string)
    requires doc.Obj? && Member(doc, "browser") == Some(Obj(global))
    ensures Fills(doc, global, section, key) <==>
            key in global && Own(doc, section, key) == None && Hosts(doc, section) &&
            !(key == "backend" && OtherBrowser(doc, section))
  {
    assert Nested(doc, "browser", "browser") == if "browser" in global then Some(global["browser"]) else None;
  }

  lemma OwnAfter(doc: Value, global: map<string, Value>, section: string, key: string, other: string, at: string)
    requires doc.Obj?
    ensures Own(Inherit(doc, global, section, key), other, at) ==
            if other == section && at == key && Fills(doc, global, section, key) then Some(global[key])
            else Own(doc, other, at)
  {
    FillsPlaces(doc, global, section, key);
  }

  lemma {:induction false} OwnAfterAll(doc: Value, global: map<string, Value>, section: string, keys: seq<string>,
                                       other: string, at: string)
    requires doc.Obj? && Distinct(keys)
    ensures InheritAll(doc, global, section, keys).Obj?
    ensures Own(InheritAll(doc, global, section, keys), other, at) ==
            if other == section && FillsOne(doc, global, section, keys, at) then Some(global[at])
            else Own(doc, other, at)
    decreases keys
  {
    if keys != [] {
      var next := Inherit(doc, global, section, keys[0]);
      FillsPlaces(doc, global, section, keys[0]);
      OwnAfter(doc, global, section, keys[0], other, at);
      if at != keys[0] {
        FillsStays(doc, global, section, keys[0], at);
      }
      OwnAfterAll(next, global, section, keys[1..], other, at);
    }
  }

  lemma InheritedAre(key: string)
    ensures key in INHERITED <==> key == "browser" || key == "backend" || key == "headless" || key == "viewport"
    ensures Distinct(INHERITED)
  {
  }

  lemma FillsSame(doc: Value, next: Value, global: map<string, Value>, section: string, key: string)
    requires doc.Obj? && next.Obj? && Member(next, section) == Member(doc, section)
    ensures Fills(next, global, section, key) <==> Fills(doc, global, section, key)
  {
  }

  /** What either section reads at an inherited key. */
  lemma HandedDown(doc: Value, section: string, key: string)
    requires doc.Obj? && Member(doc, "browser").Some? && Member(doc, "browser").value.Obj?
    requires section == "mcp" || section == "test"
    requires key in INHERITED
    ensures Own(WithBrowserDefaults(doc), section, key) == Handed(doc, section, key)
  {
    var global := doc.fields["browser"].fields;
    TwoHandedDown(doc, global, "mcp", "test", section, key);
    FillsMeans(doc, global, section, key);
    assert Nested(doc, "browser", key) == if key in global then Some(global[key]) else None;
  }

  lemma TwoHandedDown(doc: Value, global: map<string, Value>, first: string, second: string, section: string,
                      key: string)
    requires doc.Obj? && first != second && (section == first || section == second) && key in INHERITED
    ensures Own(InheritAll(InheritAll(doc, global, first, INHERITED), global, second, INHERITED), section, key) ==
            if Fills(doc, global, section, key) then Some(global[key]) else Own(doc, section, key)
  {
    var next := InheritAll(doc, global, first, INHERITED);
    InheritedAre(key);
    OwnAfterAll(doc, global, first, INHERITED, section, key);
    OwnAfterAll(next, global, second, INHERITED, section, key);
    OtherMembers(doc, global, first, INHERITED, second);
    FillsSame(doc, next, global, second, key);
  }

  // ---------------------------------------------------------------- everywhere else

  /** A path the copying can write: an inherited key of a section, or something below it. */
  predicate Written(p: Path) {
    |p| >= 3 && (p[0] == "mcp" || p[0] == "test") && p[1] == "browser" && p[2] in INHERITED
  }

  /** Both hold the same at `p`, except that where one holds a table or nothing the other may hold a table. */
  predicate SameValue(a: Value, b: Value, p: Path) {
    At(a, p) == At(b, p) || (Table(At(a, p)) && Table(At(b, p)))
  }

  predicate Table(v: Option<Value>) {
    v.Some? ==> v.value.Obj?
  }

  lemma AtTail(v: Value, p: Path)
    requires p != []
    ensures At(v, p) == if v.Obj? && p[0] in v.fields then At(v.fields[p[0]], p[1..]) else None
  {
  }

  lemma NothingBelow(v: Value, p: Path)
    requires p != [] && (!v.Obj? || v.fields == map[])
    ensures At(v, p) == None
  {
  }

  lemma HostKeeps(host: map<string, Value>, browser: map<string, Value>, key: string, value: Value, p: Path)
    requires if "browser" in host then host["browser"] == Obj(browser) else browser == map[]
    requires !(|p| >= 2 && p[0] == "browser" && p[1] == key)
    ensures SameValue(Obj(host["browser" := Obj(browser[key := value])]), Obj(host), p)
  {
    var filled := Obj(browser[key := value]);
    if p != [] {
      AtTail(Obj(host["browser" := filled]), p);
      AtTail(Obj(host), p);
      if p[0] == "browser" && |p| >= 2 {
        AtTail(filled, p[1..]);
        AtTail(Obj(browser), p[1..]);
      }
    }
  }

  lemma InheritKeeps(doc: Value, global: map<string, Value>, section: string, key: string, p: Path)
    requires doc.Obj? && !Copied(p, section, key)
    ensures SameValue(Inherit(doc, global, section, key), doc, p)
  {
    FillsPlaces(doc, global, section, key);
    if Fills(doc, global, section, key) && p != [] {
      var host := if section in doc.fields then doc.fields[section].fields else map[];
      var browser := if "browser" in host then host["browser"].fields else map[];
      AtTail(Inherit(doc, global, section, key), p);
      AtTail(doc, p);
      if p[0] == section {
        HostKeeps(host, browser, key, global[key], p[1..]);
        if p[1..] != [] && section !in doc.fields {
          NothingBelow(Obj(host), p[1..]);
        }
      }
    }
  }

  lemma {:induction false} InheritAllKeeps(doc: Value, global: map<string, Value>, section: string, keys: seq<string>,
                                           p: Path)
    requires doc.Obj? && forall i :: 0 <= i < |keys| ==> !Copied(p, section, keys[i])
    ensures InheritAll(doc, global, section, keys).Obj? && SameValue(InheritAll(doc, global, section, keys), doc, p)
    decreases keys
  {
    if keys != [] {
      FillsPlaces(doc, global, section, keys[0]);
      InheritKeeps(doc, global, section, keys[0], p);
      InheritAllKeeps(Inherit(doc, global, section, keys[0]), global, section, keys[1..], p);
    }
  }

  /** Anywhere else every value stays, and none but tables appear. */
  lemma DefaultsKeepTheRest(doc: Value, p: Path)
    requires doc.Obj? && !Written(p)
    ensures SameValue(WithBrowserDefaults(doc), doc, p)
  {
    if "browser" in doc.fields && doc.fields["browser"].Obj? {
      var global := doc.fields["browser"].fields;
      InheritAllKeeps(doc, global, "mcp", INHERITED, p);
      InheritAllKeeps(InheritAll(doc, global, "mcp", INHERITED), global, "test", INHERITED, p);
    }
  }
}
