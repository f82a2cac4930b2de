/** When a module leaves the settings of every document beside it alone: the two phases agree whatever the document
    says if and only if all that the module brings is silent
    (crates/ferridriver-config/src/layer.rs:553-571, 817-859). */
module StartupExact {
  import opened Json
  import opened LayerMerge
  import opened LayerLedger
  import opened ExtendsWalk
  import opened Paths
  import opened Anchor
  import opened BrowserDefaults
  import opened Startup
  import opened StartupPhases
  import ExtendsGraph

  /** A stack of a document and a module, which accepts whatever it merges. */
  ghost predicate BesideModule(s: Stack, doc: ConfigLayer, mod: ConfigLayer) {
    s.discovered == [doc, mod] && doc.path !in s.modules && mod.path in s.modules && s.overrides == [] &&
    forall merged :: s.accepts(merged)
  }

  /** The stack with this document in its place. */
  function Saying(s: Stack, doc: ConfigLayer, v: Value): Stack {
    s.(files := s.files[doc.path := v])
  }

  predicate ExtendsNothing(v: Value) {
    v.Obj? && "extends" !in v.fields
  }

  function Visited(s: Stack, doc: ConfigLayer): Walk {
    Walk({DiskOf(s, true).Canonical(doc.path)}, [doc])
  }

  /** What the module brings: the walk it starts after the document. */
  function Brought(s: Stack, doc: ConfigLayer, mod: ConfigLayer): Result<Walk, string> {
    Applied(DiskOf(s, true), mod, Visited(s, doc))
  }

  // ---------------------------------------------------------------- the walk does not depend on the document

  ghost predicate SameUnseen(a: Disk, b: Disk, seen: set<string>) {
    a.canon == b.canon &&
    forall p :: a.Canonical(p) !in seen ==>
      (p in a.files <==> p in b.files) && (p in a.files && p in b.files ==> a.files[p] == b.files[p])
  }

  lemma {:induction false} WalksAlike(a: Disk, b: Disk, layer: ConfigLayer, w: Walk)
    requires SameUnseen(a, b, w.seen)
    ensures Applied(a, layer, w) == Applied(b, layer, w)
    decreases a.Unseen(w.seen), 0
  {
    var id := a.Canonical(layer.path);
    if id !in w.seen && layer.path in a.files {
      var entered := w.(seen := w.seen + {id});
      UnseenShrinks(a, w.seen, entered.seen);
      AllWalkAlike(a, b, a.Parents(layer.path), entered);
    }
  }

  lemma {:induction false} AllWalkAlike(a: Disk, b: Disk, layers: seq<ConfigLayer>, w: Walk)
    requires SameUnseen(a, b, w.seen)
    ensures AppliedAll(a, layers, w) == AppliedAll(b, layers, w)
    decreases a.Unseen(w.seen), |layers| + 1
  {
    if layers != [] {
      WalksAlike(a, b, layers[0], w);
      var first := Applied(a, layers[0], w);
      if first.Ok? {
        UnseenShrinks(a, w.seen, first.value.seen);
        AllWalkAlike(a, b, layers[1..], first.value);
      }
    }
  }

  lemma SayingReads(s: Stack, doc: ConfigLayer, v: Value)
    requires doc.path !in s.modules && ExtendsNothing(v)
    ensures var t := Saying(s, doc, v);
            var read := ParsedFile([], Prepared(v, s.expand, Place(s.dir(doc.path), s.home)));
            doc.path in DiskOf(t, true).files && DiskOf(t, true).files[doc.path] == read &&
            doc.path in DiskOf(t, false).files && DiskOf(t, false).files[doc.path] == read
    ensures SameUnseen(DiskOf(s, true), DiskOf(Saying(s, doc, v), true), Visited(s, doc).seen)
  {
    var t := Saying(s, doc, v);
    forall p | p != doc.path ensures Read(t, p, true) == Read(s, p, true) {}
  }

  /** The two roots are walked as the document and then what the module brings, whatever the document says. */
  lemma RootsWalked(s: Stack, doc: ConfigLayer, mod: ConfigLayer, v: Value)
    requires BesideModule(s, doc, mod) && ExtendsNothing(v)
    ensures Phase(Saying(s, doc, v), true) == Ok(Visited(s, doc))
    ensures Phase(Saying(s, doc, v), false) == Brought(s, doc, mod)
  {
    var t := Saying(s, doc, v);
    var f, d := DiskOf(t, true), DiskOf(t, false);
    SayingReads(s, doc, v);
    WalksAlike(DiskOf(s, true), f, mod, Visited(s, doc));
    DocumentVisited(f, doc);
    DocumentVisited(d, doc);
    assert Without(t.modules, [doc, mod]) == [doc] by {
      assert [doc, mod][..1] == [doc] && [doc][..0] == [];
      assert Without(t.modules, [doc]) == [doc];
    }
    OneRoot(d, doc, Walk({}, []));
    WalkFirst(f, doc, [mod], Walk({}, []));
    assert [doc] + [mod] == [doc, mod];
    OneRoot(f, mod, Visited(s, doc));
  }

  lemma DocumentVisited(d: Disk, doc: ConfigLayer)
    requires doc.path in d.files && d.files[doc.path].parents == []
    ensures Applied(d, doc, Walk({}, [])) == Ok(Walk({d.Canonical(doc.path)}, [doc]))
  {
    assert d.Parents(doc.path) == [];
    assert {} + {d.Canonical(doc.path)} == {d.Canonical(doc.path)} && [] + [doc] == [doc];
  }

  // ---------------------------------------------------------------- the layers do not depend on it either

  function Layers(s: Stack, doc: ConfigLayer, mod: ConfigLayer): seq<ConfigLayer>
    requires Brought(s, doc, mod).Ok?
  {
    Brought(s, doc, mod).value.layers[1..]
  }

  lemma OthersThanFirst(f: Disk, roots: seq<ConfigLayer>, layers: seq<ConfigLayer>, i: int)
    requires ExtendsGraph.WellMerged(f, roots, layers) && 0 < i < |layers|
    ensures layers[i].path != layers[0].path && layers[i].path in f.files
  {
    assert ExtendsGraph.Ids(f, layers)[i] != ExtendsGraph.Ids(f, layers)[0];
  }

  lemma BroughtWellMerged(s: Stack, doc: ConfigLayer, mod: ConfigLayer)
    requires BesideModule(s, doc, mod) && Brought(s, doc, mod).Ok?
    ensures ExtendsGraph.WellMerged(DiskOf(Saying(s, doc, BARE), true), [doc, mod], Brought(s, doc, mod).value.layers)
  {
    RootsWalked(s, doc, mod, BARE);
    ExtendsGraph.WalkMergesOnce(DiskOf(Saying(s, doc, BARE), true), [doc, mod]);
  }

  /** The files the module brings can be read and are none of them the document. */
  lemma BroughtAreOthers(s: Stack, doc: ConfigLayer, mod: ConfigLayer, i: int)
    requires BesideModule(s, doc, mod) && Brought(s, doc, mod).Ok? && 0 <= i < |Layers(s, doc, mod)|
    ensures var p := Layers(s, doc, mod)[i].path; p != doc.path && p in DiskOf(s, true).files
  {
    BroughtWellMerged(s, doc, mod);
    var layers := Brought(s, doc, mod).value.layers;
    assert layers[0] == doc;
    OthersThanFirst(DiskOf(Saying(s, doc, BARE), true), [doc, mod], layers, i + 1);
    SameRead(s, doc, BARE, layers[i + 1].path);
  }

  lemma SameRead(s: Stack, doc: ConfigLayer, v: Value, p: string)
    requires p != doc.path
    ensures var f, g := DiskOf(s, true), DiskOf(Saying(s, doc, v), true);
            (p in f.files <==> p in g.files) && (p in f.files ==> f.files[p] == g.files[p])
  {
    assert Read(Saying(s, doc, v), p, true) == Read(s, p, true);
  }

  /** What the module brings, as it is merged. */
  function Parts(s: Stack, doc: ConfigLayer, mod: ConfigLayer): seq<Layer>
    requires Brought(s, doc, mod).Ok?
  {
    LayersOf(DiskOf(s, true), Layers(s, doc, mod))
  }

  lemma PartsStay(s: Stack, doc: ConfigLayer, mod: ConfigLayer, v: Value)
    requires BesideModule(s, doc, mod) && Brought(s, doc, mod).Ok? && ExtendsNothing(v)
    ensures LayersOf(DiskOf(Saying(s, doc, v), true), Layers(s, doc, mod)) == Parts(s, doc, mod)
  {
    var layers := Layers(s, doc, mod);
    var f, g := DiskOf(s, true), DiskOf(Saying(s, doc, v), true);
    forall i | 0 <= i < |layers| ensures LayerOf(g, layers[i]) == LayerOf(f, layers[i]) {
      BroughtAreOthers(s, doc, mod, i);
      SameRead(s, doc, v, layers[i].path);
    }
  }

  // ---------------------------------------------------------------- the two documents

  lemma {:induction false} FoldedOnto(first: Layer, rest: seq<Layer>)
    ensures Folded([first] + rest) == MergedOnto(Merged(BARE, first.doc), rest)
    decreases |rest|
  {
    var all := [first] + rest;
    if rest == [] {
      assert all[..0] == [] && all == [first];
      assert Folded([first]) == Merged(Folded([]), first.doc);
    } else {
      FoldedOnto(first, rest[..|rest| - 1]);
      assert all[..|all| - 1] == [first] + rest[..|rest| - 1];
    }
  }

  function PreparedDocument(s: Stack, doc: ConfigLayer, v: Value): Value {
    Prepared(v, s.expand, Place(s.dir(doc.path), s.home))
  }

  lemma OwnMerged(own: Value, first: Layer, rest: seq<Layer>)
    requires own.Obj? && first.doc == own
    ensures Folded([first]) == own && Folded([first] + rest) == MergedOnto(own, rest)
  {
    assert Merged(BARE, own).fields == own.fields;
    FoldedOnto(first, []);
    FoldedOnto(first, rest);
    assert [first] + [] == [first];
  }

  /** What both phases merge: the document, and the document with what the module brings on top. */
  lemma BothPhases(s: Stack, doc: ConfigLayer, mod: ConfigLayer, v: Value)
    requires BesideModule(s, doc, mod) && Brought(s, doc, mod).Ok? && ExtendsNothing(v)
    ensures var t, own := Saying(s, doc, v), PreparedDocument(s, doc, v);
            MergedDocument(t, [], true) == Some(WithBrowserDefaults(own)) &&
            MergedDocument(t, [], false) == Some(WithBrowserDefaults(MergedOnto(own, Parts(s, doc, mod))))
  {
    var t, own := Saying(s, doc, v), PreparedDocument(s, doc, v);
    var first := Layer(File(doc.path), own);
    RootsWalked(s, doc, mod, v);
    PreparedAsSilent(v, s.expand, Place(s.dir(doc.path), s.home));
    OwnMerged(own, first, Parts(s, doc, mod));
    PhaseLayers(s, doc, mod, v);
    MergedAs(t, true, [first]);
    MergedAs(t, false, [first] + Parts(s, doc, mod));
  }

  lemma PhaseLayers(s: Stack, doc: ConfigLayer, mod: ConfigLayer, v: Value)
    requires BesideModule(s, doc, mod) && Brought(s, doc, mod).Ok? && ExtendsNothing(v)
    ensures var t, first := Saying(s, doc, v), Layer(File(doc.path), PreparedDocument(s, doc, v));
            LayersOf(DiskOf(t, false), [doc]) == [first] &&
            LayersOf(DiskOf(t, true), Brought(s, doc, mod).value.layers) == [first] + Parts(s, doc, mod)
  {
    var t := Saying(s, doc, v);
    SayingReads(s, doc, v);
    PartsStay(s, doc, mod, v);
    FirstLayer(DiskOf(t, true), doc, Brought(s, doc, mod).value.layers);
  }

  lemma FirstLayer(f: Disk, doc: ConfigLayer, layers: seq<ConfigLayer>)
    requires layers != [] && layers[0] == doc
    ensures LayersOf(f, layers) == [LayerOf(f, doc)] + LayersOf(f, layers[1..])
  {
  }

  lemma SettlesAs(s: Stack, doc: ConfigLayer, mod: ConfigLayer, v: Value)
    requires BesideModule(s, doc, mod) && Brought(s, doc, mod).Ok? && ExtendsNothing(v)
    ensures var own := PreparedDocument(s, doc, v);
            SettleAlike(Saying(s, doc, v)) <==> SameSettings(own, MergedOnto(own, Parts(s, doc, mod)))
  {
    var own := PreparedDocument(s, doc, v);
    BothPhases(s, doc, mod, v);
    SettlesTo(Saying(s, doc, v), own, MergedOnto(own, Parts(s, doc, mod)));
  }

  /** The two witnesses are merged as they stand. */
  lemma WitnessesPrepared(s: Stack, doc: ConfigLayer)
    ensures ExtendsNothing(BARE) && PreparedDocument(s, doc, BARE) == BARE
    ensures ExtendsNothing(FULL) && PreparedDocument(s, doc, FULL) == FULL
  {
    var at := Place(s.dir(doc.path), s.home);
    BarePrepared(s.expand, at);
    assert WithoutExtends(FULL).fields == FULL.fields;
    FullNormalized(s.expand);
    FullAnchored(at);
  }

  lemma FullNormalized(expand: Expand)
    ensures NormalizedDoc(FULL, expand) == FULL
  {
    var test := FULL.fields["test"];
    assert NormalizedTest(test, expand) == test;
    assert FULL.fields["test" := test] == FULL.fields;
  }

  lemma FullAnchored(at: Place)
    ensures AnchoredDoc(FULL, at) == FULL
  {
    var test := FULL.fields["test"];
    forall rule ensures AnchoredMember(rule, Null, at) == Null {}
    KeptAnchored(test, at);
    assert RuleFor("test") == Descend && AnchoredMember(Descend, test, at) == AnchoredDoc(test, at);
    KeptAnchored(FULL, at);
  }

  /** What the module brings is silent as parsed exactly when it is as merged. */
  lemma PartsAreSilent(s: Stack, doc: ConfigLayer, mod: ConfigLayer, i: int)
    requires BesideModule(s, doc, mod) && Brought(s, doc, mod).Ok? && 0 <= i < |Parts(s, doc, mod)|
    ensures Silent(Parts(s, doc, mod)[i].doc) <==> Layers(s, doc, mod)[i].path in Silents(s)
  {
    BroughtAreOthers(s, doc, mod, i);
    SilentLayer(s, Layers(s, doc, mod)[i].path);
  }

  /** Exactly when a module is harmless: the two phases settle the same whatever the document beside it says, if and
      only if the module and all the files it brings set none of the settled keys and keep `test` a table. */
  lemma ModuleIsHarmless(s: Stack, doc: ConfigLayer, mod: ConfigLayer)
    requires BesideModule(s, doc, mod) && Brought(s, doc, mod).Ok?
    ensures (forall i :: 0 <= i < |Layers(s, doc, mod)| ==> Layers(s, doc, mod)[i].path in Silents(s)) <==>
            (forall v :: ExtendsNothing(v) ==> SettleAlike(Saying(s, doc, v)))
  {
    var parts := Parts(s, doc, mod);
    forall i | 0 <= i < |parts| ensures Silent(parts[i].doc) <==> Layers(s, doc, mod)[i].path in Silents(s) {
      PartsAreSilent(s, doc, mod, i);
    }
    if forall i :: 0 <= i < |parts| ==> Silent(parts[i].doc) {
      forall v | ExtendsNothing(v) ensures SettleAlike(Saying(s, doc, v)) {
        SettlesAs(s, doc, mod, v);
        SilentOnto(PreparedDocument(s, doc, v), parts);
      }
    } else {
      var v := LoudLayersShow(parts);
      WitnessesPrepared(s, doc);
      SettlesAs(s, doc, mod, v);
    }
  }
}
