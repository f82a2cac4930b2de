/** The depth-first `extends` walk (crates/ferridriver-config/src/layer.rs:817-859). */
module ExtendsWalk {
  import opened Json
  import opened LayerMerge
  import opened LayerLedger

  datatype LayerKind = Machine | User | Project | Cwd | Local | Extends | Explicit

  datatype ConfigLayer = ConfigLayer(kind: LayerKind, path: string)

  /** A file once read: the files its `extends` names, resolved, and the document to merge. */
  datatype ParsedFile = ParsedFile(parents: seq<string>, doc: Value)

  /** The files that can be read, and what `canonicalize` answers for the paths it knows. */
  datatype Disk = Disk(files: map<string, ParsedFile>, canon: map<string, string>) {
    function Canonical(path: string): string {
      if path in canon then canon[path] else path
    }

    /** What is read at `p` extends the file `g`; files are told apart by canonical path. */
    predicate Names(p: string, g: string)
      requires p in files
    {
      exists i :: 0 <= i < |files[p].parents| && Canonical(files[p].parents[i]) == g
    }

    function Unseen(seen: set<string>): nat {
      |(set p | p in files :: Canonical(p)) - seen|
    }

    /** The paths `file` extends, as layers. */
    function Parents(path: string): seq<ConfigLayer>
      requires path in files
    {
      seq(|files[path].parents|, i requires 0 <= i < |files[path].parents| =>
        ConfigLayer(Extends, files[path].parents[i]))
    }
  }

  datatype Walk = Walk(seen: set<string>, layers: seq<ConfigLayer>)

  lemma UnseenShrinks(d: Disk, seen: set<string>, more: set<string>)
    requires seen <= more
    ensures d.Unseen(more) <= d.Unseen(seen)
    ensures forall p :: p in d.files && d.Canonical(p) !in seen && d.Canonical(p) in more ==>
              d.Unseen(more) < d.Unseen(seen)
  {
    var all := set p | p in d.files :: d.Canonical(p);
    Smaller(all - more, all - seen);
    forall p | p in d.files && d.Canonical(p) !in seen && d.Canonical(p) in more
      ensures d.Unseen(more) < d.Unseen(seen)
    {
      Smaller(all - more, all - seen - {d.Canonical(p)});
    }
  }

  lemma Smaller(a: set<string>, b: set<string>)
    requires a <= b
    ensures |a| <= |b|
  {
    assert b == a + (b - a);
  }

  /** The walk a layer starts: `Err` names the file that could not be read. */
  function Applied(d: Disk, layer: ConfigLayer, w: Walk): (r: Result<Walk, string>)
    ensures r.Ok? ==> w.seen <= r.value.seen && w.layers <= r.value.layers
    decreases d.Unseen(w.seen), 0
  {
    var id := d.Canonical(layer.path);
    if id in w.seen then Ok(w)
    else if layer.path !in d.files then Err(layer.path)
    else
      var entered := w.(seen := w.seen + {id});
      UnseenShrinks(d, w.seen, entered.seen);
      var below := AppliedAll(d, d.Parents(layer.path), entered);
      if below.Err? then below else Ok(below.value.(layers := below.value.layers + [layer]))
  }

  function AppliedAll(d: Disk, layers: seq<ConfigLayer>, w: Walk): (r: Result<Walk, string>)
    ensures r.Ok? ==> w.seen <= r.value.seen && w.layers <= r.value.layers
    decreases d.Unseen(w.seen), |layers| + 1
  {
    if layers == [] then Ok(w)
    else
      var first := Applied(d, layers[0], w);
      if first.Err? then first
      else
        UnseenShrinks(d, w.seen, first.value.seen);
        AppliedAll(d, layers[1..], first.value)
  }

  // ---------------------------------------------------------------- the code that updates in place

  function LayerOf(d: Disk, layer: ConfigLayer): Layer {
    Layer(File(layer.path), if layer.path in d.files then d.files[layer.path].doc else Null)
  }

  function LayersOf(d: Disk, layers: seq<ConfigLayer>): seq<Layer> {
    seq(|layers|, i requires 0 <= i < |layers| => LayerOf(d, layers[i]))
  }

  /** The state one fold accumulates into. `applied` is every layer merged so far, extension
      defaults and environment overrides included. */
  class Fold {
    var document: Value
    const provenance: Provenance
    var layers: seq<ConfigLayer>
    var seen: set<string>
    ghost var applied: seq<Layer>
    ghost var beneath: seq<Layer>

    ghost predicate Valid()
      reads this, provenance
    {
      document == Folded(applied) && Logged(applied, Ledger(provenance.winners, provenance.contributors))
    }

    /** The files sit directly on the extension defaults. */
    ghost predicate OnDefaults(d: Disk)
      reads this
    {
      applied == beneath + LayersOf(d, layers)
    }

    function State(): Walk
      reads this
    {
      Walk(seen, layers)
    }

    /** A fold over the extension defaults (layer.rs:528-551). */
    constructor (defaults: seq<Layer>)
      ensures Valid() && fresh(provenance)
      ensures State() == Walk({}, []) && applied == beneath == defaults
    {
      document, layers, seen, applied, beneath := Obj(map[]), [], {}, [], defaults;
      provenance := new Provenance();
      new;
      for n := 0 to |defaults|
        invariant Valid() && fresh(provenance) && State() == Walk({}, []) && beneath == defaults
        invariant applied == defaults[..n]
      {
        MergeOnTop(defaults[n]);
      }
    }

    /** Merge one document on top: an extension default, a file or an environment override. */
    method MergeOnTop(layer: Layer)
      requires Valid()
      modifies this, provenance
      ensures Valid() && State() == old(State()) && beneath == old(beneath)
      ensures applied == old(applied) + [layer]
    {
      ghost var l0 := Ledger(provenance.winners, provenance.contributors);
      document := Merge(document, layer.doc, [], layer.origin, provenance);
      ghost var l1 := Ledger(provenance.winners, provenance.contributors);
      ghost var before := applied;
      applied := applied + [layer];
      assert applied[..|applied| - 1] == before;
      assert Logged(before, l0) && LedgerStep(Folded(before), l0, layer, l1);
    }

    method ApplyLayer(d: Disk, layer: ConfigLayer) returns (failed: Option<string>)
      requires Valid() && OnDefaults(d)
      modifies this, provenance
      ensures match Applied(d, layer, old(State()))
              case Err(path) => failed == Some(path)
              case Ok(w) => failed == None && State() == w
      ensures failed == None ==> Valid() && OnDefaults(d) && beneath == old(beneath)
      decreases d.Unseen(seen), 0
    {
      var id := d.Canonical(layer.path);
      if id in seen {
        return None;
      }
      UnseenShrinks(d, seen, seen + {id});
      seen := seen + {id};
      if layer.path !in d.files {
        return Some(layer.path);
      }
      failed := ApplyAll(d, d.Parents(layer.path));
      if failed != None {
        return;
      }
      MergeFile(d, layer);
    }

    /** Merge a file whose parents are in place, and list it (layer.rs:850-857). */
    method MergeFile(d: Disk, layer: ConfigLayer)
      requires Valid() && OnDefaults(d)
      modifies this, provenance
      ensures Valid() && OnDefaults(d) && beneath == old(beneath)
      ensures State() == Walk(old(seen), old(layers) + [layer])
    {
      LayersOfAppend(d, layers, layer);
      MergeOnTop(LayerOf(d, layer));
      layers := layers + [layer];
    }

    method ApplyAll(d: Disk, todo: seq<ConfigLayer>) returns (failed: Option<string>)
      requires Valid() && OnDefaults(d)
      modifies this, provenance
      ensures match AppliedAll(d, todo, old(State()))
              case Err(path) => failed == Some(path)
              case Ok(w) => failed == None && State() == w
      ensures failed == None ==> Valid() && OnDefaults(d) && beneath == old(beneath)
      decreases d.Unseen(seen), |todo| + 1
    {
      var n := 0;
      while n < |todo|
        invariant 0 <= n <= |todo|
        invariant Valid() && OnDefaults(d) && beneath == old(beneath) && old(seen) <= seen
        invariant AppliedAll(d, todo, old(State())) == AppliedAll(d, todo[n..], State())
      {
        UnseenShrinks(d, old(seen), seen);
        failed := ApplyLayer(d, todo[n]);
        if failed != None {
          return;
        }
        assert todo[n..][1..] == todo[n + 1..];
        n := n + 1;
      }
      failed := None;
    }
  }

  lemma LayersOfAppend(d: Disk, a: seq<ConfigLayer>, layer: ConfigLayer)
    ensures LayersOf(d, a + [layer]) == LayersOf(d, a) + [LayerOf(d, layer)]
  {
  }
}
