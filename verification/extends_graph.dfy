/** What the `extends` walk merges, and in which order, for any finite graph of files, cycles and
    diamonds included (crates/ferridriver-config/src/layer.rs:817-859). */
module ExtendsGraph {
  import opened Json
  import opened LayerMerge
  import opened LayerLedger
  import opened ExtendsWalk

  /** The file `f` names `g` in its `extends`; files are told apart by canonical path. */
  ghost predicate Edge(d: Disk, f: string, g: string) {
    exists p :: p in d.files && d.Canonical(p) == f && d.Names(p, g)
  }

  /** Two paths to one file agree on whether it can be read and on what it extends. They need not: a relative
      `extends` is resolved against the directory of the path, so a symbolic link in another directory names
      other parents, and the path visited first decides. */
  ghost predicate Coherent(d: Disk) {
    forall p, q :: d.Canonical(p) == d.Canonical(q) ==>
      (p in d.files <==> q in d.files) &&
      (p in d.files && q in d.files ==> forall g :: d.Names(p, g) <==> d.Names(q, g))
  }

  ghost predicate IsPath(d: Disk, path: seq<string>) {
    path != [] && forall i :: 0 <= i < |path| - 1 ==> Edge(d, path[i], path[i + 1])
  }

  ghost predicate Reaches(d: Disk, f: string, g: string) {
    exists path :: IsPath(d, path) && path[0] == f && path[|path| - 1] == g
  }

  lemma ReachesSelf(d: Disk, f: string)
    ensures Reaches(d, f, f)
  {
    assert IsPath(d, [f]);
  }

  lemma ReachesEdge(d: Disk, f: string, g: string, h: string)
    requires Reaches(d, f, g) && Edge(d, g, h)
    ensures Reaches(d, f, h)
  {
    var path :| IsPath(d, path) && path[0] == f && path[|path| - 1] == g;
    assert IsPath(d, path + [h]);
  }

  /** The merged files, in merge order. */
  function Ids(d: Disk, layers: seq<ConfigLayer>): (r: seq<string>) {
    seq(|layers|, i requires 0 <= i < |layers| => d.Canonical(layers[i].path))
  }

  // ---------------------------------------------------------------- invariant of the walk

  /** `stack` holds the files entered but not merged yet. */
  ghost predicate Walked(d: Disk, w: Walk, stack: set<string>) {
    var ids := Ids(d, w.layers);
    (forall g :: g in w.seen <==> g in stack || g in ids) &&
    (forall g :: g in stack ==> g !in ids) &&
    (forall i, j :: 0 <= i < j < |ids| ==> ids[i] != ids[j]) &&
    (forall i :: 0 <= i < |ids| ==> w.layers[i].path in d.files) &&
    (forall i, g :: 0 <= i < |ids| && d.Names(w.layers[i].path, g) ==> Placed(d, w, i, g))
  }

  /** `g`, extended by the `i`-th merged file, is merged before it, or is on a cycle with it. */
  ghost predicate Placed(d: Disk, w: Walk, i: int, g: string) {
    var ids := Ids(d, w.layers);
    0 <= i < |ids| && g in w.seen && (g in ids[..i] || Reaches(d, g, ids[i]))
  }

  /** Entering a file puts it on the stack, which then reaches all it extends. */
  lemma EnterWalks(d: Disk, layer: ConfigLayer, w: Walk, stack: set<string>)
    requires Walked(d, w, stack) && layer.path in d.files && d.Canonical(layer.path) !in w.seen
    requires forall s :: s in stack ==> Reaches(d, s, d.Canonical(layer.path))
    ensures var id := d.Canonical(layer.path);
            Walked(d, w.(seen := w.seen + {id}), stack + {id}) &&
            forall s, m :: s in stack + {id} && 0 <= m < |d.Parents(layer.path)| ==>
              Reaches(d, s, d.Canonical(d.Parents(layer.path)[m].path))
  {
    var id := d.Canonical(layer.path);
    var entered := w.(seen := w.seen + {id});
    assert Walked(d, entered, stack + {id}) by {
      forall i, g | 0 <= i < |w.layers| && d.Names(w.layers[i].path, g) ensures Placed(d, entered, i, g) {
        assert Placed(d, w, i, g);
      }
    }
    ReachesSelf(d, id);
    forall s, m | s in stack + {id} && 0 <= m < |d.Parents(layer.path)|
      ensures Reaches(d, s, d.Canonical(d.Parents(layer.path)[m].path))
    {
      assert d.Names(layer.path, d.Canonical(d.files[layer.path].parents[m]));
      ReachesEdge(d, s, id, d.Canonical(d.Parents(layer.path)[m].path));
    }
  }

  lemma {:induction false} ApplyWalks(d: Disk, layer: ConfigLayer, w: Walk, stack: set<string>)
    requires Walked(d, w, stack)
    requires forall s :: s in stack ==> Reaches(d, s, d.Canonical(layer.path))
    requires Applied(d, layer, w).Ok?
    ensures Walked(d, Applied(d, layer, w).value, stack)
    ensures d.Canonical(layer.path) in Applied(d, layer, w).value.seen
    decreases d.Unseen(w.seen), 0
  {
    var id := d.Canonical(layer.path);
    if id !in w.seen {
      var entered := w.(seen := w.seen + {id});
      UnseenShrinks(d, w.seen, entered.seen);
      EnterWalks(d, layer, w, stack);
      ApplyAllWalks(d, d.Parents(layer.path), entered, stack + {id});
      MergeWalks(d, layer, AppliedAll(d, d.Parents(layer.path), entered).value, stack);
    }
  }

  lemma {:induction false} ApplyAllWalks(d: Disk, layers: seq<ConfigLayer>, w: Walk, stack: set<string>)
    requires Walked(d, w, stack)
    requires forall s, m :: s in stack && 0 <= m < |layers| ==> Reaches(d, s, d.Canonical(layers[m].path))
    requires AppliedAll(d, layers, w).Ok?
    ensures Walked(d, AppliedAll(d, layers, w).value, stack)
    ensures forall m :: 0 <= m < |layers| ==> d.Canonical(layers[m].path) in AppliedAll(d, layers, w).value.seen
    decreases d.Unseen(w.seen), |layers| + 1
  {
    if layers != [] {
      ApplyWalks(d, layers[0], w, stack);
      var first := Applied(d, layers[0], w).value;
      UnseenShrinks(d, w.seen, first.seen);
      forall s, m | s in stack && 0 <= m < |layers[1..]| ensures Reaches(d, s, d.Canonical(layers[1..][m].path)) {
        assert layers[1..][m] == layers[m + 1];
      }
      ApplyAllWalks(d, layers[1..], first, stack);
      forall m | 0 <= m < |layers| ensures d.Canonical(layers[m].path) in AppliedAll(d, layers, w).value.seen {
        if m > 0 {
          assert layers[1..][m - 1] == layers[m];
        }
      }
    }
  }

  lemma OwnParent(d: Disk, layer: ConfigLayer, w: Walk, g: string)
    requires layer.path in d.files && d.Names(layer.path, g)
    requires forall m :: 0 <= m < |d.Parents(layer.path)| ==> d.Canonical(d.Parents(layer.path)[m].path) in w.seen
    ensures g in w.seen
  {
    var m :| 0 <= m < |d.files[layer.path].parents| && d.Canonical(d.files[layer.path].parents[m]) == g;
    assert d.Parents(layer.path)[m].path == d.files[layer.path].parents[m];
  }

  /** Merging a file whose parents have all been entered moves it off the stack. */
  lemma MergeWalks(d: Disk, layer: ConfigLayer, w: Walk, stack: set<string>)
    requires var id := d.Canonical(layer.path);
             layer.path in d.files && id !in stack && Walked(d, w, stack + {id}) &&
             (forall s :: s in stack ==> Reaches(d, s, id)) &&
             forall m :: 0 <= m < |d.Parents(layer.path)| ==> d.Canonical(d.Parents(layer.path)[m].path) in w.seen
    ensures Walked(d, w.(layers := w.layers + [layer]), stack)
  {
    var id := d.Canonical(layer.path);
    var done := w.(layers := w.layers + [layer]);
    var ids, n := Ids(d, done.layers), |w.layers|;
    assert ids == Ids(d, w.layers) + [id];
    forall i, g | 0 <= i < |ids| && d.Names(done.layers[i].path, g) ensures Placed(d, done, i, g) {
      if i < n {
        assert Placed(d, w, i, g);
        assert ids[..i] == Ids(d, w.layers)[..i];
      } else {
        OwnParent(d, layer, w, g);
        assert ids[..n] == Ids(d, w.layers);
        ReachesSelf(d, id);
      }
    }
  }

  // ---------------------------------------------------------------- exactly the reachable files

  lemma {:induction false} ApplyStaysReachable(d: Disk, layer: ConfigLayer, w: Walk, g: string)
    ensures Applied(d, layer, w).Ok? && g in Applied(d, layer, w).value.seen ==>
              g in w.seen || Reaches(d, d.Canonical(layer.path), g)
    ensures Applied(d, layer, w).Err? ==>
              var p := Applied(d, layer, w).error;
              p !in d.files && Reaches(d, d.Canonical(layer.path), d.Canonical(p))
    decreases d.Unseen(w.seen), 0
  {
    var id := d.Canonical(layer.path);
    ReachesSelf(d, id);
    if id !in w.seen && layer.path in d.files {
      var entered := w.(seen := w.seen + {id});
      UnseenShrinks(d, w.seen, entered.seen);
      ApplyAllStaysReachable(d, d.Parents(layer.path), entered, g);
      forall m, h | 0 <= m < |d.Parents(layer.path)| && Reaches(d, d.Canonical(d.Parents(layer.path)[m].path), h)
        ensures Reaches(d, id, h)
      {
        assert d.Names(layer.path, d.Canonical(d.files[layer.path].parents[m]));
        EdgeReaches(d, id, d.Canonical(d.Parents(layer.path)[m].path), h);
      }
    }
  }

  lemma {:induction false} ApplyAllStaysReachable(d: Disk, layers: seq<ConfigLayer>, w: Walk, g: string)
    ensures AppliedAll(d, layers, w).Ok? && g in AppliedAll(d, layers, w).value.seen ==>
              g in w.seen || FromRoots(d, layers, g)
    ensures AppliedAll(d, layers, w).Err? ==>
              var p := AppliedAll(d, layers, w).error;
              p !in d.files && FromRoots(d, layers, d.Canonical(p))
    decreases d.Unseen(w.seen), |layers| + 1
  {
    if layers != [] {
      ApplyStaysReachable(d, layers[0], w, g);
      var first := Applied(d, layers[0], w);
      if first.Ok? {
        UnseenShrinks(d, w.seen, first.value.seen);
        ApplyAllStaysReachable(d, layers[1..], first.value, g);
        forall h | FromRoots(d, layers[1..], h) ensures FromRoots(d, layers, h) {
          var m :| 0 <= m < |layers[1..]| && Reaches(d, d.Canonical(layers[1..][m].path), h);
          assert layers[m + 1] == layers[1..][m];
        }
      }
    }
  }

  ghost predicate FromRoots(d: Disk, roots: seq<ConfigLayer>, g: string) {
    exists m :: 0 <= m < |roots| && Reaches(d, d.Canonical(roots[m].path), g)
  }

  lemma EdgeReaches(d: Disk, f: string, g: string, h: string)
    requires Edge(d, f, g) && Reaches(d, g, h)
    ensures Reaches(d, f, h)
  {
    var path :| IsPath(d, path) && path[0] == g && path[|path| - 1] == h;
    var longer := [f] + path;
    forall i | 0 <= i < |longer| - 1 ensures Edge(d, longer[i], longer[i + 1]) {
      if i > 0 {
        assert Edge(d, path[i - 1], path[i]);
      }
    }
    assert IsPath(d, longer);
  }

  /** A set of files closed under `extends` holds everything reachable from its members. */
  lemma {:induction false} ClosedUnderEdges(d: Disk, files: set<string>, path: seq<string>)
    requires IsPath(d, path) && path[0] in files
    requires forall f, g :: f in files && Edge(d, f, g) ==> g in files
    ensures path[|path| - 1] in files
  {
    if |path| > 1 {
      assert Edge(d, path[0], path[1]);
      forall i | 0 <= i < |path[1..]| - 1 ensures Edge(d, path[1..][i], path[1..][i + 1]) {
        assert Edge(d, path[i + 1], path[i + 2]);
      }
      ClosedUnderEdges(d, files, path[1..]);
    }
  }

  const START := Walk({}, [])

  lemma StartWalked(d: Disk)
    ensures Walked(d, START, {})
  {
  }

  /** `g` is merged before the `i`-th file, or is on an `extends` cycle with it. */
  ghost predicate MergedBelow(d: Disk, ids: seq<string>, i: int, g: string) {
    0 <= i < |ids| && g in ids && (g in ids[..i] || Reaches(d, g, ids[i]))
  }

  /** No file is merged twice, the roots and only files reachable from them are merged, and what a merged path
      itself extends is merged before it unless it reaches it back. */
  ghost predicate WellMerged(d: Disk, roots: seq<ConfigLayer>, layers: seq<ConfigLayer>) {
    var ids := Ids(d, layers);
    (forall i, j :: 0 <= i < j < |ids| ==> ids[i] != ids[j]) &&
    (forall g :: g in ids ==> FromRoots(d, roots, g)) &&
    (forall m :: 0 <= m < |roots| ==> d.Canonical(roots[m].path) in ids) &&
    (forall i :: 0 <= i < |layers| ==> layers[i].path in d.files) &&
    (forall i, g :: 0 <= i < |ids| && d.Names(layers[i].path, g) ==> MergedBelow(d, ids, i, g))
  }

  /** The walk over any list of roots, in any graph, merges well. */
  lemma WalkMergesOnce(d: Disk, roots: seq<ConfigLayer>)
    requires AppliedAll(d, roots, START).Ok?
    ensures WellMerged(d, roots, AppliedAll(d, roots, START).value.layers)
  {
    var w := AppliedAll(d, roots, START).value;
    var ids := Ids(d, w.layers);
    StartWalked(d);
    ApplyAllWalks(d, roots, START, {});
    forall g | g in ids ensures FromRoots(d, roots, g) {
      ApplyAllStaysReachable(d, roots, START, g);
    }
    forall i, g | 0 <= i < |ids| && d.Names(w.layers[i].path, g) ensures MergedBelow(d, ids, i, g) {
      assert Placed(d, w, i, g);
    }
  }

  lemma EdgeMerged(d: Disk, roots: seq<ConfigLayer>, layers: seq<ConfigLayer>, i: int, g: string)
    requires Coherent(d) && WellMerged(d, roots, layers)
    requires 0 <= i < |layers| && Edge(d, Ids(d, layers)[i], g)
    ensures MergedBelow(d, Ids(d, layers), i, g)
  {
    assert d.Names(layers[i].path, g);
  }

  lemma ReachableMerged(d: Disk, roots: seq<ConfigLayer>, layers: seq<ConfigLayer>, f: string, g: string)
    requires Coherent(d) && WellMerged(d, roots, layers) && f in Ids(d, layers) && Reaches(d, f, g)
    ensures g in Ids(d, layers)
  {
    var path :| IsPath(d, path) && path[0] == f && path[|path| - 1] == g;
    var ids := Ids(d, layers);
    var files := set h | h in ids;
    forall e, h | e in files && Edge(d, e, h) ensures h in files {
      var i :| 0 <= i < |ids| && ids[i] == e;
      EdgeMerged(d, roots, layers, i, h);
    }
    ClosedUnderEdges(d, files, path);
  }

  /** When paths to one file agree, the walk merges exactly the files reachable from the roots, and for
      every edge merges the extended file before the extending one unless the extended file itself
      reaches it. */
  lemma WalkMergesReachable(d: Disk, roots: seq<ConfigLayer>)
    requires Coherent(d) && AppliedAll(d, roots, START).Ok?
    ensures var ids := Ids(d, AppliedAll(d, roots, START).value.layers);
            (forall g :: g in ids <==> FromRoots(d, roots, g)) &&
            (forall i, g :: 0 <= i < |ids| && Edge(d, ids[i], g) ==> MergedBelow(d, ids, i, g))
  {
    WalkMergesOnce(d, roots);
    AllReachableMerged(d, roots, AppliedAll(d, roots, START).value.layers);
  }

  lemma AllReachableMerged(d: Disk, roots: seq<ConfigLayer>, layers: seq<ConfigLayer>)
    requires Coherent(d) && WellMerged(d, roots, layers)
    ensures var ids := Ids(d, layers);
            (forall g :: g in ids <==> FromRoots(d, roots, g)) &&
            (forall i, g :: 0 <= i < |ids| && Edge(d, ids[i], g) ==> MergedBelow(d, ids, i, g))
  {
    forall i, g | 0 <= i < |layers| && Edge(d, Ids(d, layers)[i], g) ensures MergedBelow(d, Ids(d, layers), i, g) {
      EdgeMerged(d, roots, layers, i, g);
    }
    forall g | FromRoots(d, roots, g) ensures g in Ids(d, layers) {
      var m :| 0 <= m < |roots| && Reaches(d, d.Canonical(roots[m].path), g);
      ReachableMerged(d, roots, layers, d.Canonical(roots[m].path), g);
    }
  }

  /** Every path to a reachable file can be read. */
  ghost predicate AllReadable(d: Disk, roots: seq<ConfigLayer>) {
    forall p :: FromRoots(d, roots, d.Canonical(p)) ==> p in d.files
  }

  /** The walk succeeds when every path to a reachable file can be read, and fails only at a path to a
      reachable file that cannot; when paths to one file agree, it succeeds exactly then. */
  lemma WalkSucceeds(d: Disk, roots: seq<ConfigLayer>)
    ensures var r := AppliedAll(d, roots, START);
            r.Err? ==> r.error !in d.files && FromRoots(d, roots, d.Canonical(r.error))
    ensures AllReadable(d, roots) ==> AppliedAll(d, roots, START).Ok?
    ensures Coherent(d) && AppliedAll(d, roots, START).Ok? ==> AllReadable(d, roots)
  {
    ApplyAllStaysReachable(d, roots, START, "");
    if AppliedAll(d, roots, START).Ok? && Coherent(d) {
      WalkMergesOnce(d, roots);
      MergedAreReadable(d, roots, AppliedAll(d, roots, START).value.layers);
    }
  }

  lemma MergedAreReadable(d: Disk, roots: seq<ConfigLayer>, layers: seq<ConfigLayer>)
    requires Coherent(d) && WellMerged(d, roots, layers)
    ensures AllReadable(d, roots)
  {
    AllReachableMerged(d, roots, layers);
    forall p | FromRoots(d, roots, d.Canonical(p)) ensures p in d.files {
      MergedIsReadable(d, layers, p);
    }
  }

  lemma MergedIsReadable(d: Disk, layers: seq<ConfigLayer>, p: string)
    requires Coherent(d) && d.Canonical(p) in Ids(d, layers)
    requires forall i :: 0 <= i < |layers| ==> layers[i].path in d.files
    ensures p in d.files
  {
    var i :| 0 <= i < |layers| && Ids(d, layers)[i] == d.Canonical(p);
    assert layers[i].path in d.files;
    SameFile(d, layers[i].path, p);
  }

  lemma SameFile(d: Disk, p: string, q: string)
    requires Coherent(d) && d.Canonical(p) == d.Canonical(q) && p in d.files
    ensures q in d.files
  {}

  /** Where two paths to one file disagree, a reachable file may stay unmerged, readable or not: the second
      root is a link to the first, and only the link names `far`. */
  lemma LinkedFileHidesParents(a: ConfigLayer, link: ConfigLayer, far: string, doc: Value, readable: bool)
    requires a.path != link.path && far != a.path && far != link.path
    ensures var files := map[a.path := ParsedFile([], doc), link.path := ParsedFile([far], doc)];
            var d := Disk(if readable then files[far := ParsedFile([], doc)] else files, map[link.path := a.path]);
            var r := AppliedAll(d, [a, link], START);
            !Coherent(d) && r.Ok? && Ids(d, r.value.layers) == [a.path] &&
            FromRoots(d, [a, link], far) && d.Canonical(far) == far && (far in d.files <==> readable)
  {
    var files := map[a.path := ParsedFile([], doc), link.path := ParsedFile([far], doc)];
    var d := Disk(if readable then files[far := ParsedFile([], doc)] else files, map[link.path := a.path]);
    assert d.Names(link.path, far) by { assert d.files[link.path].parents[0] == far; }
    assert !d.Names(a.path, far);
    assert Edge(d, a.path, far);
    ReachesSelf(d, a.path);
    ReachesEdge(d, a.path, a.path, far);
    assert d.Canonical([a, link][0].path) == a.path;
    var one := Walk({a.path}, [a]);
    assert d.Parents(a.path) == [] && Applied(d, a, START) == Ok(one) by {
      assert {} + {a.path} == {a.path} && [] + [a] == [a];
    }
    assert Applied(d, link, one) == Ok(one);
    assert [a, link][1..] == [link] && [link][1..] == [];
    assert AppliedAll(d, [link], one) == Ok(one);
  }

  // ---------------------------------------------------------------- without cycles

  ghost predicate Acyclic(d: Disk) {
    forall f, g :: Edge(d, f, g) ==> !Reaches(d, g, f)
  }

  /** A merged path with this identity extends `g`. */
  predicate Extends(d: Disk, layers: seq<ConfigLayer>, f: string, g: string) {
    exists i :: 0 <= i < |layers| && d.Canonical(layers[i].path) == f && layers[i].path in d.files &&
      d.Names(layers[i].path, g)
  }

  /** Each file is extended by the one before it, as the merged paths have it. */
  predicate IsChain(d: Disk, layers: seq<ConfigLayer>, chain: seq<string>) {
    |chain| > 1 && forall i :: 0 <= i < |chain| - 1 ==> Extends(d, layers, chain[i], chain[i + 1])
  }

  /** A merged path extends what some merged path with its identity extends: there is no other such path. */
  lemma ExtendsItself(d: Disk, roots: seq<ConfigLayer>, layers: seq<ConfigLayer>, a: int, g: string)
    requires WellMerged(d, roots, layers) && 0 <= a < |layers|
    requires Extends(d, layers, d.Canonical(layers[a].path), g)
    ensures layers[a].path in d.files && d.Names(layers[a].path, g) && MergedBelow(d, Ids(d, layers), a, g)
  {
    var i :| 0 <= i < |layers| && d.Canonical(layers[i].path) == d.Canonical(layers[a].path) &&
      layers[i].path in d.files && d.Names(layers[i].path, g);
    assert Ids(d, layers)[i] == Ids(d, layers)[a];
    assert i == a;
  }

  lemma NextIsBelow(d: Disk, roots: seq<ConfigLayer>, layers: seq<ConfigLayer>, a: int, g: string) returns (b: int)
    requires Acyclic(d) && WellMerged(d, roots, layers)
    requires 0 <= a < |layers| && Extends(d, layers, d.Canonical(layers[a].path), g)
    ensures 0 <= b < a && d.Canonical(layers[b].path) == g
  {
    ExtendsItself(d, roots, layers, a, g);
    OwnIsEdge(d, layers[a].path, g);
    b := StrictlyBelow(d, Ids(d, layers), a, g);
  }

  lemma StrictlyBelow(d: Disk, ids: seq<string>, a: int, g: string) returns (b: int)
    requires Acyclic(d) && MergedBelow(d, ids, a, g) && Edge(d, ids[a], g)
    ensures 0 <= b < a && ids[b] == g
  {
    b :| 0 <= b < a && ids[..a][b] == g;
  }

  lemma OwnIsEdge(d: Disk, p: string, g: string)
    requires p in d.files && d.Names(p, g)
    ensures Edge(d, d.Canonical(p), g)
  {}

  /** Without cycles every file reached from a merged file lies strictly below it. */
  lemma {:induction false} ReachedFileIsBelow(d: Disk, roots: seq<ConfigLayer>, layers: seq<ConfigLayer>, a: int,
      chain: seq<string>)
    returns (b: int)
    requires Acyclic(d) && WellMerged(d, roots, layers)
    requires 0 <= a < |layers| && IsChain(d, layers, chain) && chain[0] == d.Canonical(layers[a].path)
    ensures 0 <= b < a && d.Canonical(layers[b].path) == chain[|chain| - 1]
    decreases |chain|
  {
    assert Extends(d, layers, chain[0], chain[1]);
    b := NextIsBelow(d, roots, layers, a, chain[1]);
    if |chain| > 2 {
      var rest := chain[1..];
      forall k | 0 <= k < |rest| - 1 ensures Extends(d, layers, rest[k], rest[k + 1]) {
        assert Extends(d, layers, chain[k + 1], chain[k + 2]);
      }
      b := ReachedFileIsBelow(d, roots, layers, b, rest);
    }
  }

  lemma {:induction false} WinnerAtOrAbove(stack: seq<Layer>, l: Ledger, a: int, p: Path) returns (i: int)
    requires KindAgreeing(stack) && Logged(stack, l) && 0 <= a < |stack| && p != [] && IsLeaf(stack[a].doc, p)
    ensures a <= i < |stack| && p in l.winners && l.winners[p] == stack[i].origin
  {
    LedgerIsExact(stack, l);
    FoldedAt(stack, p);
    assert NamesLastHolder(stack, l, p);
    i :| LastHolder(stack, p, i) && l.winners[p] == stack[i].origin;
  }

  /** The stack is the extension defaults with these files on top. */
  predicate Tops(d: Disk, stack: seq<Layer>, layers: seq<ConfigLayer>) {
    |layers| <= |stack| && stack[|stack| - |layers|..] == LayersOf(d, layers)
  }

  lemma {:induction false} TopAt(d: Disk, stack: seq<Layer>, layers: seq<ConfigLayer>, i: int)
    requires Tops(d, stack, layers) && 0 <= i < |layers|
    ensures stack[|stack| - |layers| + i] == LayerOf(d, layers[i])
  {
    assert stack[|stack| - |layers|..][i] == LayersOf(d, layers)[i];
  }

  lemma {:induction false} TopLeaf(d: Disk, stack: seq<Layer>, layers: seq<ConfigLayer>, a: int, p: Path)
    requires Tops(d, stack, layers) && 0 <= a < |layers| && IsLeaf(LayerOf(d, layers[a]).doc, p)
    ensures IsLeaf(stack[|stack| - |layers| + a].doc, p)
  {
    TopAt(d, stack, layers, a);
  }

  /** The winner of a leaf of the a-th file is that file or one above it. */
  lemma {:induction false} FileAtOrAbove(d: Disk, stack: seq<Layer>, layers: seq<ConfigLayer>, l: Ledger, a: int,
                                         p: Path)
    returns (i: int)
    requires Tops(d, stack, layers) && KindAgreeing(stack) && Logged(stack, l)
    requires 0 <= a < |layers| && p != [] && IsLeaf(LayerOf(d, layers[a]).doc, p)
    ensures a <= i < |layers| && p in l.winners && l.winners[p] == File(layers[i].path)
  {
    var n := |stack| - |layers|;
    TopLeaf(d, stack, layers, a, p);
    var at := WinnerAtOrAbove(stack, l, n + a, p);
    i := at - n;
    assert l.winners[p] == File(layers[i].path) by {
      TopAt(d, stack, layers, i);
    }
  }

  lemma {:induction false} NoneAboveIsReached(d: Disk, roots: seq<ConfigLayer>, layers: seq<ConfigLayer>, a: int,
                                              chain: seq<string>, c: int)
    requires Acyclic(d) && WellMerged(d, roots, layers) && 0 <= a <= c < |layers|
    requires IsChain(d, layers, chain) && chain[0] == d.Canonical(layers[a].path)
    ensures d.Canonical(layers[c].path) != chain[|chain| - 1]
  {
    var b := ReachedFileIsBelow(d, roots, layers, a, chain);
    assert Ids(d, layers)[b] != Ids(d, layers)[c];
  }

  /** So without cycles no file reached from a merged file ever wins a key that file sets. */
  lemma {:induction false} ExtendingFileWins(d: Disk, roots: seq<ConfigLayer>, stack: seq<Layer>, l: Ledger, a: int,
                                             chain: seq<string>, p: Path)
    requires Acyclic(d) && AppliedAll(d, roots, START).Ok?
    requires KindAgreeing(stack) && Logged(stack, l)
    requires var layers := AppliedAll(d, roots, START).value.layers;
             Tops(d, stack, layers) &&
             0 <= a < |layers| && IsChain(d, layers, chain) && chain[0] == d.Canonical(layers[a].path) &&
             p != [] && IsLeaf(LayerOf(d, layers[a]).doc, p)
    ensures p in l.winners && l.winners[p].File? && d.Canonical(l.winners[p].path) != chain[|chain| - 1]
  {
    var layers := AppliedAll(d, roots, START).value.layers;
    WalkMergesOnce(d, roots);
    var c := FileAtOrAbove(d, stack, layers, l, a, p);
    NoneAboveIsReached(d, roots, layers, a, chain, c);
  }

  /** When paths to one file agree, every other file reachable from a merged file lies on such a chain. */
  lemma {:induction false} ReachableIsChained(d: Disk, roots: seq<ConfigLayer>, layers: seq<ConfigLayer>, a: int,
      g: string)
    returns (chain: seq<string>)
    requires Coherent(d) && WellMerged(d, roots, layers)
    requires 0 <= a < |layers| && g != Ids(d, layers)[a] && Reaches(d, Ids(d, layers)[a], g)
    ensures IsChain(d, layers, chain) && chain[0] == Ids(d, layers)[a] && chain[|chain| - 1] == g
  {
    var ids := Ids(d, layers);
    chain :| IsPath(d, chain) && chain[0] == ids[a] && chain[|chain| - 1] == g;
    forall k | 0 <= k < |chain| - 1 ensures Extends(d, layers, chain[k], chain[k + 1]) {
      PrefixReaches(d, chain, k);
      ReachableMerged(d, roots, layers, ids[a], chain[k]);
      var i :| 0 <= i < |ids| && ids[i] == chain[k];
      assert Edge(d, chain[k], chain[k + 1]);
      assert d.Names(layers[i].path, chain[k + 1]);
    }
  }

  lemma PrefixReaches(d: Disk, path: seq<string>, k: int)
    requires IsPath(d, path) && 0 <= k < |path|
    ensures Reaches(d, path[0], path[k])
  {
    var prefix := path[..k + 1];
    forall i | 0 <= i < |prefix| - 1 ensures Edge(d, prefix[i], prefix[i + 1]) {
      assert Edge(d, path[i], path[i + 1]);
    }
    assert IsPath(d, prefix);
  }
}
