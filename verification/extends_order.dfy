/** In which order files listed side by side are merged (crates/ferridriver-config/src/layer.rs:553-571, 837-858). */
module ExtendsOrder {
  import opened Json
  import opened LayerMerge
  import opened LayerLedger
  import opened ExtendsWalk
  import opened ExtendsGraph

  lemma {:induction false} OneByOne(d: Disk, layers: seq<ConfigLayer>, w: Walk, m: nat)
    requires m <= |layers| && AppliedAll(d, layers, w).Ok?
    ensures AppliedAll(d, layers[..m], w).Ok?
    ensures AppliedAll(d, layers[m..], AppliedAll(d, layers[..m], w).value) == AppliedAll(d, layers, w)
    decreases m
  {
    if m == 0 {
      assert layers[0..] == layers && layers[..0] == [];
    } else {
      var first := Applied(d, layers[0], w).value;
      OneByOne(d, layers[1..], first, m - 1);
      assert layers[..m][0] == layers[0] && layers[..m][1..] == layers[1..][..m - 1];
      assert layers[m..] == layers[1..][m - 1..];
    }
  }

  /** `f` is merged before `g`, both after what was merged already. */
  predicate MergedBefore(d: Disk, before: Walk, after: Walk, f: string, g: string) {
    exists i, j :: |before.layers| <= i < j < |after.layers| &&
      d.Canonical(after.layers[i].path) == f && d.Canonical(after.layers[j].path) == g
  }

  lemma NewlyMerged(d: Disk, before: Walk, after: Walk, stack: set<string>, f: string) returns (i: int)
    requires Walked(d, before, stack) && Walked(d, after, stack) && before.layers <= after.layers
    requires f in after.seen && f !in before.seen
    ensures |before.layers| <= i < |after.layers| && d.Canonical(after.layers[i].path) == f
  {
    assert f in Ids(d, after.layers);
    i :| 0 <= i < |after.layers| && Ids(d, after.layers)[i] == f;
    forall k | 0 <= k < |before.layers| ensures Ids(d, after.layers)[k] in before.seen {
      assert Ids(d, before.layers)[k] in Ids(d, before.layers);
    }
  }

  /** What is entered by the middle of a walk is merged before what is entered later. */
  lemma {:induction false} Between(d: Disk, w: Walk, mid: Walk, after: Walk, stack: set<string>, f: string, g: string)
    requires Walked(d, w, stack) && Walked(d, mid, stack) && Walked(d, after, stack)
    requires w.layers <= mid.layers && mid.layers <= after.layers
    requires f !in w.seen && f in mid.seen && g !in mid.seen && g in after.seen
    ensures MergedBefore(d, w, after, f, g)
  {
    var i := NewlyMerged(d, w, mid, stack, f);
    var j := NewlyMerged(d, mid, after, stack, g);
    assert after.layers[i] == mid.layers[i];
  }

  /** Of the files listed side by side, an earlier one is merged before a later one, unless the later one is reached
      from one that is listed no later than the earlier one. */
  lemma {:induction false} InOrder(d: Disk, layers: seq<ConfigLayer>, w: Walk, stack: set<string>, m: nat, n: nat)
    requires Walked(d, w, stack) && AppliedAll(d, layers, w).Ok? && m < n < |layers|
    requires forall s, k :: s in stack && 0 <= k < |layers| ==> Reaches(d, s, d.Canonical(layers[k].path))
    requires d.Canonical(layers[m].path) !in w.seen && d.Canonical(layers[n].path) !in w.seen
    requires !FromRoots(d, layers[..m + 1], d.Canonical(layers[n].path))
    ensures MergedBefore(d, w, AppliedAll(d, layers, w).value, d.Canonical(layers[m].path), d.Canonical(layers[n].path))
  {
    var f, g := d.Canonical(layers[m].path), d.Canonical(layers[n].path);
    OneByOne(d, layers, w, m + 1);
    PrefixWalks(d, layers, w, stack, m);
    ApplyAllStaysReachable(d, layers[..m + 1], w, g);
    ApplyAllWalks(d, layers, w, stack);
    Between(d, w, AppliedAll(d, layers[..m + 1], w).value, AppliedAll(d, layers, w).value, stack, f, g);
  }

  lemma {:induction false} PrefixWalks(d: Disk, layers: seq<ConfigLayer>, w: Walk, stack: set<string>, m: nat)
    requires Walked(d, w, stack) && m < |layers| && AppliedAll(d, layers[..m + 1], w).Ok?
    requires forall s, k :: s in stack && 0 <= k < |layers| ==> Reaches(d, s, d.Canonical(layers[k].path))
    ensures var mid := AppliedAll(d, layers[..m + 1], w).value;
            Walked(d, mid, stack) && d.Canonical(layers[m].path) in mid.seen
  {
    var first := layers[..m + 1];
    forall s, k | s in stack && 0 <= k < |first| ensures Reaches(d, s, d.Canonical(first[k].path)) {
      assert first[k] == layers[k];
    }
    ApplyAllWalks(d, first, w, stack);
    assert first[m] == layers[m];
  }

  /** The roots of a stack: an earlier one lies beneath a later one, unless it or one before it reaches that one. */
  lemma {:induction false} RootsInOrder(d: Disk, roots: seq<ConfigLayer>, m: nat, n: nat)
    requires AppliedAll(d, roots, START).Ok? && m < n < |roots|
    requires !FromRoots(d, roots[..m + 1], d.Canonical(roots[n].path))
    ensures MergedBefore(d, START, AppliedAll(d, roots, START).value,
                         d.Canonical(roots[m].path), d.Canonical(roots[n].path))
  {
    StartWalked(d);
    InOrder(d, roots, START, {}, m, n);
  }

  /** The files one file extends: the same in the order of its list, wherever in a walk the file is entered. */
  lemma {:induction false} ParentsInOrder(d: Disk, layer: ConfigLayer, w: Walk, stack: set<string>, m: nat, n: nat)
    requires Walked(d, w, stack) && forall s :: s in stack ==> Reaches(d, s, d.Canonical(layer.path))
    requires d.Canonical(layer.path) !in w.seen && Applied(d, layer, w).Ok?
    requires m < n < |d.files[layer.path].parents|
    requires var parents, id := d.Parents(layer.path), d.Canonical(layer.path);
             d.Canonical(parents[m].path) !in w.seen + {id} && d.Canonical(parents[n].path) !in w.seen + {id} &&
             !FromRoots(d, parents[..m + 1], d.Canonical(parents[n].path))
    ensures var names, after := d.files[layer.path].parents, Applied(d, layer, w).value;
            MergedBefore(d, w, after, d.Canonical(names[m]), d.Canonical(names[n])) &&
            after.layers[|after.layers| - 1] == layer
  {
    var id := d.Canonical(layer.path);
    var entered, parents := w.(seen := w.seen + {id}), d.Parents(layer.path);
    UnseenShrinks(d, w.seen, entered.seen);
    EnterWalks(d, layer, w, stack);
    InOrderBelow(d, layer, parents, w, entered, stack + {id}, m, n);
  }

  lemma {:induction false} InOrderBelow(d: Disk, layer: ConfigLayer, parents: seq<ConfigLayer>, w: Walk, entered: Walk,
                     stack: set<string>, m: nat, n: nat)
    requires Walked(d, entered, stack) && AppliedAll(d, parents, entered).Ok? && m < n < |parents|
    requires forall s, k :: s in stack && 0 <= k < |parents| ==> Reaches(d, s, d.Canonical(parents[k].path))
    requires d.Canonical(parents[m].path) !in entered.seen && d.Canonical(parents[n].path) !in entered.seen
    requires !FromRoots(d, parents[..m + 1], d.Canonical(parents[n].path)) && entered.layers == w.layers
    ensures var below := AppliedAll(d, parents, entered).value;
            MergedBefore(d, w, below.(layers := below.layers + [layer]),
                         d.Canonical(parents[m].path), d.Canonical(parents[n].path))
  {
    InOrder(d, parents, entered, stack, m, n);
    var below := AppliedAll(d, parents, entered).value;
    OneMoreMerged(d, entered, below, layer, d.Canonical(parents[m].path), d.Canonical(parents[n].path));
  }

  lemma OneMoreMerged(d: Disk, w: Walk, below: Walk, layer: ConfigLayer, f: string, g: string)
    requires MergedBefore(d, w, below, f, g)
    ensures MergedBefore(d, w, below.(layers := below.layers + [layer]), f, g)
  {
    var i, j :| |w.layers| <= i < j < |below.layers| &&
      d.Canonical(below.layers[i].path) == f && d.Canonical(below.layers[j].path) == g;
    var more := below.layers + [layer];
    assert more[i] == below.layers[i] && more[j] == below.layers[j];
  }

  // ---------------------------------------------------------------- how a merged layer came in

  lemma {:induction false} OneComesIn(d: Disk, layer: ConfigLayer, w: Walk, i: int)
    requires Applied(d, layer, w).Ok? && |w.layers| <= i < |Applied(d, layer, w).value.layers|
    ensures var merged := Applied(d, layer, w).value.layers[i]; merged == layer || merged.kind == Extends
    decreases d.Unseen(w.seen), 0
  {
    var id := d.Canonical(layer.path);
    if id !in w.seen {
      var entered := w.(seen := w.seen + {id});
      UnseenShrinks(d, w.seen, entered.seen);
      var below := AppliedAll(d, d.Parents(layer.path), entered).value;
      if i < |below.layers| {
        AllComeIn(d, d.Parents(layer.path), entered, i);
      }
    }
  }

  /** A merged layer is one of the roots as it was discovered, or came in as a file that another extends. */
  lemma {:induction false} AllComeIn(d: Disk, layers: seq<ConfigLayer>, w: Walk, i: int)
    requires AppliedAll(d, layers, w).Ok? && |w.layers| <= i < |AppliedAll(d, layers, w).value.layers|
    ensures var merged := AppliedAll(d, layers, w).value.layers[i]; merged in layers || merged.kind == Extends
    decreases d.Unseen(w.seen), |layers| + 1
  {
    if layers != [] {
      var first := Applied(d, layers[0], w).value;
      UnseenShrinks(d, w.seen, first.seen);
      var after := AppliedAll(d, layers, w).value;
      if i < |first.layers| {
        OneComesIn(d, layers[0], w, i);
        assert after.layers[i] == first.layers[i];
      } else {
        AllComeIn(d, layers[1..], first, i);
      }
    }
  }
}
