/** What a merged document holds at every path, and in which order its additive arrays stand
    (crates/ferridriver-config/src/layer.rs:1235-1290). */
module MergeReads {
  import opened Json
  import opened LayerMerge
  import opened MergeLaws
  import opened LayerLedger

  // ---------------------------------------------------------------- one additive array

  /** In `items`, `x` occurs before any `y`. */
  predicate Before(items: seq<Value>, x: Value, y: Value) {
    exists i :: 0 <= i < |items| && items[i] == x && y !in items[..i + 1]
  }

  /** All of `base` in its order, then what only `more` holds, each once and in the order of `more`. */
  ghost predicate Grows(base: seq<Value>, more: seq<Value>, grown: seq<Value>) {
    base <= grown &&
    (forall x :: x in grown <==> x in base || x in more) &&
    (forall i, j :: 0 <= i < j < |grown| && |base| <= j ==> grown[i] != grown[j]) &&
    (forall i, j :: |base| <= i < j < |grown| ==> Before(more, grown[i], grown[j]))
  }

  lemma BeforeLonger(items: seq<Value>, more: seq<Value>, x: Value, y: Value)
    requires Before(items, x, y) && items <= more
    ensures Before(more, x, y)
  {
    var i :| 0 <= i < |items| && items[i] == x && y !in items[..i + 1];
    assert more[..i + 1] == items[..i + 1];
  }

  lemma BeforeNew(items: seq<Value>, x: Value, y: Value)
    requires x in items && y !in items
    ensures Before(items + [y], x, y)
  {
    var i :| 0 <= i < |items| && items[i] == x;
    assert (items + [y])[..i + 1] == items[..i + 1];
  }

  lemma {:induction false} AppendItemsGrows(base: seq<Value>, more: seq<Value>)
    ensures Grows(base, more, AppendItems(base, more))
  {
    if more != [] {
      var init, last := more[..|more| - 1], more[|more| - 1];
      var done := AppendItems(base, init);
      assert more == init + [last];
      AppendItemsGrows(base, init);
      GrowsNext(base, init, last, done);
    }
  }

  lemma GrowsNext(base: seq<Value>, init: seq<Value>, last: Value, done: seq<Value>)
    requires Grows(base, init, done)
    ensures Grows(base, init + [last], if last in done then done else done + [last])
  {
    var grown := if last in done then done else done + [last];
    forall i, j | |base| <= i < j < |grown| ensures Before(init + [last], grown[i], grown[j]) {
      if j < |done| {
        assert Before(init, done[i], done[j]);
        BeforeLonger(init, init + [last], done[i], done[j]);
      } else {
        assert done[i] in done && done[i] !in base;
        BeforeNew(init, done[i], last);
      }
    }
  }

  // ---------------------------------------------------------------- every path of a merged document

  /** The overlay holds something that is no object above the path. */
  ghost predicate CutOff(o: Value, p: Path) {
    exists n :: 0 <= n < |p| && At(o, p[..n]).Some? && !At(o, p[..n]).value.Obj?
  }

  /** The keys whose arrays add up. */
  predicate AdditiveKey(k: string) {
    k == "paths" || k == "sidecars" || k == "chromeArgs" || k == "args" || k == "allowEnv"
  }

  lemma AdditiveKeysAre(k: string)
    ensures AdditiveKey(k) <==> k in APPEND_KEYS
  {
  }

  /** An array meets an array under an additive key. */
  predicate Additive(b: Value, o: Value, p: Path) {
    p != [] && AdditiveKey(p[|p| - 1]) && At(o, p).Some? && At(o, p).value.Arr? && At(b, p).Some? && At(b, p).value.Arr?
  }

  /** What the merged document must hold at `p`. */
  ghost predicate ReadsAt(b: Value, o: Value, m: Value, p: Path) {
    match At(o, p)
    case Some(Obj(fields)) =>
      At(m, p).Some? && At(m, p).value.Obj? &&
      At(m, p).value.fields.Keys ==
      fields.Keys + (if At(b, p).Some? && At(b, p).value.Obj? then At(b, p).value.fields.Keys else {})
    case Some(v) =>
      if Additive(b, o, p) then
        At(m, p).Some? && At(m, p).value.Arr? && Grows(At(b, p).value.items, v.items, At(m, p).value.items)
      else At(m, p) == Some(v)
    case None => At(m, p) == if CutOff(o, p) then None else At(b, p)
  }

  lemma AtStep(v: Value, p: Path)
    requires p != []
    ensures At(v, p) == if v.Obj? && p[0] in v.fields then At(v.fields[p[0]], p[1..]) else None
  {
  }

  lemma CutOffStep(o: Value, p: Path)
    requires p != [] && o.Obj?
    ensures CutOff(o, p) <==> p[0] in o.fields && CutOff(o.fields[p[0]], p[1..])
  {
    if CutOff(o, p) {
      var n :| 0 <= n < |p| && At(o, p[..n]).Some? && !At(o, p[..n]).value.Obj?;
      assert n > 0 && p[..n][1..] == p[1..][..n - 1];
    }
    if p[0] in o.fields && CutOff(o.fields[p[0]], p[1..]) {
      var v := o.fields[p[0]];
      var n :| 0 <= n < |p[1..]| && At(v, p[1..][..n]).Some? && !At(v, p[1..][..n]).value.Obj?;
      assert p[..n + 1][1..] == p[1..][..n] && p[..n + 1][0] == p[0];
      assert At(o, p[..n + 1]) == At(v, p[1..][..n]);
    }
  }

  lemma CutOffBelow(o: Value, p: Path)
    requires p != [] && !o.Obj?
    ensures CutOff(o, p) && At(o, p) == None
  {
    assert At(o, p[..0]) == Some(o);
  }

  /** Any two documents, any path: the overlay's own value where it has one, an additive array grown in order, and
      the base's value wherever the overlay neither speaks nor cuts the path off. */
  lemma {:induction false} MergedReads(b: Value, o: Value, p: Path)
    ensures ReadsAt(b, o, Merged(b, o), p)
    decreases p, 1
  {
    var m := Merged(b, o);
    if p == [] {
      if b.Obj? && o.Obj? {
        assert m.fields.Keys == o.fields.Keys + b.fields.Keys;
      }
    } else if !o.Obj? {
      CutOffBelow(o, p);
    } else if !b.Obj? {
      AtStep(b, p);
      WithoutBase(b, o, p);
    } else {
      BothObjects(b, o, p);
    }
  }

  lemma WithoutBase(b: Value, o: Value, p: Path)
    requires p != [] && At(b, p) == None
    ensures ReadsAt(b, o, o, p)
  {
  }

  lemma {:induction false} BothObjects(b: Value, o: Value, p: Path)
    requires p != [] && b.Obj? && o.Obj?
    ensures ReadsAt(b, o, Merged(b, o), p)
    decreases p, 0
  {
    var m, k, rest := Merged(b, o), p[0], p[1..];
    AtStep(b, p);
    AtStep(o, p);
    AtStep(m, p);
    CutOffStep(o, p);
    if k in b.fields && k in o.fields {
      var x, y := b.fields[k], o.fields[k];
      AdditiveKeysAre(k);
      if Appends(k, y) {
        AdditiveMember(x, y, rest);
        AppendItemsGrows(if x.Arr? then x.items else [], y.items);
      } else {
        MergedReads(x, y, rest);
        SameAdditive(b, o, p);
      }
    } else if k in o.fields {
      assert At(b, p) == None;
    }
  }

  lemma AdditiveMember(x: Value, y: Value, rest: Path)
    requires y.Arr?
    ensures rest != [] ==> At(Appended(x, y), rest) == None && At(y, rest) == None && CutOff(y, rest)
    ensures rest == [] ==> At(Appended(x, y), rest) == Some(Appended(x, y)) && At(y, rest) == Some(y)
  {
    if rest != [] {
      CutOffBelow(y, rest);
      CutOffBelow(Appended(x, y), rest);
    }
  }

  lemma SameAdditive(b: Value, o: Value, p: Path)
    requires p != [] && b.Obj? && o.Obj? && p[0] in b.fields && p[0] in o.fields && !Appends(p[0], o.fields[p[0]])
    ensures Additive(b, o, p) <==> Additive(b.fields[p[0]], o.fields[p[0]], p[1..])
  {
    AtStep(b, p);
    AtStep(o, p);
    AdditiveKeysAre(p[0]);
    if |p| > 1 {
      assert p[1..][|p[1..]| - 1] == p[|p| - 1];
    }
  }

  // ---------------------------------------------------------------- additive arrays of a whole stack

  lemma {:induction false} AppendLeafAt(v: Value, key: string, p: Path)
    requires p != []
    ensures IsAppendLeaf(v, key, p) <==> p[|p| - 1] in APPEND_KEYS && At(v, p).Some? && At(v, p).value.Arr?
    ensures IsAppendLeaf(v, key, p) ==> Items(v, p) == At(v, p).value.items
    decreases p
  {
    AtStep(v, p);
    if v.Obj? && p[0] in v.fields {
      var child, rest := v.fields[p[0]], p[1..];
      if rest == [] {
        assert p == [p[0]];
      } else {
        AppendLeafAt(child, p[0], rest);
        assert rest[|rest| - 1] == p[|p| - 1];
      }
    }
  }

  /** What one more layer does to an additive array. */
  lemma ItemsMerged(a: Value, b: Value, p: Path)
    requires p != [] && a.Obj? && b.Obj? && AgreeMembers(a, b) && WellKindedMembers(a) && WellKindedMembers(b)
    ensures IsAppendLeaf(b, "", p) ==>
              if IsAppendLeaf(a, "", p) then Grows(Items(a, p), Items(b, p), Items(Merged(a, b), p))
              else Items(Merged(a, b), p) == Items(b, p)
    ensures IsAppendLeaf(a, "", p) && !IsAppendLeaf(b, "", p) ==> Items(Merged(a, b), p) == Items(a, p)
  {
    AppendLeafAt(a, "", p);
    AppendLeafAt(b, "", p);
    AdditiveKeysAre(p[|p| - 1]);
    if IsAppendLeaf(b, "", p) {
      MergedReads(a, b, p);
    } else if IsAppendLeaf(a, "", p) {
      ArrayIsLeaf(a, p);
      if IsLeaf(b, p) {
        LeafAgrees(a, b, "", p);
      }
      ValueMerged(a, b, p);
    }
  }

  lemma {:induction false} ArrayIsLeaf(v: Value, p: Path)
    requires At(v, p).Some? && At(v, p).value.Arr?
    ensures IsLeaf(v, p)
    decreases p
  {
    if p != [] {
      ArrayIsLeaf(v.fields[p[0]], p[1..]);
    }
  }

  /** Where one of two agreeing documents holds an additive array, a leaf of the other is one too. */
  lemma {:induction false} LeafAgrees(a: Value, b: Value, key: string, p: Path)
    requires p != [] && a.Obj? && b.Obj? && AgreeMembers(a, b)
    requires IsAppendLeaf(a, key, p) && IsLeaf(b, p)
    ensures IsAppendLeaf(b, key, p)
    decreases p
  {
    var k, rest := p[0], p[1..];
    assert Agree(k, a.fields[k], b.fields[k]);
    if rest != [] {
      LeafAgrees(a.fields[k], b.fields[k], k, rest);
    }
  }

  /** Layer `a` is the first to hold `x` in its array at `p`, and holds it first at `m`. */
  ghost predicate Brings(layers: seq<Layer>, p: Path, x: Value, a: int, m: int) {
    0 <= a < |layers| && IsAppendLeaf(layers[a].doc, "", p) &&
    0 <= m < |Items(layers[a].doc, p)| && Items(layers[a].doc, p)[m] == x && x !in Items(layers[a].doc, p)[..m] &&
    forall j :: 0 <= j < a && IsAppendLeaf(layers[j].doc, "", p) ==> x !in Items(layers[j].doc, p)
  }

  /** `x` stands first in `items` before any `y`; and if an earlier layer brings it, every `x` before every `y`. */
  ghost predicate Ordered(items: seq<Value>, x: Value, y: Value, apart: bool) {
    Before(items, x, y) &&
    (apart ==> forall i, j :: 0 <= i < |items| && 0 <= j < |items| && items[i] == x && items[j] == y ==> i < j)
  }

  lemma BringsEarlier(layers: seq<Layer>, p: Path, x: Value, a: int, m: int)
    requires Brings(layers, p, x, a, m) && a < |layers| - 1
    ensures Brings(layers[..|layers| - 1], p, x, a, m)
  {
    assert forall i :: 0 <= i < |layers| - 1 ==> layers[..|layers| - 1][i] == layers[i];
  }

  /** Who brings an entry of all but the last layer holds it. */
  lemma BroughtIsFolded(layers: seq<Layer>, p: Path, x: Value, a: int, m: int)
    requires KindAgreeing(layers) && p != [] && layers != [] && Brings(layers, p, x, a, m)
    ensures var init := layers[..|layers| - 1];
            (a < |layers| - 1 ==> IsAppendLeaf(Folded(init), "", p) && x in Items(Folded(init), p)) &&
            (a == |layers| - 1 && IsAppendLeaf(Folded(init), "", p) ==> x !in Items(Folded(init), p))
  {
    var init := layers[..|layers| - 1];
    LastAgrees(layers);
    FoldedAt(init, p);
    assert forall i :: 0 <= i < |init| ==> init[i] == layers[i];
    if a < |layers| - 1 {
      assert HeldItem(init, p, x);
    } else {
      assert !HeldItem(init, p, x);
    }
  }

  lemma OrderedGrown(base: seq<Value>, more: seq<Value>, grown: seq<Value>, x: Value, y: Value, apart: bool)
    requires Grows(base, more, grown) && x in base && y in base && Ordered(base, x, y, apart)
    ensures Ordered(grown, x, y, apart)
  {
    BeforeLonger(base, grown, x, y);
    forall j | |base| <= j < |grown| ensures grown[j] !in base {
      assert forall i :: 0 <= i < |base| ==> grown[i] == base[i] && grown[i] != grown[j];
    }
  }

  lemma NewStandsLater(base: seq<Value>, more: seq<Value>, grown: seq<Value>, x: Value, y: Value)
    requires Grows(base, more, grown) && x in base && y !in base
    ensures Ordered(grown, x, y, true)
  {
    var i :| 0 <= i < |base| && base[i] == x;
    assert grown[..i + 1] == base[..i + 1];
    assert forall j :: |base| <= j < |grown| ==> grown[i] != grown[j];
  }

  lemma NotBefore(items: seq<Value>, m: nat, n: nat)
    requires m < n < |items| && items[n] !in items[..n]
    ensures !Before(items, items[n], items[m])
  {
    assert forall q :: 0 <= q < n ==> items[..n][q] == items[q];
    forall q | 0 <= q < |items| && items[q] == items[n] ensures items[m] in items[..q + 1] {
      assert items[..q + 1][m] == items[m];
    }
  }

  lemma NewInOrder(base: seq<Value>, more: seq<Value>, grown: seq<Value>, m: nat, n: nat)
    requires Grows(base, more, grown) && m < n < |more| && more[n] !in more[..n] && more[m] !in base && more[n] !in base
    ensures Before(grown, more[m], more[n])
  {
    var x, y := more[m], more[n];
    NotBefore(more, m, n);
    assert x != y by {
      assert more[..n][m] == x;
    }
    assert x in more && x in grown;
    var i :| 0 <= i < |grown| && grown[i] == x;
    forall j | 0 <= j < i ensures grown[j] != y {
      assert j < |base| ==> grown[j] in base;
      assert |base| <= j ==> Before(more, grown[j], grown[i]);
    }
  }

  lemma FirstBefore(items: seq<Value>, m: nat, n: nat)
    requires m < n < |items| && items[n] !in items[..n]
    ensures Before(items, items[m], items[n])
  {
    assert forall k :: 0 <= k < m + 1 ==> items[..n][k] == items[..m + 1][k];
  }

  /** An additive array of the folded document stands in the order of the layers that first brought its entries, and
      what one layer brought stands in the order of that layer. */
  lemma {:induction false} FoldedInOrder(layers: seq<Layer>, p: Path, x: Value, a: int, m: int, y: Value, c: int,
                                         n: int)
    requires KindAgreeing(layers) && p != []
    requires Brings(layers, p, x, a, m) && Brings(layers, p, y, c, n) && (a < c || (a == c && m < n))
    ensures Ordered(Items(Folded(layers), p), x, y, a < c)
    decreases |layers|
  {
    var last := |layers| - 1;
    var init, top := layers[..last], layers[last].doc;
    LastAgrees(layers);
    ItemsMerged(Folded(init), top, p);
    BroughtIsFolded(layers, p, x, a, m);
    BroughtIsFolded(layers, p, y, c, n);
    var base, more, items := Items(Folded(init), p), Items(top, p), Items(Folded(layers), p);
    if c < last {
      BringsEarlier(layers, p, x, a, m);
      BringsEarlier(layers, p, y, c, n);
      FoldedInOrder(init, p, x, a, m, y, c, n);
      if IsAppendLeaf(top, "", p) {
        OrderedGrown(base, more, items, x, y, a < c);
      }
    } else if a < last {
      NewStandsLater(base, more, items, x, y);
    } else if IsAppendLeaf(Folded(init), "", p) {
      NewInOrder(base, more, items, m, n);
    } else {
      FirstBefore(items, m, n);
    }
  }
}
