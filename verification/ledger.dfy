/** What the provenance ledger says after a fold of configuration layers
    (crates/ferridriver-config/src/layer.rs: `Provenance`, `resolve`). */
module LayerLedger {
  import opened Json
  import opened LayerMerge
  import opened MergeLaws

  datatype Layer = Layer(origin: Origin, doc: Value)

  // ---------------------------------------------------------------- one merge, any documents

  /** The ledger names exactly the document's leaf paths. */
  ghost predicate Tracks(doc: Value, winners: map<Path, Origin>) {
    forall p :: p in winners <==> p != [] && IsLeaf(doc, p)
  }

  predicate NonEmptyObject(v: Value) {
    v.Obj? && v.fields != map[]
  }

  /** No member turns from a non-empty object into something else or back. */
  predicate Keeps(base: Value, overlay: Value)
    decreases base, 0
  {
    base.Obj? && overlay.Obj? &&
    forall k :: k in base.fields && k in overlay.fields ==> KeepsMember(base.fields[k], overlay.fields[k])
  }

  predicate KeepsMember(b: Value, o: Value)
    decreases b, 1
  {
    if b.Obj? && o.Obj? then (b.fields == map[] ==> o.fields == map[]) && Keeps(b, o)
    else !NonEmptyObject(b) && !NonEmptyObject(o)
  }

  lemma {:induction false} KeptLeaves(b: Value, o: Value, p: Path)
    requires p != [] && Keeps(b, o)
    ensures IsLeaf(Merged(b, o), p) <==> IsLeaf(b, p) || Wins(b, o, p)
    decreases p
  {
    var k := p[0];
    if k in b.fields && k in o.fields {
      assert KeepsMember(b.fields[k], o.fields[k]);
      if p[1..] != [] && b.fields[k].Obj? && o.fields[k].Obj? {
        KeptLeaves(b.fields[k], o.fields[k], p[1..]);
      }
    }
  }

  lemma {:induction false} SomeLeaf(v: Value) returns (p: Path)
    ensures IsLeaf(v, p)
    ensures NonEmptyObject(v) ==> p != []
  {
    if NonEmptyObject(v) {
      var k :| k in v.fields;
      var q := SomeLeaf(v.fields[k]);
      p := [k] + q;
    } else {
      p := [];
    }
  }

  /** Where a member changes kind, some path is recorded without being a leaf or is a leaf
      without being recorded. */
  lemma {:induction false} LostLeaf(b: Value, o: Value) returns (p: Path)
    requires b.Obj? && o.Obj? && !Keeps(b, o)
    ensures p != [] && !(IsLeaf(Merged(b, o), p) <==> IsLeaf(b, p) || Wins(b, o, p))
  {
    var k :| k in b.fields && k in o.fields && !KeepsMember(b.fields[k], o.fields[k]);
    var x, y := b.fields[k], o.fields[k];
    if x.Obj? && y.Obj? {
      if x.fields == map[] {
        p := [k];
        assert p[1..] == [] && Merged(b, o).fields[k] == Merged(x, y);
        assert Keeps(x, y);
        assert y.fields.Keys != {};
        var member :| member in y.fields;
        assert member in Merged(x, y).fields;
      } else {
        var q := LostLeaf(x, y);
        p := [k] + q;
        assert p[1..] == q && Merged(b, o).fields[k] == Merged(x, y);
      }
    } else {
      var q := SomeLeaf(if NonEmptyObject(x) then x else y);
      p := [k] + q;
      assert p[1..] == q && Merged(b, o).fields[k] == y;
    }
  }

  /** One merge keeps the ledger exact if and only if no member changes kind. */
  lemma MergeKeepsLedgerExact(base: Value, overlay: Value, w0: map<Path, Origin>, w1: map<Path, Origin>, origin: Origin)
    requires base.Obj? && Tracks(base, w0)
    requires Recorded(w0, w1, [], origin, WinPaths(base, overlay))
    ensures Tracks(Merged(base, overlay), w1) <==> Keeps(base, overlay)
  {
    forall p: Path ensures p in w1 <==> p in w0 || Wins(base, overlay, p) {
      assert p[0..] == p;
      assert p in w1 <==> p in w0 || Below([], p, WinPaths(base, overlay));
    }
    if Keeps(base, overlay) {
      forall p: Path | p != [] { KeptLeaves(base, overlay, p); }
    } else if overlay.Obj? {
      var p := LostLeaf(base, overlay);
      assert p in w1 <==> p in w0 || Wins(base, overlay, p);
    } else {
      assert [] in w1;
    }
  }

  // ---------------------------------------------------------------- folding a stack

  /** Additive keys hold arrays and no object is empty. */
  predicate WellKinded(key: string, v: Value)
    decreases v, 1
  {
    (key in APPEND_KEYS ==> v.Arr?) && (v.Obj? ==> v.fields != map[] && WellKindedMembers(v))
  }

  predicate WellKindedMembers(v: Value)
    requires v.Obj?
    decreases v, 0
  {
    forall k :: k in v.fields ==> WellKinded(k, v.fields[k])
  }

  ghost predicate KindAgreeing(layers: seq<Layer>) {
    (forall i :: 0 <= i < |layers| ==> layers[i].doc.Obj? && WellKindedMembers(layers[i].doc)) &&
    (forall i, j :: 0 <= i < j < |layers| ==> AgreeMembers(layers[i].doc, layers[j].doc))
  }

  function Folded(layers: seq<Layer>): Value {
    if layers == [] then Obj(map[]) else Merged(Folded(layers[..|layers| - 1]), layers[|layers| - 1].doc)
  }

  /** `l1` is what merging `layer` into a document `doc` with ledger `l0` leaves. */
  ghost predicate LedgerStep(doc: Value, l0: Ledger, layer: Layer, l1: Ledger) {
    Recorded(l0.winners, l1.winners, [], layer.origin, WinPaths(doc, layer.doc)) &&
    Credited(l0.contributors, l1.contributors, [], layer.origin, AddPaths(doc, layer.doc))
  }

  ghost predicate Logged(layers: seq<Layer>, l: Ledger) {
    if layers == [] then l == Ledger(map[], map[])
    else
      var n := |layers| - 1;
      exists l0 :: Logged(layers[..n], l0) && LedgerStep(Folded(layers[..n]), l0, layers[n], l)
  }

  /** The entries of the array at `p`, if there is one. */
  function Items(v: Value, p: Path): seq<Value> {
    var found := At(v, p);
    if found.Some? && found.value.Arr? then found.value.items else []
  }

  // -------- one step, on documents that agree

  lemma {:induction false} MergedWellKinded(a: Value, b: Value)
    requires a.Obj? && b.Obj? && AgreeMembers(a, b) && WellKindedMembers(a) && WellKindedMembers(b)
    ensures Merged(a, b).Obj? && WellKindedMembers(Merged(a, b))
    decreases b
  {
    var m := Merged(a, b);
    forall k | k in m.fields ensures WellKinded(k, m.fields[k]) {
      if k in a.fields && k in b.fields {
        assert Agree(k, a.fields[k], b.fields[k]) && WellKinded(k, a.fields[k]) && WellKinded(k, b.fields[k]);
        if a.fields[k].Obj? {
          MergedWellKinded(a.fields[k], b.fields[k]);
          var member :| member in b.fields[k].fields;
          assert member in Merged(a.fields[k], b.fields[k]).fields;
        }
      }
    }
  }

  lemma {:induction false} MergedAgrees(a: Value, b: Value, c: Value)
    requires a.Obj? && b.Obj? && c.Obj?
    requires AgreeMembers(a, b) && AgreeMembers(a, c) && AgreeMembers(b, c)
    ensures AgreeMembers(Merged(a, b), c)
    decreases b
  {
    var m := Merged(a, b);
    forall k | k in m.fields && k in c.fields ensures Agree(k, m.fields[k], c.fields[k]) {
      if k in a.fields && k in b.fields {
        var x, y, z := a.fields[k], b.fields[k], c.fields[k];
        assert Agree(k, x, y) && Agree(k, x, z) && Agree(k, y, z);
        if k in APPEND_KEYS {
          assert m.fields[k] == Appended(x, y);
        } else {
          assert m.fields[k] == Merged(x, y);
          if x.Obj? {
            MergedAgrees(x, y, z);
          }
        }
      } else if k in a.fields {
        assert Agree(k, a.fields[k], c.fields[k]);
      } else {
        assert Agree(k, b.fields[k], c.fields[k]);
      }
    }
  }

  /** On agreeing documents the leaves add up, and the overlay wins exactly its own. */
  lemma {:induction false} LeavesAddUp(a: Value, b: Value, p: Path)
    requires p != [] && a.Obj? && b.Obj? && AgreeMembers(a, b) && WellKindedMembers(a) && WellKindedMembers(b)
    ensures IsLeaf(Merged(a, b), p) <==> IsLeaf(a, p) || IsLeaf(b, p)
    ensures Wins(a, b, p) <==> IsLeaf(b, p)
    decreases p
  {
    var k := p[0];
    if k in a.fields && k in b.fields {
      assert Agree(k, a.fields[k], b.fields[k]) && WellKinded(k, a.fields[k]) && WellKinded(k, b.fields[k]);
      if a.fields[k].Obj? && p[1..] != [] {
        LeavesAddUp(a.fields[k], b.fields[k], p[1..]);
      }
    }
  }

  /** An additive array collects the entries of both; the overlay contributes to it when it is the
      first to supply it or brings an entry the base lacks. */
  lemma {:induction false} ItemsAddUp(a: Value, b: Value, p: Path)
    requires p != [] && a.Obj? && b.Obj? && AgreeMembers(a, b) && WellKindedMembers(a) && WellKindedMembers(b)
    ensures IsAppendLeaf(Merged(a, b), "", p) <==> IsAppendLeaf(a, "", p) || IsAppendLeaf(b, "", p)
    ensures IsAppendLeaf(Merged(a, b), "", p) ==>
              forall x :: x in Items(Merged(a, b), p) <==>
                          (IsAppendLeaf(a, "", p) && x in Items(a, p)) || (IsAppendLeaf(b, "", p) && x in Items(b, p))
    ensures Adds(a, b, p) <==>
            IsAppendLeaf(b, "", p) &&
            (IsAppendLeaf(a, "", p) ==> exists x :: x in Items(b, p) && x !in Items(a, p))
    decreases p
  {
    var k, q := p[0], p[1..];
    if k in a.fields && k in b.fields {
      var x, y := a.fields[k], b.fields[k];
      assert Agree(k, x, y) && WellKinded(k, x) && WellKinded(k, y);
      if k in APPEND_KEYS {
        AppendItemsMembers(x.items, y.items);
        assert Merged(a, b).fields[k] == Appended(x, y);
        if q == [] {
          assert At(x, q) == Some(x) && At(y, q) == Some(y) && At(Appended(x, y), q) == Some(Appended(x, y));
          assert Items(a, p) == x.items && Items(b, p) == y.items &&
                 Items(Merged(a, b), p) == AppendItems(x.items, y.items);
        }
      } else if x.Obj? && q != [] {
        ItemsAddUp(x, y, q);
        assert Merged(a, b).fields[k] == Merged(x, y);
        assert Items(a, p) == Items(x, q) && Items(b, p) == Items(y, q) &&
               Items(Merged(a, b), p) == Items(Merged(x, y), q);
      }
    }
  }

  /** What a merged document holds at a leaf: the overlay's value where it has one, except that an additive
      array grows, and otherwise the base's. */
  lemma {:induction false} ValueMerged(a: Value, b: Value, p: Path)
    requires p != [] && a.Obj? && b.Obj? && AgreeMembers(a, b) && WellKindedMembers(a) && WellKindedMembers(b)
    ensures IsLeaf(b, p) && !IsAppendLeaf(b, "", p) ==> At(Merged(a, b), p) == At(b, p)
    ensures IsLeaf(a, p) && !IsLeaf(b, p) ==> At(Merged(a, b), p) == At(a, p)
    decreases p
  {
    var k, q := p[0], p[1..];
    if k in a.fields && k in b.fields {
      var x, y := a.fields[k], b.fields[k];
      assert Agree(k, x, y) && WellKinded(k, x) && WellKinded(k, y);
      assert IsLeaf(a, p) == IsLeaf(x, q) && IsLeaf(b, p) == IsLeaf(y, q) &&
             IsAppendLeaf(b, "", p) == IsAppendLeaf(y, k, q);
      if k !in APPEND_KEYS {
        assert Merged(a, b).fields[k] == Merged(x, y);
        if q == [] {
          assert At(y, q) == Some(y) && At(Merged(x, y), q) == Some(Merged(x, y));
        } else if x.Obj? {
          ValueMerged(x, y, q);
          assert IsAppendLeaf(y, k, q) == IsAppendLeaf(y, "", q);
        }
      }
    }
  }

  // -------- any stack of agreeing layers

  ghost predicate AllAgree(layers: seq<Layer>, c: Value) {
    c.Obj? && forall i :: 0 <= i < |layers| ==> layers[i].doc.Obj? && AgreeMembers(layers[i].doc, c)
  }

  lemma PrefixAgrees(layers: seq<Layer>, c: Value)
    requires layers != [] && AllAgree(layers, c)
    ensures AllAgree(layers[..|layers| - 1], c) && AgreeMembers(layers[|layers| - 1].doc, c)
  {
  }

  lemma PrefixKindAgreeing(layers: seq<Layer>)
    requires layers != [] && KindAgreeing(layers)
    ensures var n := |layers| - 1;
            KindAgreeing(layers[..n]) && AllAgree(layers[..n], layers[n].doc) && WellKindedMembers(layers[n].doc)
  {
  }

  lemma {:induction false} FoldAgrees(layers: seq<Layer>)
    requires KindAgreeing(layers)
    ensures Folded(layers).Obj? && WellKindedMembers(Folded(layers))
    ensures forall c: Value :: AllAgree(layers, c) ==> AgreeMembers(Folded(layers), c)
  {
    if layers != [] {
      var n := |layers| - 1;
      var init, b := layers[..n], layers[n].doc;
      PrefixKindAgreeing(layers);
      FoldAgrees(init);
      MergedWellKinded(Folded(init), b);
      forall c: Value | AllAgree(layers, c) ensures AgreeMembers(Folded(layers), c) {
        PrefixAgrees(layers, c);
        MergedAgrees(Folded(init), b, c);
      }
    }
  }

  /** The last layer meets a document it agrees with. */
  lemma LastAgrees(layers: seq<Layer>)
    requires KindAgreeing(layers) && layers != []
    ensures var n := |layers| - 1;
            var doc := Folded(layers[..n]);
            KindAgreeing(layers[..n]) && doc.Obj? && WellKindedMembers(doc) && AgreeMembers(doc, layers[n].doc)
    ensures forall i :: 0 <= i < |layers| - 1 ==> layers[..|layers| - 1][i] == layers[i]
  {
    PrefixKindAgreeing(layers);
    FoldAgrees(layers[..|layers| - 1]);
  }

  /** `i` is the last layer that holds a leaf at `p`. */
  ghost predicate LastHolder(layers: seq<Layer>, p: Path, i: int) {
    0 <= i < |layers| && IsLeaf(layers[i].doc, p) && forall j :: i < j < |layers| ==> !IsLeaf(layers[j].doc, p)
  }

  /** Layer `i` is the first to supply the additive array at `p`, or adds an entry to it that no
      earlier layer had. */
  ghost predicate Supplies(layers: seq<Layer>, i: int, p: Path)
    requires 0 <= i < |layers|
  {
    IsAppendLeaf(layers[i].doc, "", p) &&
    ((forall j :: 0 <= j < i ==> !IsAppendLeaf(layers[j].doc, "", p)) ||
     exists x :: x in Items(layers[i].doc, p) &&
       forall j :: 0 <= j < i && IsAppendLeaf(layers[j].doc, "", p) ==> x !in Items(layers[j].doc, p))
  }

  /** The origins of the supplying layers, in layer order. */
  ghost function Suppliers(layers: seq<Layer>, p: Path): seq<Origin> {
    if layers == [] then []
    else
      var n := |layers| - 1;
      var earlier := Suppliers(layers[..n], p);
      if Supplies(layers, n, p) then PushOrigin(earlier, layers[n].origin) else earlier
  }

  ghost predicate Held(layers: seq<Layer>, p: Path) {
    exists i :: 0 <= i < |layers| && IsLeaf(layers[i].doc, p)
  }

  ghost predicate HeldAsArray(layers: seq<Layer>, p: Path) {
    exists i :: 0 <= i < |layers| && IsAppendLeaf(layers[i].doc, "", p)
  }

  ghost predicate HeldItem(layers: seq<Layer>, p: Path, x: Value) {
    exists i :: 0 <= i < |layers| && IsAppendLeaf(layers[i].doc, "", p) && x in Items(layers[i].doc, p)
  }

  lemma HeldLast(layers: seq<Layer>, p: Path, x: Value)
    requires layers != []
    ensures var n := |layers| - 1;
            var init, doc := layers[..n], layers[n].doc;
            (Held(layers, p) <==> Held(init, p) || IsLeaf(doc, p)) &&
            (HeldAsArray(layers, p) <==> HeldAsArray(init, p) || IsAppendLeaf(doc, "", p)) &&
            (HeldItem(layers, p, x) <==> HeldItem(init, p, x) || (IsAppendLeaf(doc, "", p) && x in Items(doc, p)))
  {
    var n := |layers| - 1;
    assert forall i :: 0 <= i < n ==> layers[..n][i] == layers[i];
  }

  /** What the folded document holds at `p` is what the layers hold there. */
  lemma {:induction false} FoldedAt(layers: seq<Layer>, p: Path)
    requires KindAgreeing(layers) && p != []
    ensures IsLeaf(Folded(layers), p) <==> Held(layers, p)
    ensures IsAppendLeaf(Folded(layers), "", p) <==> HeldAsArray(layers, p)
    ensures HeldAsArray(layers, p) ==> forall x :: x in Items(Folded(layers), p) <==> HeldItem(layers, p, x)
  {
    if layers != [] {
      var n := |layers| - 1;
      LastAgrees(layers);
      FoldedAt(layers[..n], p);
      LeavesAddUp(Folded(layers[..n]), layers[n].doc, p);
      ItemsAddUp(Folded(layers[..n]), layers[n].doc, p);
      HeldLast(layers, p, Null);
      if HeldAsArray(layers, p) {
        forall x ensures x in Items(Folded(layers), p) <==> HeldItem(layers, p, x) {
          HeldLast(layers, p, x);
          if !HeldAsArray(layers[..n], p) {
            assert !HeldItem(layers[..n], p, x);
          }
        }
      }
    }
  }

  /** The last layer holding a leaf decides its value, unless it is an additive array. */
  lemma {:induction false} LastHolderDecides(layers: seq<Layer>, p: Path, i: int)
    requires KindAgreeing(layers) && p != [] && LastHolder(layers, p, i) && !IsAppendLeaf(layers[i].doc, "", p)
    ensures At(Folded(layers), p) == At(layers[i].doc, p)
  {
    var n := |layers| - 1;
    LastAgrees(layers);
    LastHolderLast(layers, p, i);
    ValueMerged(Folded(layers[..n]), layers[n].doc, p);
    if i < n {
      LastHolderDecides(layers[..n], p, i);
      FoldedAt(layers[..n], p);
      assert Held(layers[..n], p);
    }
  }

  /** `p` has a winner exactly when it is a leaf of the document, and the winner is the last layer
      holding it. */
  ghost predicate NamesLastHolder(layers: seq<Layer>, l: Ledger, p: Path) {
    (p in l.winners <==> p != [] && IsLeaf(Folded(layers), p)) &&
    (p in l.winners ==> exists i :: LastHolder(layers, p, i) && l.winners[p] == layers[i].origin)
  }

  /** `p` has contributors exactly when it is an additive array of the document, and they are the
      layers that supplied it. */
  ghost predicate ListsSuppliers(layers: seq<Layer>, l: Ledger, p: Path) {
    (p in l.contributors <==> p != [] && IsAppendLeaf(Folded(layers), "", p)) &&
    (p in l.contributors ==> l.contributors[p] == Suppliers(layers, p))
  }

  lemma RecordedAtRoot(w0: map<Path, Origin>, w1: map<Path, Origin>, origin: Origin, hits: iset<Path>, p: Path)
    requires Recorded(w0, w1, [], origin, hits)
    ensures p in w1 <==> p in w0 || p in hits
    ensures p in w1 ==> w1[p] == if p in hits then origin else w0[p]
  {
    assert p[0..] == p;
    assert Below([], p, hits) <==> p in hits;
  }

  lemma LastHolderLast(layers: seq<Layer>, p: Path, i: int)
    requires layers != []
    ensures var n := |layers| - 1;
            LastHolder(layers, p, i) <==>
            if IsLeaf(layers[n].doc, p) then i == n else LastHolder(layers[..n], p, i)
  {
    var n := |layers| - 1;
    assert forall i :: 0 <= i < n ==> layers[..n][i] == layers[i];
  }

  lemma WinnerStep(layers: seq<Layer>, l0: Ledger, l: Ledger, p: Path)
    requires KindAgreeing(layers) && layers != []
    requires var n := |layers| - 1;
             NamesLastHolder(layers[..n], l0, p) && LedgerStep(Folded(layers[..n]), l0, layers[n], l)
    ensures NamesLastHolder(layers, l, p)
  {
    var n := |layers| - 1;
    var init, layer := layers[..n], layers[n];
    LastAgrees(layers);
    var doc := Folded(init);
    RecordedAtRoot(l0.winners, l.winners, layer.origin, WinPaths(doc, layer.doc), p);
    if p != [] {
      LeavesAddUp(doc, layer.doc, p);
      if p in l.winners {
        if IsLeaf(layer.doc, p) {
          LastHolderLast(layers, p, n);
        } else {
          var i :| LastHolder(init, p, i) && l0.winners[p] == init[i].origin;
          LastHolderLast(layers, p, i);
        }
      }
    }
  }

  lemma ContributorStep(layers: seq<Layer>, l0: Ledger, l: Ledger, p: Path)
    requires KindAgreeing(layers) && layers != []
    requires var n := |layers| - 1;
             ListsSuppliers(layers[..n], l0, p) && LedgerStep(Folded(layers[..n]), l0, layers[n], l)
    ensures ListsSuppliers(layers, l, p)
  {
    var n := |layers| - 1;
    var init, layer := layers[..n], layers[n];
    LastAgrees(layers);
    var doc := Folded(init);
    assert p[0..] == p;
    assert Below([], p, AddPaths(doc, layer.doc)) <==> Adds(doc, layer.doc, p);
    if p != [] {
      ItemsAddUp(doc, layer.doc, p);
      FoldedAt(init, p);
      SuppliesLast(layers, p);
      assert Adds(doc, layer.doc, p) <==> Supplies(layers, n, p);
      if !HeldAsArray(init, p) {
        NoSuppliers(init, p);
      }
    }
  }

  lemma SuppliesLast(layers: seq<Layer>, p: Path)
    requires layers != []
    ensures var n := |layers| - 1;
            Supplies(layers, n, p) <==>
            IsAppendLeaf(layers[n].doc, "", p) &&
            (HeldAsArray(layers[..n], p) ==> exists x :: x in Items(layers[n].doc, p) && !HeldItem(layers[..n], p, x))
  {
    var n := |layers| - 1;
    assert forall i :: 0 <= i < n ==> layers[..n][i] == layers[i];
    if HeldAsArray(layers[..n], p) && Supplies(layers, n, p) {
      var x :| x in Items(layers[n].doc, p) &&
               forall j :: 0 <= j < n && IsAppendLeaf(layers[j].doc, "", p) ==> x !in Items(layers[j].doc, p);
      assert !HeldItem(layers[..n], p, x);
    }
    if x :| x in Items(layers[n].doc, p) && !HeldItem(layers[..n], p, x) {
      forall j | 0 <= j < n && IsAppendLeaf(layers[j].doc, "", p) ensures x !in Items(layers[j].doc, p) {
        assert IsAppendLeaf(layers[..n][j].doc, "", p);
      }
    }
  }

  lemma {:induction false} NoSuppliers(layers: seq<Layer>, p: Path)
    requires !HeldAsArray(layers, p)
    ensures Suppliers(layers, p) == []
  {
    if layers != [] {
      HeldLast(layers, p, Null);
      NoSuppliers(layers[..|layers| - 1], p);
    }
  }

  /** After any stack of kind-agreeing layers the ledger is exact. */
  lemma {:induction false} LedgerIsExact(layers: seq<Layer>, l: Ledger)
    requires KindAgreeing(layers) && Logged(layers, l)
    ensures forall p :: NamesLastHolder(layers, l, p)
    ensures forall p :: ListsSuppliers(layers, l, p)
  {
    if layers != [] {
      var n := |layers| - 1;
      var l0 :| Logged(layers[..n], l0) && LedgerStep(Folded(layers[..n]), l0, layers[n], l);
      LedgerIsExact(layers[..n], l0);
      forall p ensures NamesLastHolder(layers, l, p) && ListsSuppliers(layers, l, p) {
        WinnerStep(layers, l0, l, p);
        ContributorStep(layers, l0, l, p);
      }
    } else {
      assert forall p: Path :: p != [] ==> !IsLeaf(Folded(layers), p) && !IsAppendLeaf(Folded(layers), "", p);
    }
  }

  /** The winner of a path is the layer whose value the document holds there. */
  lemma WinnerHoldsTheValue(layers: seq<Layer>, l: Ledger, p: Path) returns (i: int)
    requires KindAgreeing(layers) && Logged(layers, l) && p in l.winners && !IsAppendLeaf(Folded(layers), "", p)
    ensures 0 <= i < |layers| && l.winners[p] == layers[i].origin
    ensures At(Folded(layers), p) == At(layers[i].doc, p) && At(Folded(layers), p).Some?
  {
    LedgerIsExact(layers, l);
    assert NamesLastHolder(layers, l, p);
    i :| LastHolder(layers, p, i) && l.winners[p] == layers[i].origin;
    FoldedAt(layers, p);
    assert IsAppendLeaf(layers[i].doc, "", p) ==> HeldAsArray(layers, p);
    LastHolderDecides(layers, p, i);
    LeafIsThere(layers[i].doc, p);
  }

  lemma {:induction false} LeafIsThere(v: Value, p: Path)
    requires IsLeaf(v, p)
    ensures At(v, p).Some?
    decreases p
  {
    if p != [] {
      LeafIsThere(v.fields[p[0]], p[1..]);
    }
  }

  /** The layers that supplied the array at `p`, in order. */
  ghost function SupplierIndices(layers: seq<Layer>, p: Path): seq<nat> {
    if layers == [] then []
    else
      var n := |layers| - 1;
      SupplierIndices(layers[..n], p) + if Supplies(layers, n, p) then [n] else []
  }

  lemma SuppliesPrefix(layers: seq<Layer>, p: Path, i: int)
    requires 0 <= i < |layers| - 1
    ensures Supplies(layers, i, p) <==> Supplies(layers[..|layers| - 1], i, p)
  {
    var init := layers[..|layers| - 1];
    assert forall j :: 0 <= j <= i ==> init[j] == layers[j];
  }

  /** The indices are those of the supplying layers, each once, in order. */
  lemma {:induction false} IndicesOfSuppliers(layers: seq<Layer>, p: Path)
    ensures var at := SupplierIndices(layers, p);
            (forall m :: 0 <= m < |at| ==> at[m] < |layers|) &&
            (forall m, n :: 0 <= m < n < |at| ==> at[m] < at[n]) &&
            forall i :: 0 <= i < |layers| ==> (Supplies(layers, i, p) <==> i in at)
  {
    if layers != [] {
      var n := |layers| - 1;
      var init := layers[..n];
      IndicesOfSuppliers(init, p);
      forall i | 0 <= i < n ensures Supplies(layers, i, p) <==> Supplies(init, i, p) {
        SuppliesPrefix(layers, p, i);
      }
    }
  }

  /** When no two layers share an origin, the contributors are the origins of the supplying layers one by one. */
  lemma {:induction false} SuppliersOfDistinctLayers(layers: seq<Layer>, p: Path)
    requires forall i, j :: 0 <= i < j < |layers| ==> layers[i].origin != layers[j].origin
    ensures var at := SupplierIndices(layers, p);
            |Suppliers(layers, p)| == |at| &&
            forall m :: 0 <= m < |at| ==> at[m] < |layers| && Suppliers(layers, p)[m] == layers[at[m]].origin
  {
    if layers != [] {
      var n := |layers| - 1;
      var init := layers[..n];
      SuppliersOfDistinctLayers(init, p);
      var at, listed := SupplierIndices(init, p), Suppliers(init, p);
      forall m | 0 <= m < |at| ensures listed[m] == layers[at[m]].origin && at[m] < n {
        assert listed[m] == init[at[m]].origin;
      }
      if at != [] {
        assert listed[|listed| - 1] == layers[at[|at| - 1]].origin != layers[n].origin;
      }
    }
  }

  /** `listed` is `given` with every run of equal neighbours written once; `to` says where each entry went. */
  predicate Collapses(given: seq<Origin>, listed: seq<Origin>, to: seq<nat>) {
    |to| == |given| && (given == [] <==> listed == []) &&
    (forall m :: 0 <= m < |to| ==> to[m] < |listed| && listed[to[m]] == given[m]) &&
    (forall m :: 0 < m < |to| ==> to[m] == if given[m] == given[m - 1] then to[m - 1] else to[m - 1] + 1) &&
    (to != [] ==> to[0] == 0 && to[|to| - 1] == |listed| - 1)
  }

  ghost function SupplierOrigins(layers: seq<Layer>, p: Path): seq<Origin> {
    if layers == [] then []
    else
      var n := |layers| - 1;
      SupplierOrigins(layers[..n], p) + if Supplies(layers, n, p) then [layers[n].origin] else []
  }

  lemma CollapsesNext(given: seq<Origin>, listed: seq<Origin>, to: seq<nat>, origin: Origin) returns (more: seq<nat>)
    requires Collapses(given, listed, to)
    ensures Collapses(given + [origin], PushOrigin(listed, origin), more)
  {
    more := to + [|PushOrigin(listed, origin)| - 1];
  }

  /** Whatever the origins, the contributors are those of the supplying layers in order, equal neighbours once. */
  lemma {:induction false} SuppliersCollapse(layers: seq<Layer>, p: Path) returns (to: seq<nat>)
    ensures Collapses(SupplierOrigins(layers, p), Suppliers(layers, p), to)
  {
    to := [];
    if layers != [] {
      var n := |layers| - 1;
      to := SuppliersCollapse(layers[..n], p);
      if Supplies(layers, n, p) {
        to := CollapsesNext(SupplierOrigins(layers[..n], p), Suppliers(layers[..n], p), to, layers[n].origin);
      }
    }
  }
}
