/** Algebra of the document merge (crates/ferridriver-config/src/layer.rs:1235-1290). */
module MergeLaws {
  import opened Json
  import opened LayerMerge

  // ---------------------------------------------------------------- additive arrays

  lemma {:induction false} AppendItemsMembers(target: seq<Value>, items: seq<Value>)
    ensures forall x :: x in AppendItems(target, items) <==> x in target || x in items
  {
    if items != [] {
      var n := |items| - 1;
      AppendItemsMembers(target, items[..n]);
      assert items == items[..n] + [items[n]];
    }
  }

  /** Earlier entries keep their place, and nothing is ever listed twice unless an earlier layer did. */
  lemma {:induction false} AppendItemsKeepsOrder(target: seq<Value>, items: seq<Value>)
    ensures target <= AppendItems(target, items)
    ensures var r := AppendItems(target, items);
            forall i, j :: 0 <= i < j < |r| && r[i] == r[j] ==> j < |target|
  {
    if items != [] {
      AppendItemsKeepsOrder(target, items[..|items| - 1]);
    }
  }

  lemma {:induction false} AppendItemsAbsorbs(target: seq<Value>, items: seq<Value>)
    requires forall x :: x in items ==> x in target
    ensures AppendItems(target, items) == target
  {
    if items != [] {
      AppendItemsAbsorbs(target, items[..|items| - 1]);
    }
  }

  lemma {:induction false} AppendItemsAssociative(a: seq<Value>, b: seq<Value>, c: seq<Value>)
    ensures AppendItems(AppendItems(a, b), c) == AppendItems(a, AppendItems(b, c))
  {
    if c != [] {
      var init, x := c[..|c| - 1], c[|c| - 1];
      AppendItemsAssociative(a, b, init);
      AppendItemsMembers(a, AppendItems(b, init));
      var bc := AppendItems(b, init);
      if x !in bc {
        assert (bc + [x])[..|bc|] == bc;
      }
    }
  }

  // ---------------------------------------------------------------- documents

  lemma {:induction false} MergeSelf(d: Value)
    ensures Merged(d, d) == d
  {
    if d.Obj? {
      forall k | k in d.fields ensures Merged(d, d).fields[k] == d.fields[k] {
        if Appends(k, d.fields[k]) {
          AppendItemsAbsorbs(d.fields[k].items, d.fields[k].items);
        }
        MergeSelf(d.fields[k]);
      }
    }
  }

  /** Applying a layer twice is applying it once: a diamond of `extends` cannot duplicate a flag. */
  lemma {:induction false} MergeAbsorbs(b: Value, o: Value)
    ensures Merged(Merged(b, o), o) == Merged(b, o)
    decreases o
  {
    if b.Obj? && o.Obj? {
      var m := Merged(b, o);
      forall k | k in m.fields ensures Merged(m, o).fields[k] == m.fields[k] {
        if k in o.fields {
          if k !in b.fields || !b.fields[k].Arr? {
            AbsorbSelf(k, o.fields[k]);
          } else if Appends(k, o.fields[k]) {
            AppendItemsMembers(b.fields[k].items, o.fields[k].items);
            AppendItemsAbsorbs(AppendItems(b.fields[k].items, o.fields[k].items), o.fields[k].items);
          }
          if k in b.fields {
            MergeAbsorbs(b.fields[k], o.fields[k]);
          }
        }
      }
    } else {
      MergeSelf(o);
    }
  }

  lemma AbsorbSelf(k: string, v: Value)
    ensures Appended(v, v) == v && Merged(v, v) == v
  {
    if v.Arr? {
      AppendItemsAbsorbs(v.items, v.items);
    }
    MergeSelf(v);
  }

  /** No path at which one document holds an object and the other does not; additive keys hold
      arrays on both sides. `key` is the key both values sit under. */
  predicate Agree(key: string, a: Value, b: Value)
    decreases a, 1
  {
    if key in APPEND_KEYS then a.Arr? && b.Arr?
    else a.Obj? == b.Obj? && (a.Obj? ==> AgreeMembers(a, b))
  }

  predicate AgreeMembers(a: Value, b: Value)
    requires a.Obj? && b.Obj?
    decreases a, 0
  {
    forall k :: k in a.fields && k in b.fields ==> Agree(k, a.fields[k], b.fields[k])
  }

  lemma {:induction false} MergeAssociative(a: Value, b: Value, c: Value)
    requires a.Obj? && b.Obj? && c.Obj?
    requires AgreeMembers(a, b) && AgreeMembers(a, c) && AgreeMembers(b, c)
    ensures Merged(Merged(a, b), c) == Merged(a, Merged(b, c))
    decreases c
  {
    var left, right := Merged(Merged(a, b), c), Merged(a, Merged(b, c));
    assert left.fields.Keys == right.fields.Keys;
    forall k | k in left.fields ensures left.fields[k] == right.fields[k] {
      if k in a.fields && k in b.fields && k in c.fields {
        var x, y, z := a.fields[k], b.fields[k], c.fields[k];
        assert Agree(k, x, y) && Agree(k, x, z) && Agree(k, y, z);
        if k in APPEND_KEYS {
          AppendItemsAssociative(x.items, y.items, z.items);
          assert left.fields[k] == Appended(Appended(x, y), z);
          assert right.fields[k] == Appended(x, Appended(y, z));
        } else {
          if x.Obj? {
            MergeAssociative(x, y, z);
          }
          assert left.fields[k] == Merged(Merged(x, y), z);
          assert right.fields[k] == Merged(x, Merged(y, z));
        }
      }
    }
    assert left.fields == right.fields;
  }

  /** Without agreement the grouping matters: a scalar in the middle wipes the object beneath it
      only when it is applied first. */
  lemma MergeNotAssociativeAcrossKinds()
    ensures var a := Obj(map["k" := Obj(map["p" := Null])]);
            var b := Obj(map["k" := Null]);
            var c := Obj(map["k" := Obj(map["q" := Null])]);
            Merged(Merged(a, b), c) != Merged(a, Merged(b, c))
  {
    var a := Obj(map["k" := Obj(map["p" := Null])]);
    var b := Obj(map["k" := Null]);
    var c := Obj(map["k" := Obj(map["q" := Null])]);
    assert Merged(a, b).fields["k"] == Null;
    assert Merged(Merged(a, b), c).fields["k"] == c.fields["k"];
    assert "p" !in Merged(Merged(a, b), c).fields["k"].fields;
    assert Merged(b, c).fields["k"] == c.fields["k"];
    assert Merged(a, Merged(b, c)).fields["k"] == Merged(a.fields["k"], c.fields["k"]);
    assert "p" in Merged(a, Merged(b, c)).fields["k"].fields;
  }
}
