/** Deep merge of configuration documents with its provenance ledger
    (crates/ferridriver-config/src/layer.rs). */
module LayerMerge {
  import opened Json

  const APPEND_KEYS: set<string> := {"paths", "sidecars", "chromeArgs", "args", "allowEnv"}

  // ---------------------------------------------------------------- merged value

  /** `append_unique` on two arrays: each item is pushed unless already present. */
  function AppendItems(target: seq<Value>, items: seq<Value>): seq<Value> {
    if items == [] then target
    else
      var done := AppendItems(target, items[..|items| - 1]);
      var item := items[|items| - 1];
      if item in done then done else done + [item]
  }

  function Appended(existing: Value, overlay: Value): Value {
    if existing.Arr? && overlay.Arr? then Arr(AppendItems(existing.items, overlay.items)) else overlay
  }

  predicate Appends(key: string, value: Value) {
    value.Arr? && key in APPEND_KEYS
  }

  /** The document `merge` leaves behind. */
  function Merged(base: Value, overlay: Value): Value
    decreases overlay
  {
    if base.Obj? && overlay.Obj? then
      Obj(map k | k in base.fields.Keys + overlay.fields.Keys ::
        if k !in overlay.fields then base.fields[k]
        else if k !in base.fields then overlay.fields[k]
        else if Appends(k, overlay.fields[k]) then Appended(base.fields[k], overlay.fields[k])
        else Merged(base.fields[k], overlay.fields[k]))
    else overlay
  }

  // ---------------------------------------------------------------- ledger

  datatype Origin = File(path: string) | Env(name: string) | Extension(package: string)

  datatype Ledger = Ledger(winners: map<Path, Origin>, contributors: map<Path, seq<Origin>>)

  /** `path` ends at something `record_leaves` does not descend into. */
  predicate IsLeaf(v: Value, path: Path) {
    if path == [] then !(v.Obj? && v.fields != map[])
    else v.Obj? && path[0] in v.fields && IsLeaf(v.fields[path[0]], path[1..])
  }

  /** A leaf array under an additive key. `key` is the key `v` itself sits under. */
  predicate IsAppendLeaf(v: Value, key: string, path: Path) {
    if path == [] then Appends(key, v)
    else v.Obj? && path[0] in v.fields && IsAppendLeaf(v.fields[path[0]], path[0], path[1..])
  }

  ghost function Leaves(v: Value): iset<Path> {
    iset q | IsLeaf(v, q)
  }

  ghost function AppendLeaves(v: Value, key: string): iset<Path> {
    iset q | IsAppendLeaf(v, key, q)
  }

  /** The members of `paths` that start with one of `keys`. */
  ghost function Under(paths: iset<Path>, keys: set<string>): iset<Path> {
    iset q | q in paths && q != [] && q[0] in keys
  }

  /** What follows `key` in the members of `paths` that start with it. */
  ghost function Shift(paths: iset<Path>, key: string): iset<Path> {
    iset q | [key] + q in paths
  }

  function LastKey(path: Path): string {
    if path == [] then "" else path[|path| - 1]
  }

  /** The paths below the merged node at which merging `overlay` calls `win`. */
  predicate Wins(base: Value, overlay: Value, path: Path)
    decreases path
  {
    if base.Obj? && overlay.Obj? then
      path != [] && path[0] in overlay.fields &&
      var k, value := path[0], overlay.fields[path[0]];
      if k !in base.fields then IsLeaf(value, path[1..])
      else if Appends(k, value) then path[1..] == []
      else Wins(base.fields[k], value, path[1..])
    else path == []
  }

  /** The paths below the merged node at which merging `overlay` calls `contributed`. */
  predicate Adds(base: Value, overlay: Value, path: Path)
    decreases path
  {
    base.Obj? && overlay.Obj? && path != [] && path[0] in overlay.fields &&
    var k, value := path[0], overlay.fields[path[0]];
    if k !in base.fields then IsAppendLeaf(value, k, path[1..])
    else if Appends(k, value) then path[1..] == [] && AddsItem(base.fields[k], value)
    else Adds(base.fields[k], value, path[1..])
  }

  ghost function WinPaths(base: Value, overlay: Value): iset<Path> {
    iset q | Wins(base, overlay, q)
  }

  ghost function AddPaths(base: Value, overlay: Value): iset<Path> {
    iset q | Adds(base, overlay, q)
  }

  predicate AddsItem(existing: Value, overlay: Value) {
    if existing.Arr? && overlay.Arr? then exists x :: x in overlay.items && x !in existing.items else true
  }

  function PushOrigin(entries: seq<Origin>, origin: Origin): seq<Origin> {
    if entries != [] && entries[|entries| - 1] == origin then entries else entries + [origin]
  }

  ghost predicate Below(prefix: Path, path: Path, hits: iset<Path>) {
    prefix <= path && path[|prefix|..] in hits
  }

  /** `w1` is `w0` with `origin` recorded at every hit below `prefix`. */
  ghost predicate Recorded(w0: map<Path, Origin>, w1: map<Path, Origin>, prefix: Path, origin: Origin,
                           hits: iset<Path>)
  {
    forall p :: (p in w1 <==> p in w0 || Below(prefix, p, hits)) &&
                (p in w1 ==> w1[p] == if Below(prefix, p, hits) then origin else w0[p])
  }

  ghost predicate Credited(
    c0: map<Path, seq<Origin>>, c1: map<Path, seq<Origin>>, prefix: Path, origin: Origin, hits: iset<Path>)
  {
    forall p :: (p in c1 <==> p in c0 || Below(prefix, p, hits)) &&
                (p in c1 ==> c1[p] == if !Below(prefix, p, hits) then c0[p]
                                      else PushOrigin(if p in c0 then c0[p] else [], origin))
  }

  lemma OnlyItself(prefix: Path, hits: iset<Path>)
    requires hits == iset{[]}
    ensures forall p :: Below(prefix, p, hits) <==> p == prefix
  {
    assert prefix[|prefix|..] == [];
    forall p ensures Below(prefix, p, hits) <==> p == prefix {
      if Below(prefix, p, hits) {
        assert p == prefix + p[|prefix|..];
      }
    }
  }

  lemma BelowMember(prefix: Path, key: string, hits: iset<Path>, done: set<string>, p: Path)
    requires key !in done
    ensures Below(prefix, p, Under(hits, done + {key})) <==>
            Below(prefix, p, Under(hits, done)) || Below(prefix + [key], p, Shift(hits, key))
    ensures !(Below(prefix, p, Under(hits, done)) && Below(prefix + [key], p, Shift(hits, key)))
  {
    if prefix <= p && p != prefix {
      var q := p[|prefix|..];
      assert q == [q[0]] + q[1..];
      assert prefix + [q[0]] <= p && p[|prefix| + 1..] == q[1..];
      assert prefix + [key] <= p <==> q[0] == key;
    }
  }

  /** One member of an object done on top of the members `done`. */
  lemma RecordedMember(w0: map<Path, Origin>, w1: map<Path, Origin>, w2: map<Path, Origin>, prefix: Path, key: string,
                       origin: Origin, hits: iset<Path>, done: set<string>)
    requires key !in done
    requires Recorded(w0, w1, prefix, origin, Under(hits, done))
    requires Recorded(w1, w2, prefix + [key], origin, Shift(hits, key))
    ensures Recorded(w0, w2, prefix, origin, Under(hits, done + {key}))
  {
    forall p { BelowMember(prefix, key, hits, done, p); }
  }

  lemma CreditedMember(
    c0: map<Path, seq<Origin>>, c1: map<Path, seq<Origin>>, c2: map<Path, seq<Origin>>, prefix: Path, key: string,
    origin: Origin, hits: iset<Path>, done: set<string>)
    requires key !in done
    requires Credited(c0, c1, prefix, origin, Under(hits, done))
    requires Credited(c1, c2, prefix + [key], origin, Shift(hits, key))
    ensures Credited(c0, c2, prefix, origin, Under(hits, done + {key}))
  {
    forall p { BelowMember(prefix, key, hits, done, p); }
  }

  // ---------------------------------------------------------------- the code that updates in place

  class Provenance {
    var winners: map<Path, Origin>
    var contributors: map<Path, seq<Origin>>

    constructor ()
      ensures winners == map[] && contributors == map[]
    {
      winners, contributors := map[], map[];
    }

    method Win(path: Path, origin: Origin)
      modifies this`winners
      ensures winners == old(winners)[path := origin]
    {
      winners := winners[path := origin];
    }

    method Contributed(path: Path, origin: Origin)
      modifies this`contributors
      ensures contributors ==
              old(contributors)[
                path := PushOrigin(if path in old(contributors) then old(contributors)[path] else [], origin)]
    {
      var entries := if path in contributors then contributors[path] else [];
      if entries == [] || entries[|entries| - 1] != origin {
        entries := entries + [origin];
      }
      contributors := contributors[path := entries];
    }
  }

  method AppendUnique(existing: Value, overlay: Value) returns (result: Value, added: bool)
    ensures result == Appended(existing, overlay)
    ensures added == AddsItem(existing, overlay)
  {
    if !existing.Arr? || !overlay.Arr? {
      return overlay, true;
    }
    var target, items := existing.items, overlay.items;
    added := false;
    for n := 0 to |items|
      invariant target == AppendItems(existing.items, items[..n])
      invariant forall x :: x in existing.items ==> x in target
      invariant forall x :: x in target ==> x in existing.items || x in items[..n]
      invariant added == exists x :: x in items[..n] && x !in existing.items
      invariant !added ==> target == existing.items
    {
      assert items[..n + 1][..n] == items[..n];
      if items[n] !in target {
        target := target + [items[n]];
        added := true;
      } else if items[n] !in existing.items {
        assert items[n] in items[..n];
      }
    }
    assert items[..|items|] == items;
    result := Arr(target);
  }

  method RecordLeaves(value: Value, prefix: Path, origin: Origin, provenance: Provenance)
    modifies provenance
    ensures Recorded(old(provenance.winners), provenance.winners, prefix, origin, Leaves(value))
    ensures Credited(old(provenance.contributors), provenance.contributors, prefix, origin,
                     AppendLeaves(value, LastKey(prefix)))
    decreases value
  {
    ghost var w0, c0 := provenance.winners, provenance.contributors;
    ghost var leaves, appends := Leaves(value), AppendLeaves(value, LastKey(prefix));
    if value.Obj? && value.fields != map[] {
      ghost var keys := value.fields.Keys;
      var todo := value.fields.Keys;
      while todo != {}
        invariant todo <= keys
        invariant Recorded(w0, provenance.winners, prefix, origin, Under(leaves, keys - todo))
        invariant Credited(c0, provenance.contributors, prefix, origin, Under(appends, keys - todo))
        decreases todo
      {
        var key :| key in todo;
        ghost var w1, c1, done := provenance.winners, provenance.contributors, keys - todo;
        RecordLeaves(value.fields[key], prefix + [key], origin, provenance);
        assert Shift(leaves, key) == Leaves(value.fields[key]);
        assert Shift(appends, key) == AppendLeaves(value.fields[key], key);
        RecordedMember(w0, w1, provenance.winners, prefix, key, origin, leaves, done);
        CreditedMember(c0, c1, provenance.contributors, prefix, key, origin, appends, done);
        todo := todo - {key};
        assert keys - todo == done + {key};
      }
      assert Under(leaves, keys - todo) == leaves;
      assert Under(appends, keys - todo) == appends;
    } else {
      OnlyItself(prefix, leaves);
      if value.Arr? && LastKey(prefix) in APPEND_KEYS {
        OnlyItself(prefix, appends);
        provenance.Contributed(prefix, origin);
      }
      provenance.Win(prefix, origin);
    }
  }

  lemma AllMembers(base: Value, overlay: Value)
    requires base.Obj? && overlay.Obj?
    ensures PartlyMerged(base, overlay, {}) == base.fields
    ensures Obj(PartlyMerged(base, overlay, overlay.fields.Keys)) == Merged(base, overlay)
    ensures Under(WinPaths(base, overlay), {}) == iset{} == Under(AddPaths(base, overlay), {})
    ensures Under(WinPaths(base, overlay), overlay.fields.Keys) == WinPaths(base, overlay)
    ensures Under(AddPaths(base, overlay), overlay.fields.Keys) == AddPaths(base, overlay)
  {
    assert PartlyMerged(base, overlay, overlay.fields.Keys) == Merged(base, overlay).fields;
  }

  /** `merge` (layer.rs:1235-1269): returns the new value of the node the source updates through
      `&mut`, and updates the ledger in place. */
  method Merge(base: Value, overlay: Value, prefix: Path, origin: Origin, provenance: Provenance)
    returns (merged: Value)
    modifies provenance
    ensures merged == Merged(base, overlay)
    ensures Recorded(old(provenance.winners), provenance.winners, prefix, origin, WinPaths(base, overlay))
    ensures Credited(old(provenance.contributors), provenance.contributors, prefix, origin, AddPaths(base, overlay))
    decreases overlay, 1
  {
    ghost var w0, c0 := provenance.winners, provenance.contributors;
    ghost var wins, adds := WinPaths(base, overlay), AddPaths(base, overlay);
    if base.Obj? && overlay.Obj? {
      var fields, todo := base.fields, overlay.fields.Keys;
      ghost var done := {};
      AllMembers(base, overlay);
      while todo != {}
        invariant todo !! done && todo + done == overlay.fields.Keys
        invariant fields == PartlyMerged(base, overlay, done)
        invariant Recorded(w0, provenance.winners, prefix, origin, Under(wins, done))
        invariant Credited(c0, provenance.contributors, prefix, origin, Under(adds, done))
        decreases todo
      {
        var key :| key in todo;
        ghost var w1, c1 := provenance.winners, provenance.contributors;
        var existing := MergeMember(base, overlay, key, prefix, origin, provenance);
        RecordedMember(w0, w1, provenance.winners, prefix, key, origin, wins, done);
        CreditedMember(c0, c1, provenance.contributors, prefix, key, origin, adds, done);
        MemberMerged(base, overlay, done, key);
        fields := fields[key := existing];
        todo, done := todo - {key}, done + {key};
      }
      assert done == overlay.fields.Keys;
      merged := Obj(fields);
    } else {
      OnlyItself(prefix, wins);
      merged := overlay;
      provenance.Win(prefix, origin);
    }
  }

  ghost function MergedMember(base: Value, overlay: Value, key: string): Value
    requires base.Obj? && overlay.Obj?
  {
    if key in Merged(base, overlay).fields then Merged(base, overlay).fields[key] else Null
  }

  /** The object once the members `done` of the overlay have been merged. */
  ghost function PartlyMerged(base: Value, overlay: Value, done: set<string>): map<string, Value>
    requires base.Obj? && overlay.Obj?
  {
    map k | k in base.fields.Keys + done :: if k in done then MergedMember(base, overlay, k) else base.fields[k]
  }

  lemma MemberMerged(base: Value, overlay: Value, done: set<string>, key: string)
    requires base.Obj? && overlay.Obj?
    ensures PartlyMerged(base, overlay, done)[key := MergedMember(base, overlay, key)] ==
            PartlyMerged(base, overlay, done + {key})
  {
  }

  /** The body of the member loop (layer.rs:1238-1262). */
  method MergeMember(
    base: Value, overlay: Value, key: string, prefix: Path, origin: Origin, provenance: Provenance)
    returns (existing: Value)
    requires base.Obj? && overlay.Obj? && key in overlay.fields
    modifies provenance
    ensures existing == MergedMember(base, overlay, key)
    ensures Recorded(old(provenance.winners), provenance.winners, prefix + [key], origin,
                     Shift(WinPaths(base, overlay), key))
    ensures Credited(old(provenance.contributors), provenance.contributors, prefix + [key], origin,
                     Shift(AddPaths(base, overlay), key))
    decreases overlay, 0
  {
    var value, path := overlay.fields[key], prefix + [key];
    ShiftedPaths(base, overlay, key);
    if key !in base.fields {
      MergeNewMember(key, value, path, origin, provenance);
      existing := value;
    } else if Appends(key, value) {
      existing := MergeAppended(base.fields[key], value, path, origin, provenance);
    } else {
      existing := Merge(base.fields[key], value, path, origin, provenance);
    }
  }

  /** What a merge records at or below one member. */
  lemma ShiftedPaths(base: Value, overlay: Value, key: string)
    requires base.Obj? && overlay.Obj? && key in overlay.fields
    ensures var value := overlay.fields[key];
            Shift(WinPaths(base, overlay), key) ==
            if key !in base.fields then Leaves(value)
            else if Appends(key, value) then iset{[]}
            else WinPaths(base.fields[key], value)
    ensures var value := overlay.fields[key];
            Shift(AddPaths(base, overlay), key) ==
            if key !in base.fields then AppendLeaves(value, key)
            else if Appends(key, value) then AddedItself(base.fields[key], value)
            else AddPaths(base.fields[key], value)
  {
    assert forall q: Path :: ([key] + q)[0] == key && ([key] + q)[1..] == q;
  }

  ghost function AddedItself(existing: Value, value: Value): iset<Path> {
    if AddsItem(existing, value) then iset{[]} else iset{}
  }

  /** The branch for an additive array already there (crates/ferridriver-config/src/layer.rs:1246-1252). */
  method MergeAppended(existing: Value, value: Value, path: Path, origin: Origin, provenance: Provenance)
    returns (merged: Value)
    modifies provenance
    ensures merged == Appended(existing, value)
    ensures Recorded(old(provenance.winners), provenance.winners, path, origin, iset{[]})
    ensures Credited(old(provenance.contributors), provenance.contributors, path, origin, AddedItself(existing, value))
  {
    var added;
    merged, added := AppendUnique(existing, value);
    OnlyItself(path, iset{[]});
    if added {
      provenance.Contributed(path, origin);
    }
    provenance.Win(path, origin);
  }

  /** The branch for a member the base lacks (crates/ferridriver-config/src/layer.rs:1254-1260). */
  method MergeNewMember(key: string, value: Value, path: Path, origin: Origin, provenance: Provenance)
    requires path != [] && path[|path| - 1] == key
    modifies provenance
    ensures Recorded(old(provenance.winners), provenance.winners, path, origin, Leaves(value))
    ensures Credited(old(provenance.contributors), provenance.contributors, path, origin, AppendLeaves(value, key))
  {
    if Appends(key, value) {
      OnlyItself(path, AppendLeaves(value, key));
      provenance.Contributed(path, origin);
    }
    RecordLeaves(value, path, origin, provenance);
  }
}
