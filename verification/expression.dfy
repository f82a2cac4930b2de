/** Mapping parameters onto the capture groups of a compiled expression
    (crates/ferridriver-bdd/src/expression.rs:167-215). */
module Expression {
  import opened Json

  datatype Declared = Declared(ty: string, id: nat)

  datatype ParamSlot = Positional(group: nat) | Named(names: seq<string>)

  datatype ParamInfo = ParamInfo(ty: string, id: nat, slot: ParamSlot)

  datatype Error = BelongsToAnother(id: nat, name: string) | NoGroup(id: nat)

  // ---------------------------------------------------------------- group names

  function Decimal(n: nat): string {
    if n < 10 then [Digit(n)] else Decimal(n / 10) + [Digit(n % 10)]
  }

  function Digit(d: nat): char
    requires d < 10
  {
    '0' + d as char
  }

  function Prefix(id: nat): string {
    "__" + Decimal(id) + "_"
  }

  function GroupName(id: nat, n: nat): string {
    Prefix(id) + Decimal(n)
  }

  // ---------------------------------------------------------------- assign_slots

  /** How many groups from `group` on carry names of this parameter. */
  function RunLength(names: seq<Option<string>>, group: nat, prefix: string): (n: nat)
    ensures group <= |names| ==> group + n <= |names|
    decreases |names| - group
  {
    if group < |names| && names[group].Some? && prefix <= names[group].value then
      1 + RunLength(names, group + 1, prefix)
    else 0
  }

  function GroupNames(names: seq<Option<string>>, group: nat, n: nat): seq<string> {
    seq(n, i requires 0 <= i < n =>
      if group + i < |names| && names[group + i].Some? then names[group + i].value else "")
  }

  function Slot(names: seq<Option<string>>, id: nat, group: nat): Result<ParamSlot, Error> {
    var n := RunLength(names, group, Prefix(id));
    if n > 0 then Ok(Named(GroupNames(names, group, n)))
    else if group >= |names| then Err(NoGroup(id))
    else
      match names[group]
      case None => Ok(Positional(group))
      case Some(other) => Err(BelongsToAnother(id, other))
  }

  function Size(slot: ParamSlot): nat {
    match slot
    case Positional(_) => 1
    case Named(names) => |names|
  }

  function Assigned(names: seq<Option<string>>, declared: seq<Declared>, group: nat): (r: Result<seq<ParamInfo>, Error>)
    ensures r.Ok? ==> |r.value| == |declared|
  {
    if declared == [] then Ok([])
    else
      var slot := Slot(names, declared[0].id, group);
      if slot.Err? then Err(slot.error)
      else
        var rest := Assigned(names, declared[1..], group + Size(slot.value));
        if rest.Err? then rest else Ok([ParamInfo(declared[0].ty, declared[0].id, slot.value)] + rest.value)
  }

  function Prepended(infos: seq<ParamInfo>, rest: Result<seq<ParamInfo>, Error>): Result<seq<ParamInfo>, Error> {
    if rest.Ok? then Ok(infos + rest.value) else rest
  }

  method AssignSlots(names: seq<Option<string>>, declared: seq<Declared>)
    returns (result: Result<seq<ParamInfo>, Error>)
    ensures result == Assigned(names, declared, 1)
  {
    var infos, group := [], 1;
    assert declared[0..] == declared;
    NothingPrepended(Assigned(names, declared, 1));
    for n := 0 to |declared|
      invariant Assigned(names, declared, 1) == Prepended(infos, Assigned(names, declared[n..], group))
    {
      var ty, id := declared[n].ty, declared[n].id;
      assert declared[n..][1..] == declared[n + 1..];
      var slot, next := NextSlot(names, id, group);
      if slot.Err? {
        return Err(slot.error);
      }
      var info := ParamInfo(ty, id, slot.value);
      group := next;
      PrependedTwice(infos, [info], Assigned(names, declared[n + 1..], group));
      infos := infos + [info];
    }
    result := Ok(infos);
    assert infos + [] == infos;
  }

  /** The loop body: the run of the parameter's own names, or the one unnamed group. */
  method NextSlot(names: seq<Option<string>>, id: nat, start: nat) returns (slot: Result<ParamSlot, Error>, group: nat)
    ensures slot == Slot(names, id, start)
    ensures slot.Ok? ==> group == start + Size(slot.value)
  {
    group := start;
    var prefix, named := Prefix(id), [];
    while group < |names| && names[group].Some? && prefix <= names[group].value
      invariant start <= group && RunLength(names, start, prefix) == group - start + RunLength(names, group, prefix)
      invariant named == GroupNames(names, start, group - start)
    {
      named := named + [names[group].value];
      group := group + 1;
    }
    if named != [] {
      slot := Ok(Named(named));
    } else if group >= |names| {
      slot := Err(NoGroup(id));
    } else {
      match names[group] {
        case Some(other) =>
          slot := Err(BelongsToAnother(id, other));
        case None =>
          slot := Ok(Positional(group));
          group := group + 1;
      }
    }
  }

  lemma {:induction false} NothingPrepended(rest: Result<seq<ParamInfo>, Error>)
    ensures Prepended([], rest) == rest
  {
    if rest.Ok? {
      assert [] + rest.value == rest.value;
    }
  }

  lemma {:induction false} PrependedTwice(a: seq<ParamInfo>, b: seq<ParamInfo>, rest: Result<seq<ParamInfo>, Error>)
    ensures Prepended(a, Prepended(b, rest)) == Prepended(a + b, rest)
  {
    if rest.Ok? {
      assert a + (b + rest.value) == a + b + rest.value;
    }
  }

  // ---------------------------------------------------------------- what acceptance means

  /** Groups taken by the first `n` parameters, the whole match included. */
  function Start(infos: seq<ParamInfo>, n: nat, from: nat): nat
    requires n <= |infos|
    decreases n
  {
    if n == 0 then from else Start(infos, n - 1, from) + Size(infos[n - 1].slot)
  }

  /** The slot owns exactly the groups from `start` on: one unnamed group, or a run of its own names. */
  predicate Owns(names: seq<Option<string>>, info: ParamInfo, start: nat) {
    match info.slot
    case Positional(group) => group == start < |names| && names[group] == None
    case Named(own) =>
      own != [] && start + |own| <= |names| &&
      forall i :: 0 <= i < |own| ==> names[start + i] == Some(own[i]) && Prefix(info.id) <= own[i]
  }

  lemma {:induction false} RunIsNamed(names: seq<Option<string>>, group: nat, prefix: string, i: nat)
    requires group <= i < group + RunLength(names, group, prefix)
    ensures i < |names| && names[i].Some? && prefix <= names[i].value
    decreases |names| - group
  {
    if group < i {
      RunIsNamed(names, group + 1, prefix, i);
    }
  }

  lemma {:induction false} SlotIsOwned(names: seq<Option<string>>, declared: Declared, group: nat)
    requires Slot(names, declared.id, group).Ok?
    ensures Owns(names, ParamInfo(declared.ty, declared.id, Slot(names, declared.id, group).value), group)
  {
    var prefix := Prefix(declared.id);
    var n := RunLength(names, group, prefix);
    var own := GroupNames(names, group, n);
    forall i | 0 <= i < n
      ensures group + i < |names| && names[group + i] == Some(own[i]) && prefix <= own[i]
    {
      RunIsNamed(names, group, prefix, group + i);
    }
  }

  lemma {:induction false} StartShifts(first: ParamInfo, rest: seq<ParamInfo>, n: nat, from: nat)
    requires n <= |rest|
    ensures Start([first] + rest, n + 1, from) == Start(rest, n, from + Size(first.slot))
    decreases n
  {
    if n > 0 {
      StartShifts(first, rest, n - 1, from);
      assert ([first] + rest)[n] == rest[n - 1];
    } else {
      assert Start([first] + rest, 0, from) == from;
    }
  }

  predicate InPlace(names: seq<Option<string>>, declared: Declared, info: ParamInfo, start: nat) {
    info.ty == declared.ty && info.id == declared.id && Owns(names, info, start)
  }

  /** Parameter by parameter, in order, each owning the groups that follow those before it. */
  predicate Contiguous(names: seq<Option<string>>, declared: seq<Declared>, infos: seq<ParamInfo>, from: nat) {
    |infos| == |declared| &&
    forall n :: 0 <= n < |infos| ==> InPlace(names, declared[n], infos[n], Start(infos, n, from))
  }

  lemma {:induction false} InPlaceNext(names: seq<Option<string>>, declared: Declared, first: ParamInfo,
                                       rest: seq<ParamInfo>, m: nat, from: nat)
    requires m < |rest| && InPlace(names, declared, rest[m], Start(rest, m, from + Size(first.slot)))
    ensures InPlace(names, declared, ([first] + rest)[m + 1], Start([first] + rest, m + 1, from))
  {
    StartShifts(first, rest, m, from);
    assert ([first] + rest)[m + 1] == rest[m];
  }

  lemma {:induction false} AcceptedAt(names: seq<Option<string>>, declared: seq<Declared>, from: nat, n: nat)
    requires Assigned(names, declared, from).Ok? && n < |declared|
    ensures var infos := Assigned(names, declared, from).value;
            |infos| == |declared| && InPlace(names, declared[n], infos[n], Start(infos, n, from))
    decreases |declared|
  {
    var slot := Slot(names, declared[0].id, from).value;
    var rest := Assigned(names, declared[1..], from + Size(slot)).value;
    if n == 0 {
      SlotIsOwned(names, declared[0], from);
    } else {
      AcceptedAt(names, declared[1..], from + Size(slot), n - 1);
      InPlaceNext(names, declared[n], ParamInfo(declared[0].ty, declared[0].id, slot), rest, n - 1, from);
    }
  }

  /** An accepted assignment answers the parameters in order and gives them contiguous, ascending and
      disjoint groups, starting right after the whole match. */
  lemma {:induction false} AcceptedIsContiguous(names: seq<Option<string>>, declared: seq<Declared>, from: nat)
    requires Assigned(names, declared, from).Ok?
    ensures Contiguous(names, declared, Assigned(names, declared, from).value, from)
  {
    forall n | 0 <= n < |declared|
      ensures InPlace(names, declared[n], Assigned(names, declared, from).value[n],
                      Start(Assigned(names, declared, from).value, n, from))
    {
      AcceptedAt(names, declared, from, n);
    }
  }

  /** What the next group must be for a parameter to be refused: missing, or another parameter's. */
  predicate Refused(names: seq<Option<string>>, id: nat, group: nat, error: Error) {
    match error
    case NoGroup(of) => of == id && group >= |names|
    case BelongsToAnother(of, name) =>
      of == id && group < |names| && names[group] == Some(name) && !(Prefix(id) <= name)
  }

  /** The groups taken by the parameters that come first. */
  function Taken(infos: seq<ParamInfo>, from: nat): nat {
    Start(infos, |infos|, from)
  }

  /** A refused assignment names the first parameter that cannot be served: those before it are, and the group after
      theirs is missing or another's. */
  lemma {:induction false} RejectedAt(names: seq<Option<string>>, declared: seq<Declared>, from: nat) returns (n: nat)
    requires Assigned(names, declared, from).Err?
    ensures n < |declared| && Assigned(names, declared[..n], from).Ok?
    ensures Refused(names, declared[n].id, Taken(Assigned(names, declared[..n], from).value, from),
                    Assigned(names, declared, from).error)
    decreases |declared|
  {
    var slot := Slot(names, declared[0].id, from);
    if slot.Err? {
      n := 0;
      assert declared[..0] == [];
    } else {
      var first := ParamInfo(declared[0].ty, declared[0].id, slot.value);
      var m := RejectedAt(names, declared[1..], from + Size(slot.value));
      n := m + 1;
      assert declared[..n][0] == declared[0] && declared[..n][1..] == declared[1..][..m];
      var rest := Assigned(names, declared[1..][..m], from + Size(slot.value)).value;
      StartShifts(first, rest, |rest|, from);
    }
  }

  // ---------------------------------------------------------------- the expander's layout

  /** What the expander emits for one parameter: an unnamed group, or a run of groups numbered from 0. */
  datatype Emission = Unnamed | Run(count: nat)

  /** A run has at least one group: a matcher without groups of its own is emitted as an unnamed one. */
  predicate Emits(emissions: seq<Emission>) {
    forall i :: 0 <= i < |emissions| ==> emissions[i] != Run(0)
  }

  function RunNames(id: nat, count: nat): (names: seq<string>) {
    seq(count, i requires 0 <= i < count => GroupName(id, i))
  }

  function Emitted(id: nat, e: Emission): seq<Option<string>> {
    match e
    case Unnamed => [None]
    case Run(count) => seq(count, i requires 0 <= i < count => Some(GroupName(id, i)))
  }

  function Groups(declared: seq<Declared>, emissions: seq<Emission>): seq<Option<string>>
    requires |declared| == |emissions|
  {
    if declared == [] then [] else Emitted(declared[0].id, emissions[0]) + Groups(declared[1..], emissions[1..])
  }

  /** The slot of a parameter whose groups were emitted at `group`. */
  function OwnSlot(id: nat, e: Emission, group: nat): ParamSlot {
    match e
    case Unnamed => Positional(group)
    case Run(count) => Named(RunNames(id, count))
  }

  function LaidOut(declared: seq<Declared>, emissions: seq<Emission>, group: nat): seq<ParamInfo>
    requires |declared| == |emissions|
  {
    if declared == [] then []
    else
      var slot := OwnSlot(declared[0].id, emissions[0], group);
      [ParamInfo(declared[0].ty, declared[0].id, slot)] + LaidOut(declared[1..], emissions[1..], group + Size(slot))
  }

  /** Two named runs of one id side by side. */
  predicate TouchAt(declared: seq<Declared>, emissions: seq<Emission>, i: nat)
    requires |declared| == |emissions|
  {
    i + 1 < |declared| && emissions[i].Run? && emissions[i + 1].Run? && declared[i].id == declared[i + 1].id
  }

  predicate RunsTouch(declared: seq<Declared>, emissions: seq<Emission>)
    requires |declared| == |emissions|
  {
    exists i: nat :: i < |declared| && TouchAt(declared, emissions, i)
  }

  // -------- names tell ids apart

  lemma {:induction false} DecimalDigits(n: nat)
    ensures Decimal(n) != "" && forall i :: 0 <= i < |Decimal(n)| ==> '0' <= Decimal(n)[i] <= '9'
  {
    if n >= 10 {
      DecimalDigits(n / 10);
    }
  }

  lemma {:induction false} DecimalInjective(m: nat, n: nat)
    requires Decimal(m) == Decimal(n)
    ensures m == n
  {
    var s := Decimal(m);
    if m >= 10 && n >= 10 {
      assert Decimal(m / 10) == s[..|s| - 1] == Decimal(n / 10);
      DecimalInjective(m / 10, n / 10);
      assert Digit(m % 10) == s[|s| - 1] == Digit(n % 10);
    } else if m >= 10 {
      DecimalDigits(m / 10);
    } else if n >= 10 {
      DecimalDigits(n / 10);
    } else {
      assert s[0] == Digit(m) == Digit(n);
    }
  }

  /** A group name belongs to the parameter whose id it carries and to no other. */
  lemma {:induction false} PrefixTells(id: nat, other: nat, n: nat)
    ensures Prefix(id) <= GroupName(other, n) <==> id == other
  {
    if Prefix(id) <= GroupName(other, n) {
      PrefixSame(id, other, n);
    }
  }

  lemma {:induction false} PrefixSame(id: nat, other: nat, n: nat)
    requires Prefix(id) <= GroupName(other, n)
    ensures id == other
  {
    var a, b, name := Decimal(id), Decimal(other), GroupName(other, n);
    DecimalDigits(id);
    DecimalDigits(other);
    assert a == Prefix(id)[2..2 + |a|] == name[2..2 + |a|] && name[2 + |a|] == Prefix(id)[2 + |a|] == '_';
    assert b == name[2..2 + |b|] && name[2 + |b|] == '_';
    assert forall i :: 0 <= i < |a| ==> name[2 + i] == a[i];
    assert forall i :: 0 <= i < |b| ==> name[2 + i] == b[i];
    assert |a| == |b|;
    DecimalInjective(id, other);
  }

  // -------- the assignment inverts the layout

  lemma {:induction false} RunIsTaken(names: seq<Option<string>>, start: nat, id: nat, count: nat, from: nat)
    requires from <= count && start + count <= |names|
    requires forall i :: 0 <= i < count ==> names[start + i] == Some(GroupName(id, i))
    ensures RunLength(names, start + from, Prefix(id)) == count - from + RunLength(names, start + count, Prefix(id))
    decreases count - from
  {
    if from < count {
      assert names[start + from] == Some(GroupName(id, from));
      PrefixTells(id, id, from);
      RunIsTaken(names, start, id, count, from + 1);
    }
  }

  lemma {:induction false} FirstGroup(before: seq<Option<string>>, declared: seq<Declared>, emissions: seq<Emission>)
    requires |declared| == |emissions| && Emits(emissions) && declared != []
    ensures var names := before + Groups(declared, emissions);
            |before| < |names| &&
            names[|before|] == if emissions[0].Run? then Some(GroupName(declared[0].id, 0)) else None
  {
    var own := Emitted(declared[0].id, emissions[0]);
    assert (before + Groups(declared, emissions))[|before|] == own[0];
  }

  /** After the groups before them, the run of `id` goes on exactly into a neighbouring run of the same id. */
  lemma {:induction false} RunGoesOn(before: seq<Option<string>>, declared: seq<Declared>, emissions: seq<Emission>,
      id: nat)
    requires |declared| == |emissions| && Emits(emissions)
    ensures RunLength(before + Groups(declared, emissions), |before|, Prefix(id)) > 0 <==>
            declared != [] && emissions[0].Run? && declared[0].id == id
  {
    if declared != [] {
      FirstGroup(before, declared, emissions);
      PrefixTells(id, declared[0].id, 0);
    }
  }

  lemma {:induction false} TouchesSplit(declared: seq<Declared>, emissions: seq<Emission>)
    requires |declared| == |emissions| && declared != []
    ensures RunsTouch(declared, emissions) <==>
            TouchAt(declared, emissions, 0) || RunsTouch(declared[1..], emissions[1..])
  {
    forall i: nat | i + 1 < |declared|
      ensures TouchAt(declared[1..], emissions[1..], i) == TouchAt(declared, emissions, i + 1)
    {}
    if RunsTouch(declared, emissions) {
      var i: nat :| i < |declared| && TouchAt(declared, emissions, i);
      if i > 0 {
        assert TouchAt(declared[1..], emissions[1..], i - 1);
      }
    }
    if RunsTouch(declared[1..], emissions[1..]) {
      var i: nat :| i < |declared[1..]| && TouchAt(declared[1..], emissions[1..], i);
      assert TouchAt(declared, emissions, i + 1);
    }
  }

  lemma {:induction false} RunSlot(names: seq<Option<string>>, start: nat, id: nat, count: nat)
    requires 0 < count && start + count <= |names|
    requires forall i :: 0 <= i < count ==> names[start + i] == Some(GroupName(id, i))
    ensures var slot := Slot(names, id, start);
            slot.Ok? &&
            (if RunLength(names, start + count, Prefix(id)) > 0 then Size(slot.value) > count
             else slot.value == Named(RunNames(id, count)))
  {
    RunIsTaken(names, start, id, count, 0);
    if RunLength(names, start + count, Prefix(id)) == 0 {
      assert GroupNames(names, start, count) == RunNames(id, count);
    }
  }

  /** The slot found where a run of `id` is followed by other parameters: the run, and more if they go on with it. */
  lemma {:induction false} RunHead(before: seq<Option<string>>, id: nat, count: nat, declared: seq<Declared>,
      emissions: seq<Emission>)
    requires |declared| == |emissions| && Emits(emissions) && count > 0
    ensures var slot := Slot(before + Emitted(id, Run(count)) + Groups(declared, emissions), id, |before|);
            slot.Ok? &&
            (if declared != [] && emissions[0].Run? && declared[0].id == id then Size(slot.value) > count
             else slot.value == Named(RunNames(id, count)))
  {
    var run := Emitted(id, Run(count));
    RunGoesOn(before + run, declared, emissions, id);
    var names := before + run + Groups(declared, emissions);
    assert |before + run| == |before| + count;
    forall i | 0 <= i < count
      ensures names[|before| + i] == Some(GroupName(id, i))
    {
      assert names[|before| + i] == run[i];
    }
    RunSlot(names, |before|, id, count);
  }

  lemma {:induction false} UnnamedHead(before: seq<Option<string>>, id: nat, rest: seq<Option<string>>)
    ensures Slot(before + Emitted(id, Unnamed) + rest, id, |before|) == Ok(Positional(|before|))
  {
    var names := before + Emitted(id, Unnamed) + rest;
    assert names[|before|] == Emitted(id, Unnamed)[0];
  }

  lemma {:induction false} GroupsSplit(before: seq<Option<string>>, declared: seq<Declared>, emissions: seq<Emission>)
    requires |declared| == |emissions| && declared != []
    ensures before + Groups(declared, emissions) ==
            before + Emitted(declared[0].id, emissions[0]) + Groups(declared[1..], emissions[1..])
  {}

  /** The first parameter is given its own slot, unless a run of the same id touches it. */
  predicate HeadFound(names: seq<Option<string>>, declared: seq<Declared>, emissions: seq<Emission>, group: nat)
    requires |declared| == |emissions| && declared != []
  {
    (Slot(names, declared[0].id, group) == Ok(OwnSlot(declared[0].id, emissions[0], group))) <==>
    !TouchAt(declared, emissions, 0)
  }

  /** The slot found at the groups of the first parameter: its own, unless a run of the same id touches it. */
  lemma {:induction false} HeadSlot(before: seq<Option<string>>, declared: seq<Declared>, emissions: seq<Emission>)
    requires |declared| == |emissions| && declared != [] && Emits(emissions)
    ensures HeadFound(before + Groups(declared, emissions), declared, emissions, |before|)
  {
    GroupsSplit(before, declared, emissions);
    match emissions[0]
    case Unnamed => UnnamedHead(before, declared[0].id, Groups(declared[1..], emissions[1..]));
    case Run(count) => RunHead(before, declared[0].id, count, declared[1..], emissions[1..]);
  }

  /** One round of the assignment, read from its result. */
  lemma {:induction false} AssignedHead(names: seq<Option<string>>, declared: seq<Declared>, group: nat,
      info: ParamInfo,
      rest: seq<ParamInfo>)
    requires declared != [] && info.ty == declared[0].ty && info.id == declared[0].id
    ensures Assigned(names, declared, group) == Ok([info] + rest) <==>
            Slot(names, declared[0].id, group) == Ok(info.slot) &&
            Assigned(names, declared[1..], group + Size(info.slot)) == Ok(rest)
  {
    var slot := Slot(names, declared[0].id, group);
    if slot.Ok? {
      var tail := Assigned(names, declared[1..], group + Size(slot.value));
      if tail.Ok? {
        SameCons(ParamInfo(info.ty, info.id, slot.value), tail.value, info, rest);
      }
    }
  }

  lemma {:induction false} LayoutStep(names: seq<Option<string>>, declared: seq<Declared>, emissions: seq<Emission>,
      group: nat)
    requires |declared| == |emissions| && declared != []
    requires HeadFound(names, declared, emissions, group)
    requires Recovers(names, declared[1..], emissions[1..], group + Size(OwnSlot(declared[0].id, emissions[0], group)))
    ensures Recovers(names, declared, emissions, group)
  {
    var own := OwnSlot(declared[0].id, emissions[0], group);
    TouchesSplit(declared, emissions);
    AssignedHead(names, declared, group, ParamInfo(declared[0].ty, declared[0].id, own),
                 LaidOut(declared[1..], emissions[1..], group + Size(own)));
  }

  /** The assignment finds exactly the layout of these emissions unless two named runs of one id touch. */
  predicate Recovers(names: seq<Option<string>>, declared: seq<Declared>, emissions: seq<Emission>, group: nat)
    requires |declared| == |emissions|
  {
    (Assigned(names, declared, group) == Ok(LaidOut(declared, emissions, group))) <==> !RunsTouch(declared, emissions)
  }

  lemma {:induction false} RestRecovers(before: seq<Option<string>>, declared: seq<Declared>, emissions: seq<Emission>)
    requires |declared| == |emissions| && declared != []
    requires var after := before + Emitted(declared[0].id, emissions[0]);
             Recovers(after + Groups(declared[1..], emissions[1..]), declared[1..], emissions[1..], |after|)
    ensures Recovers(before + Groups(declared, emissions), declared[1..], emissions[1..],
                     |before| + Size(OwnSlot(declared[0].id, emissions[0], |before|)))
  {
    EmittedSize(declared[0].id, emissions[0], |before|);
    GroupsSplit(before, declared, emissions);
  }

  lemma {:induction false} HeadRecovers(before: seq<Option<string>>, declared: seq<Declared>, emissions: seq<Emission>)
    requires |declared| == |emissions| && declared != [] && Emits(emissions)
    requires Recovers(before + Groups(declared, emissions), declared[1..], emissions[1..],
                      |before| + Size(OwnSlot(declared[0].id, emissions[0], |before|)))
    ensures Recovers(before + Groups(declared, emissions), declared, emissions, |before|)
  {
    HeadSlot(before, declared, emissions);
    LayoutStep(before + Groups(declared, emissions), declared, emissions, |before|);
  }

  lemma {:induction false} EmittedSize(id: nat, e: Emission, group: nat)
    ensures |Emitted(id, e)| == Size(OwnSlot(id, e, group))
  {}

  /** The assignment inverts the expander's layout, after any groups that come before, exactly when no
      two named runs of one id touch. */
  lemma {:induction false} LayoutRecovered(before: seq<Option<string>>, declared: seq<Declared>,
      emissions: seq<Emission>)
    requires |declared| == |emissions| && Emits(emissions)
    ensures Recovers(before + Groups(declared, emissions), declared, emissions, |before|)
    decreases |declared|
  {
    if declared != [] {
      LayoutRecovered(before + Emitted(declared[0].id, emissions[0]), declared[1..], emissions[1..]);
      RestRecovers(before, declared, emissions);
      HeadRecovers(before, declared, emissions);
    }
  }

  lemma {:induction false} SameCons<T>(a: T, s: seq<T>, b: T, t: seq<T>)
    ensures [a] + s == [b] + t <==> a == b && s == t
  {
    if [a] + s == [b] + t {
      assert a == ([a] + s)[0] == ([b] + t)[0] == b;
      assert s == ([a] + s)[1..] == ([b] + t)[1..] == t;
    }
  }

  /** Parameters as the parser numbers them, with distinct ids, are always given back their own groups. */
  lemma {:induction false} DistinctIdsRecovered(declared: seq<Declared>, emissions: seq<Emission>)
    requires |declared| == |emissions| && Emits(emissions)
    requires forall i, j :: 0 <= i < j < |declared| ==> declared[i].id != declared[j].id
    ensures Assigned([None] + Groups(declared, emissions), declared, 1) == Ok(LaidOut(declared, emissions, 1))
  {
    LayoutRecovered([None], declared, emissions);
  }

  // ---------------------------------------------------------------- extract_params_with_custom

  /** The text of the group called `name`, when that group took part in the match. */
  function CapturedAs(names: seq<Option<string>>, captures: seq<Option<string>>, name: string): Option<string>
    requires |captures| == |names|
  {
    if names == [] then None
    else if names[0] == Some(name) then captures[0]
    else CapturedAs(names[1..], captures[1..], name)
  }

  function FirstNamed(names: seq<Option<string>>, captures: seq<Option<string>>, own: seq<string>): string
    requires |captures| == |names|
  {
    if own == [] then ""
    else
      match CapturedAs(names, captures, own[0])
      case Some(text) => text
      case None => FirstNamed(names, captures, own[1..])
  }

  function Text(names: seq<Option<string>>, captures: seq<Option<string>>, slot: ParamSlot): string
    requires |captures| == |names|
  {
    match slot
    case Positional(group) => if group < |captures| && captures[group].Some? then captures[group].value else ""
    case Named(own) => FirstNamed(names, captures, own)
  }

  /** The first text among these groups, the empty text when none took part in the match. */
  function FirstText(captures: seq<Option<string>>): string {
    if captures == [] then "" else if captures[0].Some? then captures[0].value else FirstText(captures[1..])
  }

  /** A compiled regex never names two groups alike. */
  predicate NamedApart(names: seq<Option<string>>) {
    forall i, j :: 0 <= i < j < |names| && names[i].Some? ==> names[i] != names[j]
  }

  lemma {:induction false} CapturedAt(names: seq<Option<string>>, captures: seq<Option<string>>, i: nat)
    requires |captures| == |names| && NamedApart(names) && i < |names| && names[i].Some?
    ensures CapturedAs(names, captures, names[i].value) == captures[i]
  {
    if i > 0 {
      assert names[0] != names[i] && names[1..][i - 1] == names[i];
      assert forall a :: 0 <= a < |names[1..]| ==> names[1..][a] == names[a + 1];
      CapturedAt(names[1..], captures[1..], i - 1);
    }
  }

  lemma {:induction false} NamedRead(names: seq<Option<string>>, captures: seq<Option<string>>, own: seq<string>,
      start: nat)
    requires |captures| == |names| && NamedApart(names) && start + |own| <= |names|
    requires forall i :: 0 <= i < |own| ==> names[start + i] == Some(own[i])
    ensures FirstNamed(names, captures, own) == FirstText(captures[start..start + |own|])
    decreases |own|
  {
    if own != [] {
      assert names[start] == Some(own[0]);
      CapturedAt(names, captures, start);
      NamedRead(names, captures, own[1..], start + 1);
      assert captures[start..start + |own|][1..] == captures[start + 1..start + 1 + |own[1..]|];
    }
  }

  lemma {:induction false} OwnedRead(names: seq<Option<string>>, captures: seq<Option<string>>, info: ParamInfo,
      start: nat)
    requires |captures| == |names| && NamedApart(names) && Owns(names, info, start)
    ensures start + Size(info.slot) <= |captures|
    ensures Text(names, captures, info.slot) == FirstText(captures[start..start + Size(info.slot)])
  {
    match info.slot
    case Positional(group) => assert captures[start..start + 1] == [captures[start]];
    case Named(own) => NamedRead(names, captures, own, start);
  }

  /** A parameter reads its own groups and nothing else: the first of them that took part in the match. */
  lemma {:induction false} OwnGroupsRead(names: seq<Option<string>>, captures: seq<Option<string>>,
                                         declared: seq<Declared>, n: nat)
    requires |captures| == |names| && NamedApart(names)
    requires Assigned(names, declared, 1).Ok? && n < |declared|
    ensures var infos := Assigned(names, declared, 1).value;
            |infos| == |declared| &&
            var start := Start(infos, n, 1);
            start + Size(infos[n].slot) <= |captures| &&
            Text(names, captures, infos[n].slot) == FirstText(captures[start..start + Size(infos[n].slot)])
  {
    AcceptedIsContiguous(names, declared, 1);
    var infos := Assigned(names, declared, 1).value;
    assert InPlace(names, declared[n], infos[n], Start(infos, n, 1));
    OwnedRead(names, captures, infos[n], Start(infos, n, 1));
  }
}
