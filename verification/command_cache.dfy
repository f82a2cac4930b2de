/** The single-flight TTL cache of instance-command output
    (crates/ferridriver-config/src/browser.rs:913-1007). */
module CommandCache {
  import opened Json

  // ---------------------------------------------------------------- cache identity

  datatype Exec = Shell(line: string) | Argv(argv: seq<string>)

  /** How a command's output becomes the cached value. */
  datatype Output = TextOutput | JsonOutput | LinesOutput

  datatype ResolvedCommand = ResolvedCommand(
    exec: Exec, timeoutMs: Option<nat>, env: seq<string>, cwd: Option<string>, output: Output, persistent: bool)

  const SEP: char := '\U{1}'

  function JoinedArgv(argv: seq<string>): string {
    if argv == [] then "" else if |argv| == 1 then argv[0] else argv[0] + [SEP] + JoinedArgv(argv[1..])
  }

  function KeyOf(c: ResolvedCommand): string {
    (if c.cwd.Some? then c.cwd.value else "") + [SEP] +
    match c.exec
    case Shell(line) => "sh:" + line
    case Argv(argv) => "argv:" + JoinedArgv(argv)
  }

  // ---------------------------------------------------------------- what the locked sections do

  type Key = string
  type Gate = nat

  datatype Entry = Entry(value: Value, created: nat)

  /** `fresh`: the entry of `key`, when it is younger than `ttl`. */
  function Fresh(entries: map<Key, Entry>, now: nat, key: Key, ttl: nat): Option<Value> {
    if key in entries && now - entries[key].created < ttl then Some(entries[key].value) else None
  }

  // ---------------------------------------------------------------- any number of callers

  type Caller = nat

  datatype Pc =
    | Calling
    | Missed
    | Waiting(gate: Gate)
    | Holding(gate: Gate)
    | Running(gate: Gate)
    | Ran(gate: Gate, value: Value)
    | Leaving(gate: Gate, result: Result<Value, string>)
    | Done(outcome: Result<Value, string>)

  datatype Call = Call(key: Key, ttl: nat, pc: Pc)

  /** `owner` maps each locked gate to the call holding its guard. */
  datatype State = State(
    now: nat, entries: map<Key, Entry>, inflight: map<Key, Gate>, owner: map<Gate, Caller>, calls: map<Caller, Call>)

  datatype Event =
    | Begin(c: Caller, key: Key, ttl: nat)
    | LookHit(c: Caller)
    | LookMiss(c: Caller)
    | TakeGate(c: Caller, gate: Gate)
    | Lock(c: Caller)
    | RecheckHit(c: Caller)
    | RecheckMiss(c: Caller)
    | RunOk(c: Caller, value: Value)
    | RunErr(c: Caller, error: string)
    | Store(c: Caller)
    | Release(c: Caller)
    | Evict(key: Key)
    | Flush
    | Tick(elapsed: nat)

  const INITIAL := State(0, map[], map[], map[], map[])

  function FreshFor(s: State, c: Caller): Option<Value>
    requires c in s.calls
  {
    Fresh(s.entries, s.now, s.calls[c].key, s.calls[c].ttl)
  }

  /** `c` holds the guard of the gate of its key. */
  predicate Critical(pc: Pc) {
    pc.Holding? || pc.Running? || pc.Ran? || pc.Leaving?
  }

  predicate Enabled(s: State, e: Event) {
    match e
    case Begin(c, _, _) => c !in s.calls
    case LookHit(c) => c in s.calls && s.calls[c].pc == Calling && FreshFor(s, c).Some?
    case LookMiss(c) => c in s.calls && s.calls[c].pc == Calling && FreshFor(s, c).None?
    case TakeGate(c, gate) =>
      c in s.calls && s.calls[c].pc == Missed &&
      (if s.calls[c].key in s.inflight then gate == s.inflight[s.calls[c].key] else gate !in s.inflight.Values)
    case Lock(c) => c in s.calls && s.calls[c].pc.Waiting? && s.calls[c].pc.gate !in s.owner
    case RecheckHit(c) => c in s.calls && s.calls[c].pc.Holding? && FreshFor(s, c).Some?
    case RecheckMiss(c) => c in s.calls && s.calls[c].pc.Holding? && FreshFor(s, c).None?
    case RunOk(c, _) => c in s.calls && s.calls[c].pc.Running?
    case RunErr(c, _) => c in s.calls && s.calls[c].pc.Running?
    case Store(c) => c in s.calls && s.calls[c].pc.Ran?
    case Release(c) => c in s.calls && s.calls[c].pc.Leaving?
    case Evict(_) => true
    case Flush => true
    case Tick(_) => true
  }

  function Moved(s: State, c: Caller, pc: Pc): State
    requires c in s.calls
  {
    s.(calls := s.calls[c := s.calls[c].(pc := pc)])
  }

  function Step(s: State, e: Event): State
    requires Enabled(s, e)
  {
    match e
    case Begin(c, key, ttl) => s.(calls := s.calls[c := Call(key, ttl, Calling)])
    case LookHit(c) => Moved(s, c, Done(Ok(FreshFor(s, c).value)))
    case LookMiss(c) => Moved(s, c, Missed)
    case TakeGate(c, gate) => Moved(s, c, Waiting(gate)).(inflight := s.inflight[s.calls[c].key := gate])
    case Lock(c) => Moved(s, c, Holding(s.calls[c].pc.gate)).(owner := s.owner[s.calls[c].pc.gate := c])
    case RecheckHit(c) => Moved(s, c, Leaving(s.calls[c].pc.gate, Ok(FreshFor(s, c).value)))
    case RecheckMiss(c) => Moved(s, c, Running(s.calls[c].pc.gate))
    case RunOk(c, value) => Moved(s, c, Ran(s.calls[c].pc.gate, value))
    case RunErr(c, error) => Moved(s, c, Leaving(s.calls[c].pc.gate, Err(error)))
    case Store(c) =>
      Moved(s, c, Leaving(s.calls[c].pc.gate, Ok(s.calls[c].pc.value)))
        .(entries := s.entries[s.calls[c].key := Entry(s.calls[c].pc.value, s.now)])
    case Release(c) => Moved(s, c, Done(s.calls[c].pc.result)).(owner := s.owner - {s.calls[c].pc.gate})
    case Evict(key) => s.(entries := s.entries - {key})
    case Flush => s.(entries := map[])
    case Tick(elapsed) => s.(now := s.now + elapsed)
  }

  /** The state after a run, when every event was possible. */
  function Run(es: seq<Event>): Option<State> {
    if es == [] then Some(INITIAL)
    else
      var before := Run(es[..|es| - 1]);
      if before.Some? && Enabled(before.value, es[|es| - 1]) then Some(Step(before.value, es[|es| - 1])) else None
  }

  predicate Legal(es: seq<Event>) {
    Run(es).Some?
  }

  /** The state before the `i`-th event. */
  function Before(es: seq<Event>, i: nat): State
    requires i <= |es| && Legal(es[..i])
  {
    Run(es[..i]).value
  }

  lemma {:induction false} LegalPrefix(es: seq<Event>, i: nat)
    requires Legal(es) && i <= |es|
    ensures Legal(es[..i])
    ensures i < |es| ==>
              Enabled(Before(es, i), es[i]) && Legal(es[..i + 1]) && Before(es, i + 1) == Step(Before(es, i), es[i])
    decreases |es|
  {
    if i == |es| {
      assert es[..i] == es;
    } else {
      var init := es[..|es| - 1];
      LegalPrefix(init, i);
      assert init[..i] == es[..i];
      if i + 1 < |es| {
        assert init[..i + 1] == es[..i + 1];
      } else {
        assert es[..i + 1] == es && init == es[..i];
      }
    }
  }

  // ---------------------------------------------------------------- one execution per key

  /** Each key has a gate of its own, and a call past `TakeGate` holds the gate of its key. */
  ghost predicate GatesPerKey(s: State) {
    (forall k, l :: k in s.inflight && l in s.inflight && s.inflight[k] == s.inflight[l] ==> k == l) &&
    (forall c :: c in s.calls && (s.calls[c].pc.Waiting? || Critical(s.calls[c].pc)) ==>
      s.calls[c].key in s.inflight && s.inflight[s.calls[c].key] == s.calls[c].pc.gate)
  }

  /** A gate is locked by exactly the call that is past it. */
  ghost predicate GuardsHeld(s: State) {
    (forall c :: c in s.calls && Critical(s.calls[c].pc) ==>
      s.calls[c].pc.gate in s.owner && s.owner[s.calls[c].pc.gate] == c) &&
    (forall g :: g in s.owner ==>
      s.owner[g] in s.calls && Critical(s.calls[s.owner[g]].pc) && s.calls[s.owner[g]].pc.gate == g)
  }

  ghost predicate Inv(s: State) {
    GatesPerKey(s) && GuardsHeld(s) && forall k :: k in s.entries ==> s.entries[k].created <= s.now
  }

  lemma GatesStep(s: State, e: Event)
    requires GatesPerKey(s) && Enabled(s, e)
    ensures GatesPerKey(Step(s, e))
  {
    if e.TakeGate? {
      TakeGateKeepsGates(s, e.c, e.gate);
    } else if BeforeGate(e) {
      BeforeGateKeepsGates(s, e);
    } else {
      AfterGateKeepsGates(s, e);
    }
  }

  /** Steps of calls that have no gate yet, and of nobody. */
  predicate BeforeGate(e: Event) {
    e.Begin? || e.LookHit? || e.LookMiss? || e.Evict? || e.Flush? || e.Tick?
  }

  lemma TakeGateKeepsGates(s: State, c: Caller, gate: Gate)
    requires GatesPerKey(s) && Enabled(s, TakeGate(c, gate))
    ensures GatesPerKey(Step(s, TakeGate(c, gate)))
  {}

  lemma BeforeGateKeepsGates(s: State, e: Event)
    requires GatesPerKey(s) && Enabled(s, e) && BeforeGate(e)
    ensures GatesPerKey(Step(s, e))
  {}

  lemma AfterGateKeepsGates(s: State, e: Event)
    requires GatesPerKey(s) && Enabled(s, e) && !BeforeGate(e) && !e.TakeGate?
    ensures GatesPerKey(Step(s, e))
  {}

  /** A call enters its critical section by locking a free gate, and leaves it by unlocking that gate. */
  lemma GuardsStep(s: State, e: Event)
    requires GuardsHeld(s) && Enabled(s, e)
    ensures GuardsHeld(Step(s, e))
  {
    if e.Lock? {
      LockKeepsGuards(s, e.c);
    } else if e.Release? {
      ReleaseKeepsGuards(s, e.c);
    } else if Inside(e) {
      InsideKeepsGuards(s, e);
    } else {
      OutsideKeepsGuards(s, e);
    }
  }

  /** Steps that keep their call inside the critical section. */
  predicate Inside(e: Event) {
    e.RecheckHit? || e.RecheckMiss? || e.RunOk? || e.RunErr? || e.Store?
  }

  lemma LockKeepsGuards(s: State, c: Caller)
    requires GuardsHeld(s) && Enabled(s, Lock(c))
    ensures GuardsHeld(Step(s, Lock(c)))
  {}

  lemma ReleaseKeepsGuards(s: State, c: Caller)
    requires GuardsHeld(s) && Enabled(s, Release(c))
    ensures GuardsHeld(Step(s, Release(c)))
  {}

  lemma InsideKeepsGuards(s: State, e: Event)
    requires GuardsHeld(s) && Enabled(s, e) && Inside(e)
    ensures GuardsHeld(Step(s, e))
  {}

  lemma OutsideKeepsGuards(s: State, e: Event)
    requires GuardsHeld(s) && Enabled(s, e) && !Inside(e) && !e.Lock? && !e.Release?
    ensures GuardsHeld(Step(s, e))
  {}

  lemma InvStep(s: State, e: Event)
    requires Inv(s) && Enabled(s, e)
    ensures Inv(Step(s, e))
  {
    GatesStep(s, e);
    GuardsStep(s, e);
  }

  lemma {:induction false} InvAlways(es: seq<Event>)
    requires Legal(es)
    ensures Inv(Run(es).value)
  {
    if es != [] {
      InvAlways(es[..|es| - 1]);
      InvStep(Run(es[..|es| - 1]).value, es[|es| - 1]);
    }
  }

  /** In every reachable state at most one call per key is past its gate: one execution in flight. */
  lemma OneExecutionPerKey(es: seq<Event>, c: Caller, d: Caller)
    requires Legal(es)
    requires var s := Run(es).value;
             c in s.calls && d in s.calls && s.calls[c].key == s.calls[d].key &&
             Critical(s.calls[c].pc) && Critical(s.calls[d].pc)
    ensures c == d
  {
    InvAlways(es);
  }

  // ---------------------------------------------------------------- what is served

  /** The `j`-th event stores `v` under `k` at time `created`. */
  ghost predicate StoredAt(es: seq<Event>, j: int, k: Key, v: Value, created: nat) {
    0 <= j < |es| && Legal(es[..j]) && es[j].Store? &&
    var s := Before(es, j);
    es[j].c in s.calls && s.calls[es[j].c].key == k && s.calls[es[j].c].pc.Ran? &&
    s.calls[es[j].c].pc.value == v && s.now == created
  }

  ghost predicate Stores(es: seq<Event>, j: int, k: Key) {
    exists v, created :: StoredAt(es, j, k, v, created)
  }

  predicate Drops(e: Event, k: Key) {
    e == Evict(k) || e.Flush?
  }

  /** Strictly between two positions the entry of `k` is neither dropped nor replaced. */
  ghost predicate Quiet(es: seq<Event>, from: int, to: int, k: Key) {
    forall i :: from < i < to && 0 <= i < |es| ==> !Drops(es[i], k) && !Stores(es, i, k)
  }

  lemma StoredAtExtends(es: seq<Event>, e: Event)
    ensures forall j, k, v, created :: 0 <= j < |es| ==>
              (StoredAt(es + [e], j, k, v, created) <==> StoredAt(es, j, k, v, created))
    ensures forall j, k :: 0 <= j < |es| ==> (Stores(es + [e], j, k) <==> Stores(es, j, k))
  {
    assert forall j :: 0 <= j < |es| ==> (es + [e])[..j] == es[..j];
  }

  /** What one event does to the entry of a key. */
  lemma EntryStep(s: State, e: Event, k: Key)
    requires Enabled(s, e)
    ensures var t := Step(s, e);
            t.now >= s.now &&
            if e.Store? && s.calls[e.c].key == k then
              k in t.entries && t.entries[k] == Entry(s.calls[e.c].pc.value, s.now)
            else
              (k in t.entries <==> k in s.entries && !Drops(e, k)) && (k in t.entries ==> t.entries[k] == s.entries[k])
  {}

  /** Every entry was stored by a finished execution of its own key, at its time stamp, and has
      been neither dropped nor replaced since. */
  lemma {:induction false} EntryOrigin(es: seq<Event>, k: Key) returns (j: int)
    requires Legal(es) && k in Run(es).value.entries
    ensures var entry := Run(es).value.entries[k];
            StoredAt(es, j, k, entry.value, entry.created) && Quiet(es, j, |es|, k)
  {
    var n := |es| - 1;
    var init, e := es[..n], es[n];
    assert es == init + [e];
    StoredAtExtends(init, e);
    var s := Run(init).value;
    EntryStep(s, e, k);
    if e.Store? && s.calls[e.c].key == k {
      j := n;
      assert StoredAt(es, j, k, s.calls[e.c].pc.value, s.now);
    } else {
      j := EntryOrigin(init, k);
      assert !Stores(es, n, k);
    }
  }

  /** A call is served from the cache only what the latest execution of its own key stored, with
      no eviction since, and less than its own time-to-live ago. */
  lemma ServedIsFresh(es: seq<Event>, i: nat) returns (j: int)
    requires Legal(es) && i < |es| && (es[i].LookHit? || es[i].RecheckHit?)
    ensures Legal(es[..i]) && es[i].c in Before(es, i).calls && FreshFor(Before(es, i), es[i].c).Some?
    ensures var s := Before(es, i);
            var call := s.calls[es[i].c];
            exists created ::
              StoredAt(es, j, call.key, FreshFor(s, es[i].c).value, created) && j < i && Quiet(es, j, i, call.key) &&
              s.now - created < call.ttl
  {
    LegalPrefix(es, i);
    var s := Before(es, i);
    var k := s.calls[es[i].c].key;
    j := EntryOrigin(es[..i], k);
    PrefixStores(es, i);
    assert StoredAt(es, j, k, s.entries[k].value, s.entries[k].created);
  }

  lemma PrefixStores(es: seq<Event>, i: nat)
    requires i <= |es|
    ensures forall j, k, v, created :: 0 <= j < i ==>
              (StoredAt(es[..i], j, k, v, created) <==> StoredAt(es, j, k, v, created))
    ensures forall j, k :: 0 <= j < i ==> (Stores(es[..i], j, k) <==> Stores(es, j, k))
  {
    assert forall j :: 0 <= j < i ==> es[..i][..j] == es[..j];
  }

  /** `i` is where call `c` obtained `v`: from its own execution or from the cache. */
  ghost predicate Obtained(es: seq<Event>, i: int, c: Caller, v: Value) {
    0 <= i < |es| && Legal(es[..i]) &&
    (es[i] == RunOk(c, v) ||
     ((es[i] == LookHit(c) || es[i] == RecheckHit(c)) && c in Before(es, i).calls &&
      FreshFor(Before(es, i), c) == Some(v)))
  }

  function ValueOf(pc: Pc): Option<Value> {
    match pc
    case Ran(_, v) => Some(v)
    case Leaving(_, Ok(v)) => Some(v)
    case Done(Ok(v)) => Some(v)
    case _ => None
  }

  /** What one event does to the value a call has obtained. */
  lemma ValueStep(s: State, e: Event, c: Caller, v: Value)
    requires Enabled(s, e) && c in Step(s, e).calls && ValueOf(Step(s, e).calls[c].pc) == Some(v)
    ensures e == RunOk(c, v) || ((e == LookHit(c) || e == RecheckHit(c)) && FreshFor(s, c) == Some(v)) ||
            (c in s.calls && ValueOf(s.calls[c].pc) == Some(v))
  {}

  /** Every value a call returns is the result of its own execution or was served fresh. */
  lemma {:induction false} ResultOrigin(es: seq<Event>, c: Caller) returns (i: int)
    requires Legal(es) && c in Run(es).value.calls && ValueOf(Run(es).value.calls[c].pc).Some?
    ensures Obtained(es, i, c, ValueOf(Run(es).value.calls[c].pc).value)
  {
    var n := |es| - 1;
    var init, e := es[..n], es[n];
    var s, v := Run(init).value, ValueOf(Run(es).value.calls[c].pc).value;
    ValueStep(s, e, c, v);
    if e == RunOk(c, v) || ((e == LookHit(c) || e == RecheckHit(c)) && FreshFor(s, c) == Some(v)) {
      i := n;
    } else {
      i := ResultOrigin(init, c);
      assert init[..i] == es[..i];
    }
  }

  // ---------------------------------------------------------------- executions are far apart

  /** `m` is where call `c`, now executing or about to store, found nothing fresh. */
  ghost predicate StartedAt(es: seq<Event>, m: int, c: Caller) {
    0 <= m < |es| && es[m] == RecheckMiss(c) && Legal(es[..m]) && c in Before(es, m).calls &&
    FreshFor(Before(es, m), c) == None
  }

  predicate InFlight(pc: Pc) {
    pc.Running? || pc.Ran?
  }

  /** Since an execution in flight started, no other execution of its key has stored anything. */
  lemma {:induction false} ExecutionStart(es: seq<Event>, c: Caller) returns (m: int)
    requires Legal(es) && c in Run(es).value.calls && InFlight(Run(es).value.calls[c].pc)
    ensures StartedAt(es, m, c)
    ensures var call := Run(es).value.calls[c];
            Before(es, m).calls[c].key == call.key && Before(es, m).calls[c].ttl == call.ttl &&
            forall i :: m < i < |es| ==> !Stores(es, i, call.key) && es[i] != RecheckMiss(c)
  {
    var n := |es| - 1;
    var init, e := es[..n], es[n];
    var s, k := Run(init).value, Run(es).value.calls[c].key;
    assert es == init + [e];
    StoredAtExtends(init, e);
    if e == RecheckMiss(c) {
      m := n;
    } else {
      m := ExecutionStart(init, c);
      assert init[..m] == es[..m];
      if Stores(es, n, k) {
        OneExecutionPerKey(init, c, e.c);
      }
    }
  }

  /** A stored entry stays, no older, until it is dropped. */
  lemma {:induction false} EntryStays(es: seq<Event>, i: nat, k: Key)
    requires Legal(es) && i < |es| && Stores(es, i, k)
    requires forall n :: i < n < |es| ==> !Drops(es[n], k)
    ensures var s := Run(es).value;
            k in s.entries && Legal(es[..i]) && s.entries[k].created >= Before(es, i).now && s.now >= Before(es, i).now
    decreases |es|
  {
    var n := |es| - 1;
    var init := es[..n];
    if i < n {
      PrefixStores(es, n);
      EntryStays(init, i, k);
      assert init[..i] == es[..i];
      InvAlways(init);
      EntryStep(Run(init).value, es[n], k);
    }
  }

  /** Two successful executions of a key are separated by an eviction of it or by the full
      time-to-live of the second: it only started after one or the other. */
  lemma SuccessesAreSeparated(es: seq<Event>, i: nat, j: nat, k: Key) returns (m: int)
    requires Legal(es) && i < j < |es| && Stores(es, i, k) && Stores(es, j, k)
    ensures Legal(es[..i]) && Legal(es[..j]) && es[j].Store? && es[j].c in Before(es, j).calls
    ensures i < m < j && StartedAt(es, m, es[j].c)
    ensures (exists n :: i < n < m && Drops(es[n], k)) ||
            Before(es, m).now - Before(es, i).now >= Before(es, j).calls[es[j].c].ttl
  {
    LegalPrefix(es, i);
    LegalPrefix(es, j);
    var c := es[j].c;
    m := ExecutionStart(es[..j], c);
    PrefixStores(es, j);
    assert es[..j][..m] == es[..m];
    if forall n :: i < n < m ==> !Drops(es[n], k) {
      PrefixStores(es, m);
      EntryStays(es[..m], i, k);
      assert es[..m][..i] == es[..i];
    }
  }

  // ---------------------------------------------------------------- every call finishes

  /** How many more steps a call can take. */
  function Rank(pc: Pc): nat {
    match pc
    case Calling => 8
    case Missed => 7
    case Waiting(_) => 6
    case Holding(_) => 5
    case Running(_) => 4
    case Ran(_, _) => 3
    case Leaving(_, _) => 2
    case Done(_) => 0
  }

  /** A step of a call in progress, as opposed to a new call, an eviction or the clock. */
  predicate CallStep(e: Event) {
    !e.Begin? && !e.Evict? && !e.Flush? && !e.Tick?
  }

  function Work(calls: map<Caller, Call>, callers: seq<Caller>): nat {
    if callers == [] then 0
    else (if callers[0] in calls then Rank(calls[callers[0]].pc) else 0) + Work(calls, callers[1..])
  }

  lemma {:induction false} WorkDrops(calls: map<Caller, Call>, next: map<Caller, Call>, callers: seq<Caller>, c: Caller)
    requires c in callers && c in calls && c in next && Rank(next[c].pc) < Rank(calls[c].pc)
    requires forall d :: d in callers && d != c ==> (d in calls <==> d in next) && (d in calls ==> calls[d] == next[d])
    ensures Work(next, callers) < Work(calls, callers)
    decreases |callers|
  {
    if c in callers[1..] {
      WorkDrops(calls, next, callers[1..], c);
    } else {
      SameWork(calls, next, callers[1..]);
    }
  }

  lemma {:induction false} SameWork(calls: map<Caller, Call>, next: map<Caller, Call>, callers: seq<Caller>)
    requires forall d :: d in callers ==> (d in calls <==> d in next) && (d in calls ==> calls[d] == next[d])
    ensures Work(next, callers) == Work(calls, callers)
  {
    if callers != [] {
      SameWork(calls, next, callers[1..]);
    }
  }

  /** The step a call can take next, or the call whose guard it waits for can. */
  lemma Progress(s: State, c: Caller) returns (e: Event)
    requires Inv(s) && c in s.calls && !s.calls[c].pc.Done?
    ensures Enabled(s, e) && CallStep(e)
  {
    var call := s.calls[c];
    if call.pc.Waiting? && call.pc.gate in s.owner {
      e := Advance(s, s.owner[call.pc.gate]);
    } else {
      e := Advance(s, c);
    }
  }

  lemma Advance(s: State, c: Caller) returns (e: Event)
    requires c in s.calls && !s.calls[c].pc.Done?
    requires s.calls[c].pc.Waiting? ==> s.calls[c].pc.gate !in s.owner
    ensures Enabled(s, e) && CallStep(e)
  {
    match s.calls[c].pc
    case Calling => e := if FreshFor(s, c).Some? then LookHit(c) else LookMiss(c);
    case Missed =>
      if s.calls[c].key in s.inflight {
        e := TakeGate(c, s.inflight[s.calls[c].key]);
      } else {
        var gate := Unused(s.inflight.Values);
        e := TakeGate(c, gate);
      }
    case Waiting(_) => e := Lock(c);
    case Holding(_) => e := if FreshFor(s, c).Some? then RecheckHit(c) else RecheckMiss(c);
    case Running(_) => e := RunErr(c, "");
    case Ran(_, _) => e := Store(c);
    case Leaving(_, _) => e := Release(c);
  }

  lemma {:induction false} Unused(used: set<Gate>) returns (gate: Gate)
    ensures gate !in used
    ensures forall g :: g in used ==> g < gate
    decreases used
  {
    gate := 0;
    if used != {} {
      var g :| g in used;
      var rest := Unused(used - {g});
      assert forall h :: h in used ==> h == g || h in used - {g};
      gate := if g < rest then rest else g + 1;
    }
  }

  lemma CallStepDropsWork(s: State, e: Event, callers: seq<Caller>)
    requires Enabled(s, e) && CallStep(e) && forall c :: c in s.calls ==> c in callers
    ensures Work(Step(s, e).calls, callers) < Work(s.calls, callers)
    ensures Step(s, e).calls.Keys == s.calls.Keys
  {
    WorkDrops(s.calls, Step(s, e).calls, callers, e.c);
  }

  ghost predicate Finished(s: State) {
    forall c :: c in s.calls ==> s.calls[c].pc.Done?
  }

  /** No reachable state deadlocks, and calls cannot go on for ever: however the steps of the calls
      in progress are interleaved there are at most `Work` of them, and when none is possible any
      more every call has returned. */
  lemma {:induction false} CallsFinish(es: seq<Event>, more: seq<Event>, callers: seq<Caller>)
    requires Legal(es + more) && forall i :: 0 <= i < |more| ==> CallStep(more[i])
    requires Legal(es) && forall c :: c in Run(es).value.calls ==> c in callers
    ensures |more| <= Work(Run(es).value.calls, callers) - Work(Run(es + more).value.calls, callers)
    ensures Run(es + more).value.calls.Keys == Run(es).value.calls.Keys
    ensures (forall e :: CallStep(e) ==> !Enabled(Run(es + more).value, e)) ==> Finished(Run(es + more).value)
    decreases |more|
  {
    var s := Run(es + more).value;
    InvAlways(es + more);
    if more == [] {
      assert es + more == es;
    } else {
      var init, last := more[..|more| - 1], more[|more| - 1];
      assert (es + more)[..|es + more| - 1] == es + init;
      CallsFinish(es, init, callers);
      CallStepDropsWork(Run(es + init).value, last, callers);
    }
    if c :| c in s.calls && !s.calls[c].pc.Done? {
      var e := Progress(s, c);
    }
  }

  // ---------------------------------------------------------------- what an eviction achieves

  /** Some execution of `k` is under way. */
  ghost predicate Executing(s: State, k: Key) {
    exists c :: c in s.calls && s.calls[c].key == k && InFlight(s.calls[c].pc)
  }

  /** The execution that starts at `m` is the one that stores at `j`. */
  ghost predicate Executes(es: seq<Event>, m: int, j: int, k: Key) {
    m < j && Stores(es, j, k) && StartedAt(es, m, es[j].c) && forall i :: m < i < j ==> es[i] != RecheckMiss(es[j].c)
  }

  /** The `n`-th event serves the entry of `k` that the execution of `m` to `j` stored. */
  ghost predicate ServesExecution(es: seq<Event>, n: int, k: Key, m: int, j: int) {
    0 <= n < |es| && (es[n].LookHit? || es[n].RecheckHit?) && Legal(es[..n]) && es[n].c in Before(es, n).calls &&
    Before(es, n).calls[es[n].c].key == k && j < n && Executes(es, m, j, k) && Quiet(es, j, n, k)
  }

  lemma {:induction false} InFlightSince(es: seq<Event>, i: nat, c: Caller)
    requires Legal(es) && i <= |es| && c in Run(es).value.calls && InFlight(Run(es).value.calls[c].pc)
    requires forall n :: i <= n < |es| ==> es[n] != RecheckMiss(c)
    ensures Legal(es[..i]) && c in Before(es, i).calls && InFlight(Before(es, i).calls[c].pc)
    ensures Before(es, i).calls[c].key == Run(es).value.calls[c].key
    decreases |es|
  {
    if i == |es| {
      assert es[..i] == es;
    } else {
      var n := |es| - 1;
      InFlightSince(es[..n], i, c);
      assert es[..n][..i] == es[..i];
    }
  }

  /** With no execution of the key under way, nothing computed before an eviction or a flush is served after it. */
  lemma EvictionHolds(es: seq<Event>, i: nat, k: Key, n: int, m: int, j: int)
    requires Legal(es) && i < |es| && Drops(es[i], k) && i < n && m < i && ServesExecution(es, n, k, m, j)
    ensures Legal(es[..i]) && Executing(Before(es, i), k)
  {
    LegalPrefix(es, j);
    assert i < j by {
      assert Drops(es[i], k);
    }
    var c := es[j].c;
    assert forall x :: i <= x < j ==> es[..j][x] != RecheckMiss(c);
    InFlightSince(es[..j], i, c);
    assert es[..j][..i] == es[..i];
  }

  lemma Extend(es: seq<Event>, e: Event)
    requires Legal(es) && Enabled(Run(es).value, e)
    ensures Legal(es + [e]) && Run(es + [e]).value == Step(Run(es).value, e)
    ensures forall i :: 0 <= i <= |es| ==> (es + [e])[..i] == es[..i]
  {
    assert (es + [e])[..|es|] == es;
  }

  /** Let an execution in flight come to its store. */
  lemma FinishExecution(es: seq<Event>, c: Caller) returns (ran: seq<Event>)
    requires Legal(es) && c in Run(es).value.calls && InFlight(Run(es).value.calls[c].pc)
    ensures Legal(ran) && es <= ran && (forall i :: |es| <= i < |ran| ==> ran[i].RunOk?)
    ensures var s, t := Run(es).value, Run(ran).value;
            t.calls.Keys == s.calls.Keys && t.calls[c].pc.Ran? && t.calls[c].key == s.calls[c].key
  {
    if Run(es).value.calls[c].pc.Running? {
      Extend(es, RunOk(c, Null));
      ran := es + [RunOk(c, Null)];
    } else {
      ran := es;
    }
  }

  /** Store the result of `c`, and serve it to a new call `d`. */
  lemma StoreAndServe(ran: seq<Event>, c: Caller, d: Caller, k: Key) returns (all: seq<Event>)
    requires Legal(ran) && c in Run(ran).value.calls && d !in Run(ran).value.calls
    requires Run(ran).value.calls[c].pc.Ran? && Run(ran).value.calls[c].key == k
    ensures all == ran + [Store(c), Begin(d, k, 1), LookHit(d)] && Legal(all)
    ensures Stores(all, |ran|, k) && Quiet(all, |ran|, |ran| + 2, k)
    ensures Legal(all[..|ran| + 2]) && d in Before(all, |ran| + 2).calls && Before(all, |ran| + 2).calls[d].key == k
  {
    Extend(ran, Store(c));
    var stored := ran + [Store(c)];
    Extend(stored, Begin(d, k, 1));
    var begun := stored + [Begin(d, k, 1)];
    Extend(begun, LookHit(d));
    all := begun + [LookHit(d)];
    assert all[..|ran|] == ran && all[..|ran| + 2] == begun;
    assert StoredAt(all, |ran|, k, Run(ran).value.calls[c].pc.value, Run(ran).value.now);
  }

  /** An execution that comes to its store is then served. */
  lemma ExecutionServed(ran: seq<Event>, c: Caller, d: Caller, k: Key, m: int) returns (all: seq<Event>)
    requires Legal(ran) && c in Run(ran).value.calls && d !in Run(ran).value.calls
    requires Run(ran).value.calls[c].pc.Ran? && Run(ran).value.calls[c].key == k
    requires StartedAt(ran, m, c) && forall i :: m < i < |ran| ==> ran[i] != RecheckMiss(c)
    ensures all == ran + [Store(c), Begin(d, k, 1), LookHit(d)] && Legal(all)
    ensures ServesExecution(all, |ran| + 2, k, m, |ran|)
  {
    all := StoreAndServe(ran, c, d, k);
    StartedEarlier(ran, all, m, c);
    assert forall i :: m < i < |ran| ==> all[i] == ran[i];
    assert Executes(all, m, |ran|, k);
  }

  /** An execution of `k` under way comes to its store, and has not started anew since `m`. */
  lemma ExecutionComes(es: seq<Event>, k: Key) returns (ran: seq<Event>, c: Caller, m: int)
    requires Legal(es) && Executing(Run(es).value, k)
    ensures es <= ran && Legal(ran) && m < |es| && StartedAt(es, m, c) && StartedAt(ran, m, c)
    ensures c in Run(ran).value.calls && Run(ran).value.calls[c].pc.Ran? && Run(ran).value.calls[c].key == k
    ensures forall i :: m < i < |ran| ==> ran[i] != RecheckMiss(c)
  {
    c :| c in Run(es).value.calls && Run(es).value.calls[c].key == k && InFlight(Run(es).value.calls[c].pc);
    m := ExecutionStart(es, c);
    ran := FinishExecution(es, c);
    StartedEarlier(es, ran, m, c);
    assert forall i :: m < i < |es| ==> ran[i] == es[i];
  }

  /** The rest of a run in which an execution survives an eviction, or a flush, and is then served. */
  lemma EvictionRaces(es: seq<Event>, k: Key) returns (more: seq<Event>, m: int, j: int)
    requires Legal(es) && es != [] && Drops(es[|es| - 1], k) && Executing(Run(es).value, k)
    ensures Legal(es + more) && m < |es| - 1 && |more| > 0
    ensures ServesExecution(es + more, |es + more| - 1, k, m, j)
  {
    var ran, c;
    ran, c, m := ExecutionComes(es, k);
    j := |ran|;
    var d := Unused(Run(ran).value.calls.Keys);
    var all := ExecutionServed(ran, c, d, k, m);
    more := all[|es|..];
    assert es <= all;
    assert es + more == all;
  }

  lemma StartedEarlier(es: seq<Event>, all: seq<Event>, m: int, c: Caller)
    requires es <= all && StartedAt(es, m, c)
    ensures StartedAt(all, m, c)
  {
    assert all[..m] == es[..m];
  }

  lemma DropRunsNothing(es: seq<Event>, k: Key)
    requires Legal(es) && es != [] && Drops(es[|es| - 1], k)
    ensures Legal(es[..|es| - 1]) && (Executing(Before(es, |es| - 1), k) <==> Executing(Run(es).value, k))
  {
    assert Run(es).value.calls == Before(es, |es| - 1).calls;
  }

  lemma {:induction false} EvictionHoldsAfter(es: seq<Event>, more: seq<Event>, k: Key, n: int, m: int, j: int)
    requires Legal(es) && es != [] && Drops(es[|es| - 1], k) && !Executing(Run(es).value, k)
    requires Legal(es + more) && n >= |es| && ServesExecution(es + more, n, k, m, j)
    ensures m >= |es| - 1
  {
    var all, i := es + more, |es| - 1;
    DropRunsNothing(es, k);
    assert all[..i] == es[..i] && all[i] == es[i];
    if m < i {
      EvictionHolds(all, i, k, n, m, j);
    }
  }

  /** An eviction, or a flush, makes sure that the next value served is computed anew if and only if no
      execution of the key is under way: one that is stores its older result afterwards. */
  lemma EvictionIsEffective(es: seq<Event>, k: Key)
    requires Legal(es) && es != [] && Drops(es[|es| - 1], k)
    ensures !Executing(Run(es).value, k) <==>
            forall more, n, m, j :: Legal(es + more) && n >= |es| && ServesExecution(es + more, n, k, m, j) ==>
              m >= |es| - 1
  {
    if Executing(Run(es).value, k) {
      var more, m, j := EvictionRaces(es, k);
      assert ServesExecution(es + more, |es + more| - 1, k, m, j);
    } else {
      forall more, n, m, j | Legal(es + more) && n >= |es| && ServesExecution(es + more, n, k, m, j)
        ensures m >= |es| - 1
      {
        EvictionHoldsAfter(es, more, k, n, m, j);
      }
    }
  }

  // ---------------------------------------------------------------- the code that updates in place

  /** The shared maps, the clock and the program counters of the calls in progress. Each method is
      one section the source runs under a lock, or one return from outside it, so the calls of any
      number of threads are an interleaving of these methods. `history` is the run so far. */
  class Cache {
    var now: nat
    var entries: map<Key, Entry>
    var inflight: map<Key, Gate>
    var owner: map<Gate, Caller>
    var calls: map<Caller, Call>
    ghost var history: seq<Event>

    function Snapshot(): State
      reads this
    {
      State(now, entries, inflight, owner, calls)
    }

    ghost predicate Valid()
      reads this
    {
      Run(history) == Some(Snapshot())
    }

    constructor ()
      ensures Valid() && Snapshot() == INITIAL && history == []
    {
      now, entries, inflight, owner, calls, history := 0, map[], map[], map[], map[], [];
    }

    /** Note that an event happened. */
    ghost method Log(e: Event, was: State)
      requires Run(history) == Some(was) && Enabled(was, e) && Snapshot() == Step(was, e)
      modifies this`history
      ensures Valid() && history == old(history) + [e]
    {
      Extend(history, e);
      history := history + [e];
    }

    /** The state is what `e` makes of `was`. */
    ghost predicate Follows(was: State, e: Event)
      reads this
    {
      Enabled(was, e) && Snapshot() == Step(was, e)
    }

    method Start(c: Caller, key: Key, ttl: nat)
      requires Valid() && c !in calls
      modifies this
      ensures Valid() && history == old(history) + [Begin(c, key, ttl)]
      ensures Follows(old(Snapshot()), Begin(c, key, ttl))
    {
      ghost var was := Snapshot();
      calls := calls[c := Call(key, ttl, Calling)];
      Log(Begin(c, key, ttl), was);
    }

    /** `fresh` before the gate (browser.rs:960-962). */
    method Look(c: Caller) returns (hit: Option<Value>)
      requires Valid() && c in calls && calls[c].pc == Calling
      modifies this
      ensures Valid() && hit == FreshFor(old(Snapshot()), c)
      ensures history == old(history) + [if hit.Some? then LookHit(c) else LookMiss(c)]
      ensures Follows(old(Snapshot()), if hit.Some? then LookHit(c) else LookMiss(c))
    {
      ghost var was := Snapshot();
      hit := Fresh(entries, now, calls[c].key, calls[c].ttl);
      calls := calls[c := calls[c].(pc := if hit.Some? then Done(Ok(hit.value)) else Missed)];
      Log(if hit.Some? then LookHit(c) else LookMiss(c), was);
    }

    /** `inflight.entry(key).or_default()`: `unused` is the address a new gate would get (browser.rs:964-970). */
    method EnterGate(c: Caller, unused: Gate)
      requires Valid() && c in calls && calls[c].pc == Missed && unused !in inflight.Values
      modifies this
      ensures Valid()
      ensures var k := old(calls)[c].key;
              var e := TakeGate(c, if k in old(inflight) then old(inflight)[k] else unused);
              history == old(history) + [e] && Follows(old(Snapshot()), e)
    {
      ghost var was := Snapshot();
      var key := calls[c].key;
      if key !in inflight {
        inflight := inflight[key := unused];
      }
      calls := calls[c := calls[c].(pc := Waiting(inflight[key]))];
      assert Snapshot() == Step(was, TakeGate(c, inflight[key]));
      Log(TakeGate(c, inflight[key]), was);
    }

    method LockGate(c: Caller)
      requires Valid() && c in calls && calls[c].pc.Waiting? && calls[c].pc.gate !in owner
      modifies this
      ensures Valid() && history == old(history) + [Lock(c)]
      ensures Follows(old(Snapshot()), Lock(c))
    {
      ghost var was := Snapshot();
      var gate := calls[c].pc.gate;
      owner, calls := owner[gate := c], calls[c := calls[c].(pc := Holding(gate))];
      Log(Lock(c), was);
    }

    /** `fresh` behind the gate (browser.rs:973-976). */
    method Recheck(c: Caller) returns (hit: Option<Value>)
      requires Valid() && c in calls && calls[c].pc.Holding?
      modifies this
      ensures Valid() && hit == FreshFor(old(Snapshot()), c)
      ensures history == old(history) + [if hit.Some? then RecheckHit(c) else RecheckMiss(c)]
      ensures Follows(old(Snapshot()), if hit.Some? then RecheckHit(c) else RecheckMiss(c))
    {
      ghost var was := Snapshot();
      var gate := calls[c].pc.gate;
      hit := Fresh(entries, now, calls[c].key, calls[c].ttl);
      calls := calls[c := calls[c].(pc := if hit.Some? then Leaving(gate, Ok(hit.value)) else Running(gate))];
      Log(if hit.Some? then RecheckHit(c) else RecheckMiss(c), was);
    }

    /** `execute` returns; its failure is not cached (browser.rs:978). */
    method Return(c: Caller, result: Result<Value, string>)
      requires Valid() && c in calls && calls[c].pc.Running?
      modifies this
      ensures Valid()
      ensures history == old(history) + [match result case Ok(v) => RunOk(c, v) case Err(e) => RunErr(c, e)]
      ensures Follows(old(Snapshot()), match result case Ok(v) => RunOk(c, v) case Err(e) => RunErr(c, e))
    {
      ghost var was := Snapshot();
      var gate := calls[c].pc.gate;
      match result {
        case Ok(v) =>
          calls := calls[c := calls[c].(pc := Ran(gate, v))];
          Log(RunOk(c, v), was);
        case Err(e) =>
          calls := calls[c := calls[c].(pc := Leaving(gate, Err(e)))];
          Log(RunErr(c, e), was);
      }
    }

    /** `cache.insert` (browser.rs:980-988). */
    method Insert(c: Caller)
      requires Valid() && c in calls && calls[c].pc.Ran?
      modifies this
      ensures Valid() && history == old(history) + [Store(c)]
      ensures Follows(old(Snapshot()), Store(c))
    {
      ghost var was := Snapshot();
      var gate, value := calls[c].pc.gate, calls[c].pc.value;
      entries := entries[calls[c].key := Entry(value, now)];
      calls := calls[c := calls[c].(pc := Leaving(gate, Ok(value)))];
      Log(Store(c), was);
    }

    /** The guard is dropped as `get_or_exec` returns. */
    method DropGuard(c: Caller)
      requires Valid() && c in calls && calls[c].pc.Leaving?
      modifies this
      ensures Valid() && history == old(history) + [Release(c)]
      ensures Follows(old(Snapshot()), Release(c))
    {
      ghost var was := Snapshot();
      var pc := calls[c].pc;
      owner, calls := owner - {pc.gate}, calls[c := calls[c].(pc := Done(pc.result))];
      Log(Release(c), was);
    }

    method EvictKey(key: Key)
      requires Valid()
      modifies this
      ensures Valid() && history == old(history) + [Evict(key)]
      ensures Follows(old(Snapshot()), Evict(key))
    {
      ghost var was := Snapshot();
      entries := entries - {key};
      Log(Evict(key), was);
    }

    method FlushAll()
      requires Valid()
      modifies this
      ensures Valid() && history == old(history) + [Flush]
      ensures Follows(old(Snapshot()), Flush)
    {
      ghost var was := Snapshot();
      entries := map[];
      Log(Flush, was);
    }

    method Pass(elapsed: nat)
      requires Valid()
      modifies this
      ensures Valid() && history == old(history) + [Tick(elapsed)]
      ensures Follows(old(Snapshot()), Tick(elapsed))
    {
      ghost var was := Snapshot();
      now := now + elapsed;
      Log(Tick(elapsed), was);
    }

    /** One whole `get_or_exec` that nobody interferes with: the command takes `elapsed` and returns
        `outcome` if it is run at all. */
    method GetOrExec(c: Caller, key: Key, ttl: nat, unused: Gate, elapsed: nat, outcome: Result<Value, string>)
      returns (result: Result<Value, string>)
      requires Valid() && c !in calls && unused !in inflight.Values && unused !in owner
      requires key in inflight ==> inflight[key] !in owner
      modifies this
      ensures Valid() && c in calls && calls[c].pc == Done(result)
      ensures var hit := Fresh(old(entries), old(now), key, ttl);
              if hit.Some? then
                result == Ok(hit.value) && entries == old(entries) && now == old(now)
              else
                result == outcome && now == old(now) + elapsed &&
                entries == if outcome.Ok? then old(entries)[key := Entry(outcome.value, now)] else old(entries)
    {
      Start(c, key, ttl);
      var hit := Look(c);
      if hit.Some? {
        return Ok(hit.value);
      }
      RunBehindGate(c, unused, elapsed, outcome);
      result := outcome;
    }

    /** A call that missed and that nobody interferes with runs the command. */
    method RunBehindGate(c: Caller, unused: Gate, elapsed: nat, outcome: Result<Value, string>)
      requires Valid() && c in calls && calls[c].pc == Missed && FreshFor(Snapshot(), c) == None
      requires unused !in inflight.Values && unused !in owner
      requires calls[c].key in inflight ==> inflight[calls[c].key] !in owner
      modifies this
      ensures Valid() && c in calls && calls[c].pc == Done(outcome) && now == old(now) + elapsed
      ensures entries ==
              if outcome.Ok? then old(entries)[old(calls)[c].key := Entry(outcome.value, now)] else old(entries)
    {
      EnterGate(c, unused);
      LockGate(c);
      var hit := Recheck(c);
      RunAndStore(c, elapsed, outcome);
    }

    /** Behind the gate: execute, store a success, leave. */
    method RunAndStore(c: Caller, elapsed: nat, outcome: Result<Value, string>)
      requires Valid() && c in calls && calls[c].pc.Running?
      modifies this
      ensures Valid() && c in calls && calls[c].pc == Done(outcome) && now == old(now) + elapsed
      ensures entries ==
              if outcome.Ok? then old(entries)[old(calls)[c].key := Entry(outcome.value, now)] else old(entries)
    {
      Pass(elapsed);
      Return(c, outcome);
      if outcome.Ok? {
        Insert(c);
      }
      DropGuard(c);
    }
  }

  // ---------------------------------------------------------------- the key tells commands apart

  predicate Clean(s: string) {
    SEP !in s
  }

  /** The components a key is built from hold no separator, and neither is the empty one that
      reads like an absent one. */
  predicate CleanCommand(c: ResolvedCommand) {
    (c.cwd.Some? ==> c.cwd.value != "" && Clean(c.cwd.value)) &&
    match c.exec
    case Shell(line) => Clean(line)
    case Argv(argv) => argv != [] && forall i :: 0 <= i < |argv| ==> Clean(argv[i])
  }

  lemma SplitAtSeparator(a: string, x: string, b: string, y: string)
    requires Clean(a) && Clean(b) && a + [SEP] + x == b + [SEP] + y
    ensures a == b && x == y
  {
    var s := a + [SEP] + x;
    assert s[|a|] == SEP && s[|b|] == SEP;
    assert |a| == |b|;
    assert a == s[..|a|] && b == s[..|b|] && x == s[|a| + 1..] && y == s[|b| + 1..];
  }

  lemma JoinedArgvSeparates(a: seq<string>)
    requires a != [] && Clean(a[0])
    ensures |a| > 1 <==> !Clean(JoinedArgv(a))
  {
    if |a| > 1 {
      assert JoinedArgv(a)[|a[0]|] == SEP;
    }
  }

  lemma {:induction false} JoinedArgvInjective(a: seq<string>, b: seq<string>)
    requires a != [] && b != [] && JoinedArgv(a) == JoinedArgv(b)
    requires forall i :: 0 <= i < |a| ==> Clean(a[i])
    requires forall i :: 0 <= i < |b| ==> Clean(b[i])
    ensures a == b
    decreases |a|
  {
    JoinedArgvSeparates(a);
    JoinedArgvSeparates(b);
    if |a| > 1 && |b| > 1 {
      SplitAtSeparator(a[0], JoinedArgv(a[1..]), b[0], JoinedArgv(b[1..]));
      JoinedArgvInjective(a[1..], b[1..]);
      assert a == [a[0]] + a[1..] && b == [b[0]] + b[1..];
    }
  }

  /** Clean commands share a cache entry exactly when they run the same line or argv in the same directory,
      whatever else they say. */
  lemma KeyIdentifies(c: ResolvedCommand, d: ResolvedCommand)
    requires CleanCommand(c) && CleanCommand(d)
    ensures KeyOf(c) == KeyOf(d) <==> c.exec == d.exec && c.cwd == d.cwd
  {
    if KeyOf(c) == KeyOf(d) {
      KeyInjective(c, d);
    }
  }

  lemma KeyInjective(c: ResolvedCommand, d: ResolvedCommand)
    requires CleanCommand(c) && CleanCommand(d) && KeyOf(c) == KeyOf(d)
    ensures c.exec == d.exec && c.cwd == d.cwd
  {
    var cwd1 := if c.cwd.Some? then c.cwd.value else "";
    var cwd2 := if d.cwd.Some? then d.cwd.value else "";
    SplitAtSeparator(cwd1, KeyOf(c)[|cwd1| + 1..], cwd2, KeyOf(d)[|cwd2| + 1..]);
    var tail1, tail2 := KeyOf(c)[|cwd1| + 1..], KeyOf(d)[|cwd2| + 1..];
    assert tail1[0] == 's' <==> c.exec.Shell?;
    assert tail2[0] == 's' <==> d.exec.Shell?;
    if c.exec.Shell? {
      assert tail1[3..] == c.exec.line && tail2[3..] == d.exec.line;
    } else {
      assert tail1[5..] == JoinedArgv(c.exec.argv) && tail2[5..] == JoinedArgv(d.exec.argv);
      JoinedArgvInjective(c.exec.argv, d.exec.argv);
    }
  }

  /** Each restriction is needed, and the output mode is no part of the key: these are different commands
      under one key. */
  lemma KeyCollisions(c: ResolvedCommand)
    ensures KeyOf(c.(cwd := None)) == KeyOf(c.(cwd := Some("")))
    ensures KeyOf(c.(exec := Argv([]))) == KeyOf(c.(exec := Argv([""])))
    ensures KeyOf(c.(exec := Argv(["a", "b"]))) == KeyOf(c.(exec := Argv(["a" + [SEP] + "b"])))
    ensures KeyOf(c.(output := JsonOutput)) == KeyOf(c.(output := LinesOutput))
  {
    assert ["a", "b"][1..] == ["b"];
  }
}
