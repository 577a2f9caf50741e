/**
  The labelled gauge: one exporter total and one shadow entry per label key, entries being created
  on first use. Seen through any one key it behaves as a simple gauge.
 */
module MultiGauges {
  import opened Schedules
  import opened Wrappers
  import G = Gauges

  /** The label values. */
  type Key = seq<string>

  /** Where a thread stands inside a call on a key; `loadedAt` counts the effects the key's shadow had taken. */
  datatype Stage =
    | AddToExporter(amount: real)
    | AddCheck(amount: real)
    | AddInsert(amount: real)
    | AddLookup(amount: real)
    | LoadShadow(amount: real)
    | CompareExchange(amount: real, current: real, loadedAt: nat)
    | SetCheck(value: real)
    | SetInsert(value: real)
    | SetLookup(value: real)
    | SwapShadow(value: real)
    | CorrectExporter(delta: real)

  datatype Pc = Idle | In(key: Key, stage: Stage)

  /** The exporter's totals, the shadow entries, the threads, and each key's history. */
  datatype Gauge = Gauge(totals: map<Key, real>, shadows: map<Key, real>, threads: seq<Pc>,
                         issued: map<Key, seq<G.Effect>>, log: map<Key, seq<G.Effect>>)

  datatype Move = CallAdd(key: Key, amount: real) | CallSet(key: Key, value: real) | Advance | FailSpuriously

  /** The exporter shows zero for a key it was never told about. */
  function At(m: map<Key, real>, key: Key): (v: real) {
    if key in m then m[key] else 0.0
  }

  function History(m: map<Key, seq<G.Effect>>, key: Key): (es: seq<G.Effect>) {
    if key in m then m[key] else []
  }

  /** `get`: nothing for a key without an entry. */
  function Get(s: Gauge, key: Key): (v: Option<real>) {
    if key in s.shadows then Some(s.shadows[key]) else None
  }

  /** What a step does to its own key: the next stage, the total, the entry, the effects issued and taken. */
  datatype Outcome = Outcome(next: Option<Stage>, total: real, entry: Option<real>,
                             issued: seq<G.Effect>, taken: seq<G.Effect>)

  function Value(entry: Option<real>): (v: real) {
    if entry.Some? then entry.value else 0.0
  }

  /** `taken` counts the effects the entry has taken so far. */
  function Local(stage: Stage, move: Move, total: real, entry: Option<real>, taken: nat): (o: Option<Outcome>)
  {
    match (stage, move)
    case (AddToExporter(d), Advance) => Some(Outcome(Some(AddCheck(d)), total + d, entry, [], []))
    case (AddCheck(d), Advance) =>
      Some(Outcome(Some(if entry.Some? then AddLookup(d) else AddInsert(d)), total, entry, [], []))
    case (AddInsert(d), Advance) => // an entry made in the meantime stays as it is
      Some(Outcome(Some(AddLookup(d)), total, Some(Value(entry)), [], []))
    case (AddLookup(d), Advance) =>
      Some(Outcome(if entry.Some? then Some(LoadShadow(d)) else None, total, entry, [], []))
    case (LoadShadow(d), Advance) =>
      Some(Outcome(Some(CompareExchange(d, Value(entry), taken)), total, entry, [], []))
    case (CompareExchange(d, current, _), Advance) =>
      if Value(entry) == current then Some(Outcome(None, total, Some(current + d), [], [G.Added(d)]))
      else Some(Outcome(Some(LoadShadow(d)), total, entry, [], []))
    case (CompareExchange(d, _, _), FailSpuriously) =>
      Some(Outcome(Some(LoadShadow(d)), total, entry, [], []))
    case (SetCheck(v), Advance) =>
      Some(Outcome(Some(if entry.Some? then SetLookup(v) else SetInsert(v)), total, entry, [], []))
    case (SetInsert(v), Advance) =>
      Some(Outcome(Some(SetLookup(v)), total, Some(Value(entry)), [], []))
    case (SetLookup(v), Advance) =>
      Some(Outcome(if entry.Some? then Some(SwapShadow(v)) else None, total, entry, [], []))
    case (SwapShadow(v), Advance) =>
      Some(Outcome(Some(CorrectExporter(v - Value(entry))), total, Some(v), [], [G.Stored(v)]))
    case (CorrectExporter(delta), Advance) => Some(Outcome(None, total + delta, entry, [], []))
    case _ => None
  }

  function Update(s: Gauge, i: nat, k: Key, o: Outcome): (s': Gauge)
    requires i < |s.threads|
  {
    Gauge(s.totals[k := o.total],
          if o.entry.Some? then s.shadows[k := o.entry.value] else s.shadows,
          s.threads[i := if o.next.Some? then In(k, o.next.value) else Idle],
          s.issued[k := History(s.issued, k) + o.issued],
          s.log[k := History(s.log, k) + o.taken])
  }

  /** The key a step is about, and what it does there. */
  function Plan(s: Gauge, i: nat, move: Move): (r: Option<(Key, Outcome)>)
  {
    if i >= |s.threads| then None
    else
      match s.threads[i]
      case Idle =>
        (match move
         case CallAdd(k, d) =>
           Some((k, Outcome(Some(AddToExporter(d)), At(s.totals, k), Get(s, k), [G.Added(d)], [])))
         case CallSet(k, v) =>
           Some((k, Outcome(Some(SetCheck(v)), At(s.totals, k), Get(s, k), [G.Stored(v)], [])))
         case _ => None)
      case In(k, stage) =>
        match Local(stage, move, At(s.totals, k), Get(s, k), |History(s.log, k)|)
        case None => None
        case Some(o) => Some((k, o))
  }

  function Apply(s: Gauge, i: nat, move: Move): (s': Option<Gauge>)
  {
    match Plan(s, i, move)
    case None => None
    case Some((k, o)) => Some(Update(s, i, k, o))
  }

  predicate Quiescent(s: Gauge) {
    forall i :: 0 <= i < |s.threads| ==> s.threads[i] == Idle
  }

  predicate Fresh(s: Gauge) {
    s.totals == map[] && s.shadows == map[] && s.issued == map[] && s.log == map[] && Quiescent(s)
  }

  // ----- one key of a labelled gauge is a simple gauge

  function StagePc(stage: Stage): (p: G.Pc)
  {
    match stage
    case AddToExporter(d) => G.AddToExporter(d)
    case AddCheck(d) => G.LoadShadow(d)
    case AddInsert(d) => G.LoadShadow(d)
    case AddLookup(d) => G.LoadShadow(d)
    case LoadShadow(d) => G.LoadShadow(d)
    case CompareExchange(d, c, at) => G.CompareExchange(d, c, at)
    case SetCheck(v) => G.SwapShadow(v)
    case SetInsert(v) => G.SwapShadow(v)
    case SetLookup(v) => G.SwapShadow(v)
    case SwapShadow(v) => G.SwapShadow(v)
    case CorrectExporter(delta) => G.CorrectExporter(delta)
  }

  function ProjectPc(pc: Pc, key: Key): (p: G.Pc) {
    if pc.In? && pc.key == key then StagePc(pc.stage) else G.Idle
  }

  function ProjectThreads(ts: seq<Pc>, key: Key): (ps: seq<G.Pc>)
    ensures |ps| == |ts| && forall i :: 0 <= i < |ts| ==> ps[i] == ProjectPc(ts[i], key)
  {
    seq(|ts|, i requires 0 <= i < |ts| => ProjectPc(ts[i], key))
  }

  function Project(s: Gauge, key: Key): (g: G.Gauge) {
    G.Gauge(At(s.totals, key), At(s.shadows, key), ProjectThreads(s.threads, key),
            History(s.issued, key), History(s.log, key))
  }

  /** The stages that rely on the entry being there. */
  predicate NeedsEntry(stage: Stage) {
    stage.AddLookup? || stage.LoadShadow? || stage.CompareExchange? || stage.SetLookup? || stage.SwapShadow?
  }

  /**
    A thread that has passed `ensure_shadow` finds its entry, a thread inside a call has issued it,
    and a key has an entry only if it was called, and always if its shadow has taken an effect.
   */
  predicate WellFormed(s: Gauge) {
    && (forall i :: 0 <= i < |s.threads| && s.threads[i].In? ==>
         && (NeedsEntry(s.threads[i].stage) ==> s.threads[i].key in s.shadows)
         && History(s.issued, s.threads[i].key) != [])
    && (forall k :: k in s.shadows ==> History(s.issued, k) != [])
    && (forall k :: k in s.log && s.log[k] != [] ==> k in s.shadows)
  }

  /** What a step leaves behind for its own key. */
  lemma StepOutcome(s: Gauge, i: nat, move: Move)
    requires WellFormed(s) && Plan(s, i, move).Some?
    ensures var (k, o) := Plan(s, i, move).value;
            && (Get(s, k).Some? ==> o.entry.Some?)
            && (o.next.Some? && NeedsEntry(o.next.value) ==> o.entry.Some?)
            && (o.taken != [] ==> o.entry.Some?)
            && History(s.issued, k) + o.issued != []
  {}

  lemma UpdateWellFormed(s: Gauge, i: nat, k: Key, o: Outcome)
    requires WellFormed(s) && i < |s.threads|
    requires Get(s, k).Some? ==> o.entry.Some?
    requires o.next.Some? && NeedsEntry(o.next.value) ==> o.entry.Some?
    requires o.taken != [] ==> o.entry.Some?
    requires History(s.issued, k) + o.issued != []
    ensures WellFormed(Update(s, i, k, o))
  {
    var s' := Update(s, i, k, o);
    forall k' | k' in s'.log && s'.log[k'] != [] ensures k' in s'.shadows {
      if k' == k && o.taken == [] {
        assert k in s.log && s.log[k] != [];
      }
    }
    hide Update;
    assert s'.issued == s.issued[k := History(s.issued, k) + o.issued];
    forall k' | History(s.issued, k') != [] ensures History(s'.issued, k') != [] {
      if k' == k {
        assert History(s'.issued, k) == History(s.issued, k) + o.issued;
      }
    }
  }

  lemma StepWellFormed(s: Gauge, i: nat, move: Move)
    requires WellFormed(s) && Apply(s, i, move).Some?
    ensures WellFormed(Apply(s, i, move).value)
  {
    StepOutcome(s, i, move);
    var (k, o) := Plan(s, i, move).value;
    UpdateWellFormed(s, i, k, o);
  }

  /** The simple gauge after a step with a given outcome. */
  function Simple(g: G.Gauge, i: nat, o: Outcome): (g': G.Gauge)
    requires i < |g.threads|
  {
    G.Gauge(o.total, if o.entry.Some? then o.entry.value else g.shadow,
            g.threads[i := if o.next.Some? then StagePc(o.next.value) else G.Idle],
            g.issued + o.issued, g.log + o.taken)
  }

  lemma ProjectOwnKey(s: Gauge, i: nat, k: Key, o: Outcome)
    requires i < |s.threads|
    ensures Project(Update(s, i, k, o), k) == Simple(Project(s, k), i, o)
  {
    var s' := Update(s, i, k, o);
    assert ProjectThreads(s'.threads, k) == ProjectThreads(s.threads, k)[i := ProjectPc(s'.threads[i], k)];
  }

  lemma ProjectOtherKey(s: Gauge, i: nat, k: Key, o: Outcome, key: Key)
    requires i < |s.threads| && key != k && ProjectPc(s.threads[i], key) == G.Idle
    ensures Project(Update(s, i, k, o), key) == Project(s, key)
  {
    var s' := Update(s, i, k, o);
    assert ProjectThreads(s'.threads, key) == ProjectThreads(s.threads, key);
  }

  /** Inside a call, a step is a step of the simple gauge or changes nothing there. */
  lemma LocalStep(g: G.Gauge, i: nat, stage: Stage, move: Move, entry: Option<real>) returns (m: Option<G.Move>)
    requires i < |g.threads| && g.threads[i] == StagePc(stage)
    requires Value(entry) == g.shadow && (NeedsEntry(stage) ==> entry.Some?)
    requires Local(stage, move, g.total, entry, |g.log|).Some?
    ensures var g' := Simple(g, i, Local(stage, move, g.total, entry, |g.log|).value);
            if m.Some? then G.Apply(g, i, m.value) == Some(g') else g' == g
  {
    assert g.threads[i := g.threads[i]] == g.threads && g.issued + [] == g.issued && g.log + [] == g.log;
    if stage.AddToExporter? || stage.LoadShadow? || stage.CompareExchange?
       || stage.SwapShadow? || stage.CorrectExporter? {
      m := Some(if move.Advance? then G.Advance else G.FailSpuriously);
    } else {
      m := None;
    }
  }

  lemma StepRefines(s: Gauge, i: nat, move: Move, key: Key) returns (m: Option<G.Move>)
    requires WellFormed(s) && Apply(s, i, move).Some?
    ensures var (g, g') := (Project(s, key), Project(Apply(s, i, move).value, key));
            if m.Some? then G.Apply(g, i, m.value) == Some(g') else g' == g
  {
    var (k, o) := Plan(s, i, move).value;
    if k != key {
      ProjectOtherKey(s, i, k, o, key);
      m := None;
    } else {
      ProjectOwnKey(s, i, key, o);
      match s.threads[i]
      case Idle =>
        assert History(s.log, key) + [] == History(s.log, key);
        m := Some(if move.CallAdd? then G.CallAdd(move.amount) else G.CallSet(move.value));
      case In(_, stage) =>
        m := LocalStep(Project(s, key), i, stage, move, Get(s, key));
    }
  }

  /** A run of the labelled gauge is, key by key, a run of a simple gauge. */
  lemma {:induction false} RunRefines(s: Gauge, schedule: Schedule<Move>, key: Key) returns (simple: Schedule<G.Move>)
    requires WellFormed(s) && Run(Apply, s, schedule).Some?
    ensures Run(G.Apply, Project(s, key), simple) == Some(Project(Run(Apply, s, schedule).value, key))
    ensures WellFormed(Run(Apply, s, schedule).value)
    decreases |schedule|
  {
    if schedule == [] {
      simple := [];
    } else {
      var i, move := schedule[0].0, schedule[0].1;
      StepWellFormed(s, i, move);
      var m := StepRefines(s, i, move, key);
      var rest := RunRefines(Apply(s, i, move).value, schedule[1..], key);
      simple := if m.Some? then [(i, m.value)] + rest else rest;
      assert m.Some? ==> simple[1..] == rest;
    }
  }

  lemma FreshProjection(s: Gauge, key: Key)
    requires Fresh(s)
    ensures G.Fresh(Project(s, key), 0.0) && WellFormed(s)
  {}

  // ----- the main results, for every key

  /** At every moment, exporter and shadow of a key agree up to what the key's calls in flight still owe. */
  lemma TotalsAgreeUpToPending(s: Gauge, schedule: Schedule<Move>, key: Key)
    requires Fresh(s) && Run(Apply, s, schedule).Some?
    ensures var r := Run(Apply, s, schedule).value; var ts := ProjectThreads(r.threads, key);
            At(r.totals, key) + G.PendingExporter(ts) == At(r.shadows, key) + G.PendingShadow(ts)
  {
    FreshProjection(s, key);
    var simple := RunRefines(s, schedule, key);
    G.TotalsAgreeUpToPending(Project(s, key), simple, 0.0);
  }

  /**
    No update of any key is lost, whatever the races to create its entry: at rest, exporter and
    shadow are the replay of exactly the key's effects, and `get` finds the value if and only if
    the key was ever called.
   */
  lemma NoUpdateLost(s: Gauge, schedule: Schedule<Move>, key: Key)
    requires Fresh(s) && Run(Apply, s, schedule).Some? && Quiescent(Run(Apply, s, schedule).value)
    ensures var r := Run(Apply, s, schedule).value;
            var (log, issued) := (History(r.log, key), History(r.issued, key));
            && At(r.totals, key) == At(r.shadows, key) == G.Replay(0.0, log)
            && multiset(log) == multiset(issued)
            && (G.AddsOnly(issued) ==> At(r.shadows, key) == G.SumOfAdds(issued))
            && Get(r, key) == if issued == [] then None else Some(G.Replay(0.0, log))
  {
    FreshProjection(s, key);
    var simple := RunRefines(s, schedule, key);
    var r := Run(Apply, s, schedule).value;
    G.NoUpdateLost(Project(s, key), simple, 0.0);
    var log, issued := History(r.log, key), History(r.issued, key);
    assert |multiset(log)| == |log| && |multiset(issued)| == |issued|;
  }

  /** A key driven only by guards stands, at rest, at the sum of its live guards' amounts. */
  lemma GuardsHoldTheKey(s: Gauge, schedule: Schedule<Move>, key: Key, events: seq<G.GuardEvent>)
    requires Fresh(s) && Run(Apply, s, schedule).Some? && Quiescent(Run(Apply, s, schedule).value)
    requires G.Live(events).Some? && History(Run(Apply, s, schedule).value.issued, key) == G.GuardCalls(events)
    ensures var r := Run(Apply, s, schedule).value;
            At(r.totals, key) == At(r.shadows, key) == G.Sum(G.Live(events).value)
  {
    NoUpdateLost(s, schedule, key);
    G.GuardCallsSum(events);
  }

  // ----- the gauge in place

  /** A thread inside a call on a key. */
  predicate Stands(s: Gauge, i: nat, key: Key, stage: Stage) {
    i < |s.threads| && s.threads[i] == In(key, stage)
  }

  lemma CallStep(s: Gauge, i: nat, key: Key, d: real)
    requires i < |s.threads| && s.threads[i] == Idle
    ensures var r := Apply(s, i, CallAdd(key, d));
            r.Some? && |r.value.threads| == |s.threads| && Stands(r.value, i, key, AddToExporter(d))
  {}

  /** The stages of an increment up to the loop, one step each; the lookup finds the entry. */
  lemma PrepareStep(s: Gauge, i: nat, key: Key, stage: Stage)
    requires WellFormed(s) && Stands(s, i, key, stage)
    requires stage.AddToExporter? || stage.AddCheck? || stage.AddInsert? || stage.AddLookup?
    ensures var r := Apply(s, i, Advance);
            && r.Some? && |r.value.threads| == |s.threads|
            && match stage
               case AddToExporter(d) => Stands(r.value, i, key, AddCheck(d))
               case AddCheck(d) => Stands(r.value, i, key, AddLookup(d)) || Stands(r.value, i, key, AddInsert(d))
               case AddInsert(d) => Stands(r.value, i, key, AddLookup(d))
               case AddLookup(d) => Stands(r.value, i, key, LoadShadow(d))
  {
    hide History;
  }

  /** For one key nothing changed that can be seen. */
  predicate Same(s: Gauge, t: Gauge, key: Key) {
    && At(t.totals, key) == At(s.totals, key) && At(t.shadows, key) == At(s.shadows, key)
    && History(t.log, key) == History(s.log, key)
  }

  /** No key's log is ever rewritten. */
  ghost predicate LogsGrew(s: Gauge, t: Gauge) {
    forall k: Key :: History(s.log, k) <= History(t.log, k)
  }

  lemma LogsKept(s: Gauge, i: nat, move: Move)
    requires Apply(s, i, move).Some?
    ensures LogsGrew(s, Apply(s, i, move).value)
  {
    var (k, o) := Plan(s, i, move).value;
    forall j: Key ensures History(s.log, j) <= History(Update(s, i, k, o).log, j) {
    }
  }

  lemma LogsGrewOn(s: Gauge, t: Gauge, u: Gauge)
    requires LogsGrew(s, t) && LogsGrew(t, u)
    ensures LogsGrew(s, u)
  {}

  /** The stages of a store, one step each; the lookup finds the entry, and the swap always succeeds. */
  lemma StoreStep(s: Gauge, i: nat, key: Key, stage: Stage)
    requires WellFormed(s) && Stands(s, i, key, stage)
    requires stage.SetCheck? || stage.SetInsert? || stage.SetLookup?
    ensures var r := Apply(s, i, Advance);
            && r.Some? && |r.value.threads| == |s.threads| && Same(s, r.value, key)
            && match stage
               case SetCheck(v) => Stands(r.value, i, key, SetLookup(v)) || Stands(r.value, i, key, SetInsert(v))
               case SetInsert(v) => Stands(r.value, i, key, SetLookup(v))
               case SetLookup(v) => Stands(r.value, i, key, SwapShadow(v))
  {
    assert History(s.log, key) + [] == History(s.log, key);
  }

  lemma SwapStep(s: Gauge, i: nat, key: Key, v: real)
    requires Stands(s, i, key, SwapShadow(v))
    ensures var r := Apply(s, i, Advance);
            && r.Some? && |r.value.threads| == |s.threads|
            && Stands(r.value, i, key, CorrectExporter(v - At(s.shadows, key)))
            && At(r.value.shadows, key) == v && At(r.value.totals, key) == At(s.totals, key)
            && History(r.value.log, key) == History(s.log, key) + [G.Stored(v)]
  {}

  lemma CorrectStep(s: Gauge, i: nat, key: Key, delta: real)
    requires Stands(s, i, key, CorrectExporter(delta))
    ensures var r := Apply(s, i, Advance);
            && r.Some? && |r.value.threads| == |s.threads| && r.value.threads[i] == Idle
            && At(r.value.totals, key) == At(s.totals, key) + delta && At(r.value.shadows, key) == At(s.shadows, key)
            && History(r.value.log, key) == History(s.log, key)
  {
    assert History(s.log, key) + [] == History(s.log, key);
  }

  lemma StoreCall(s: Gauge, i: nat, key: Key, v: real)
    requires i < |s.threads| && s.threads[i] == Idle
    ensures var r := Apply(s, i, CallSet(key, v));
            && r.Some? && |r.value.threads| == |s.threads|
            && Stands(r.value, i, key, SetCheck(v)) && Same(s, r.value, key)
  {
    assert History(s.log, key) + [] == History(s.log, key);
  }

  lemma LoadStep(s: Gauge, i: nat, key: Key, d: real)
    requires Stands(s, i, key, LoadShadow(d))
    ensures var r := Apply(s, i, Advance);
            && r.Some? && |r.value.threads| == |s.threads| && At(r.value.shadows, key) == At(s.shadows, key)
            && exists n: nat :: Stands(r.value, i, key, CompareExchange(d, At(s.shadows, key), n))
  {
    var r := Apply(s, i, Advance);
    assert Stands(r.value, i, key, CompareExchange(d, At(s.shadows, key), |History(s.log, key)|));
  }

  /** The exchange takes the amount last, or goes back to the load; it succeeds on an unchanged entry. */
  lemma ExchangeStep(s: Gauge, i: nat, key: Key, d: real, current: real, n: nat, spurious: bool)
    requires WellFormed(s) && Stands(s, i, key, CompareExchange(d, current, n))
    ensures var r := Apply(s, i, if spurious then FailSpuriously else Advance);
            && r.Some? && |r.value.threads| == |s.threads|
            && (Stands(r.value, i, key, LoadShadow(d)) || (r.value.threads[i] == Idle && Taken(r.value, key, d)))
            && (!spurious && At(s.shadows, key) == current ==> r.value.threads[i] == Idle)
  {}

  /** The key has an entry, and the effect its shadow took last is this amount. */
  predicate Taken(s: Gauge, key: Key, d: real) {
    && key in s.shadows && History(s.log, key) != []
    && History(s.log, key)[|History(s.log, key)| - 1] == G.Added(d)
  }

  /** What the other threads do in the `k`-th gap of a call. */
  function Gap(others: seq<Schedule<Move>>, k: nat): (schedule: Schedule<Move>) {
    if k < |others| then others[k] else []
  }

  /** The gauge object; what other threads do between the steps of a call is a parameter of the call. */
  class MultiGauge {
    var totals: map<Key, real>
    var shadows: map<Key, real>
    var threads: seq<Pc>
    var issued: map<Key, seq<G.Effect>>
    var log: map<Key, seq<G.Effect>>

    ghost function State(): (s: Gauge)
      reads this
    {
      Gauge(totals, shadows, threads, issued, log)
    }

    constructor (n: nat)
      ensures Fresh(State()) && |threads| == n
    {
      totals, shadows, issued, log := map[], map[], map[], map[];
      threads := seq(n, _ => Idle);
    }

    /** One atomic step of a thread; a step that is not possible changes nothing. */
    method Step(i: nat, move: Move) returns (done: bool)
      modifies this
      ensures done <==> Apply(old(State()), i, move).Some?
      ensures State() == if done then Apply(old(State()), i, move).value else old(State())
    {
      var s := Gauge(totals, shadows, threads, issued, log);
      var r := Plan(s, i, move);
      if r.None? {
        return false;
      }
      var (k, o) := r.value;
      totals := totals[k := o.total];
      if o.entry.Some? {
        shadows := shadows[k := o.entry.value];
      }
      threads := threads[i := if o.next.Some? then In(k, o.next.value) else Idle];
      issued := issued[k := History(issued, k) + o.issued];
      log := log[k := History(log, k) + o.taken];
      return true;
    }

    /** Other threads run; what the schedule asks of thread `i`, or what is not possible, is skipped. */
    method Interfere(i: nat, schedule: Schedule<Move>, ghost origin: Gauge)
      requires i < |threads| && Reaches(Apply, origin, State()) && WellFormed(State())
      modifies this
      ensures Reaches(Apply, origin, State()) && WellFormed(State()) && LogsGrew(old(State()), State())
      ensures |threads| == |old(threads)| && threads[i] == old(threads[i])
      ensures schedule == [] ==> State() == old(State())
    {
      for n := 0 to |schedule|
        invariant Reaches(Apply, origin, State()) && WellFormed(State()) && LogsGrew(old(State()), State())
        invariant |threads| == |old(threads)| && threads[i] == old(threads[i])
        invariant n == 0 ==> State() == old(State())
      {
        hide WellFormed, Reaches, LogsGrew;
        if schedule[n].0 != i {
          ghost var before := State();
          var done := Step(schedule[n].0, schedule[n].1);
          if done {
            StepWellFormed(before, schedule[n].0, schedule[n].1);
            ReachesStep(Apply, origin, before, schedule[n].0, schedule[n].1, State());
            LogsKept(before, schedule[n].0, schedule[n].1);
            LogsGrewOn(old(State()), before, State());
          }
        }
      }
    }

    /** A step of the thread that is possible. */
    method MustStep(i: nat, move: Move, ghost origin: Gauge)
      requires Apply(State(), i, move).Some? && Reaches(Apply, origin, State()) && WellFormed(State())
      modifies this
      ensures Apply(old(State()), i, move) == Some(State())
      ensures Reaches(Apply, origin, State()) && WellFormed(State())
    {
      hide Apply, WellFormed, Reaches;
      var _ := Step(i, move);
      StepWellFormed(old(State()), i, move);
      ReachesStep(Apply, origin, old(State()), i, move, State());
    }

    /**
      `increment` of one key: the exporter, the entry made on first use, and the compare-and-swap
      loop on it. Whatever the others do, the call is not lost: it ends with its amount taken last.
     */
    method Increment(i: nat, key: Key, amount: real, others: seq<Schedule<Move>>, around: seq<Interference<Move>>)
      requires i < |threads| && threads[i] == Idle && WellFormed(State())
      modifies this
      ensures Reaches(Apply, old(State()), State()) && WellFormed(State())
      ensures |threads| == |old(threads)| && threads[i] == Idle && Taken(State(), key, amount)
    {
      hide Apply, WellFormed, Reaches, Taken;
      ghost var origin := State();
      ReachesItself(Apply, origin);
      CallStep(State(), i, key, amount);
      MustStep(i, CallAdd(key, amount), origin);
      Interfere(i, Gap(others, 0), origin);
      PrepareStep(State(), i, key, AddToExporter(amount));
      MustStep(i, Advance, origin);
      Interfere(i, Gap(others, 1), origin);
      PrepareStep(State(), i, key, AddCheck(amount));
      MustStep(i, Advance, origin);
      Interfere(i, Gap(others, 2), origin);
      if threads[i].stage.AddInsert? {
        PrepareStep(State(), i, key, AddInsert(amount));
        MustStep(i, Advance, origin);
        Interfere(i, Gap(others, 3), origin);
      }
      PrepareStep(State(), i, key, AddLookup(amount));
      MustStep(i, Advance, origin);
      FetchAdd(i, key, amount, around, origin);
    }

    method Decrement(i: nat, key: Key, amount: real, others: seq<Schedule<Move>>, around: seq<Interference<Move>>)
      requires i < |threads| && threads[i] == Idle && WellFormed(State())
      modifies this
      ensures Reaches(Apply, old(State()), State()) && WellFormed(State())
      ensures |threads| == |old(threads)| && threads[i] == Idle && Taken(State(), key, -amount)
    {
      Increment(i, key, -amount, others, around);
    }

    /** The entry for a store is there: checked, and made on first use. */
    method EnsureForSet(i: nat, key: Key, value: real, others: seq<Schedule<Move>>, ghost origin: Gauge)
      requires i < |threads| && threads[i] == In(key, SetCheck(value))
      requires Reaches(Apply, origin, State()) && WellFormed(State())
      modifies this
      ensures Reaches(Apply, origin, State()) && WellFormed(State()) && |threads| == |old(threads)|
      ensures threads[i] == In(key, SwapShadow(value))
      ensures History(old(log), key) <= History(log, key)
      ensures others == [] ==> Same(old(State()), State(), key)
    {
      hide Apply, WellFormed, Reaches, At, History;
      Interfere(i, Gap(others, 0), origin);
      StoreStep(State(), i, key, SetCheck(value));
      MustStep(i, Advance, origin);
      Interfere(i, Gap(others, 1), origin);
      if threads[i].stage.SetInsert? {
        StoreStep(State(), i, key, SetInsert(value));
        MustStep(i, Advance, origin);
        Interfere(i, Gap(others, 2), origin);
      }
      StoreStep(State(), i, key, SetLookup(value));
      MustStep(i, Advance, origin);
    }

    /**
      `set` of one key: the entry made on first use, the swap, and the correction of the exporter.
      Whatever the others do, the key's shadow takes the value once the call was made.
     */
    method Set(i: nat, key: Key, value: real, others: seq<Schedule<Move>>, beforeSwap: Schedule<Move>,
               beforeExporter: Schedule<Move>)
      requires i < |threads| && threads[i] == Idle && WellFormed(State())
      modifies this
      ensures Reaches(Apply, old(State()), State()) && WellFormed(State())
      ensures |threads| == |old(threads)| && threads[i] == Idle
      ensures History(old(log), key) <= History(log, key)
      ensures G.Stored(value) in History(log, key)[|History(old(log), key)|..]
      ensures others == [] && beforeSwap == [] && beforeExporter == [] ==>
                && At(shadows, key) == value
                && At(totals, key) == At(old(totals), key) + (value - At(old(shadows), key))
    {
      hide Apply, WellFormed, Reaches, At, History;
      ghost var origin := State();
      ReachesItself(Apply, origin);
      StoreCall(State(), i, key, value);
      MustStep(i, CallSet(key, value), origin);
      EnsureForSet(i, key, value, others, origin);
      Interfere(i, beforeSwap, origin);
      ghost var taken := |History(log, key)|;
      SwapStep(State(), i, key, value);
      MustStep(i, Advance, origin);
      assert History(log, key)[taken] == G.Stored(value);
      Interfere(i, beforeExporter, origin);
      CorrectStep(State(), i, key, threads[i].stage.delta);
      MustStep(i, Advance, origin);
      assert History(log, key)[|History(old(log), key)|..][taken - |History(old(log), key)|] == G.Stored(value);
    }

    method FetchAdd(i: nat, key: Key, amount: real, around: seq<Interference<Move>>, ghost origin: Gauge)
      requires i < |threads| && threads[i] == In(key, LoadShadow(amount))
      requires Reaches(Apply, origin, State()) && WellFormed(State())
      modifies this
      ensures Reaches(Apply, origin, State()) && WellFormed(State())
      ensures |threads| == |old(threads)| && threads[i] == Idle && Taken(State(), key, amount)
    {
      hide Apply, WellFormed, Reaches, Taken;
      var turn := 0;
      while true
        invariant |threads| == |old(threads)| && threads[i] == In(key, LoadShadow(amount))
        invariant Reaches(Apply, origin, State()) && WellFormed(State())
        decreases |around| - turn
      {
        var disturbed := turn < |around|;
        var now := if disturbed then around[turn] else Interference([], [], false);
        turn := turn + 1;
        if disturbed {
          Interfere(i, now.beforeLoad, origin);
        }
        LoadStep(State(), i, key, amount);
        MustStep(i, Advance, origin);
        var stage := threads[i].stage;
        if disturbed {
          Interfere(i, now.beforeExchange, origin);
        }
        ExchangeStep(State(), i, key, amount, stage.current, stage.loadedAt, now.spurious);
        MustStep(i, if now.spurious then FailSpuriously else Advance, origin);
        if threads[i] == Idle {
          return;
        }
      }
    }
  }
}
