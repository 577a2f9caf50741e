/**
  A gauge shared by any number of threads: an exporter total beside a shadow value, updated in
  separate atomic steps, the shadow through a compare-and-swap loop. Amounts are exact numbers.
 */
module Gauges {
  import opened Schedules
  import opened Wrappers

  /** What one call does to the shadow value: add an amount, or store a value. */
  datatype Effect = Added(amount: real) | Stored(value: real)

  /** Where a thread stands inside `increment`, `decrement` or `set`. */
  datatype Pc =
    | Idle
    | AddToExporter(amount: real)
    | LoadShadow(amount: real)
    | CompareExchange(amount: real, current: real, loadedAt: nat)
    | SwapShadow(value: real)
    | CorrectExporter(delta: real)

  /**
    The two totals, the threads, and the history: `issued` lists the effects of all calls in the
    order they were made, `log` the effects the shadow has taken, in their order, each with the
    index of its call. `loadedAt` is the length of the log when a thread loaded the shadow.
   */
  datatype Gauge = Gauge(total: real, shadow: real, threads: seq<Pc>, issued: seq<Effect>, log: seq<Effect>)

  /** What thread `i` does next; a weak compare-exchange may fail at any time. */
  datatype Move = CallAdd(amount: real) | CallSet(value: real) | Advance | FailSpuriously

  function Apply(s: Gauge, i: nat, move: Move): (s': Option<Gauge>)
  {
    if i >= |s.threads| then None
    else
      match (s.threads[i], move)
      case (Idle, CallAdd(d)) =>
        Some(s.(threads := s.threads[i := AddToExporter(d)], issued := s.issued + [Added(d)]))
      case (Idle, CallSet(v)) =>
        Some(s.(threads := s.threads[i := SwapShadow(v)], issued := s.issued + [Stored(v)]))
      case (AddToExporter(d), Advance) =>
        Some(s.(total := s.total + d, threads := s.threads[i := LoadShadow(d)]))
      case (LoadShadow(d), Advance) =>
        Some(s.(threads := s.threads[i := CompareExchange(d, s.shadow, |s.log|)]))
      case (CompareExchange(d, current, _), Advance) =>
        if s.shadow == current
        then Some(s.(shadow := current + d, threads := s.threads[i := Idle], log := s.log + [Added(d)]))
        else Some(s.(threads := s.threads[i := LoadShadow(d)]))
      case (CompareExchange(d, _, _), FailSpuriously) =>
        Some(s.(threads := s.threads[i := LoadShadow(d)]))
      case (SwapShadow(v), Advance) =>
        Some(s.(shadow := v, threads := s.threads[i := CorrectExporter(v - s.shadow)], log := s.log + [Stored(v)]))
      case (CorrectExporter(delta), Advance) =>
        Some(s.(total := s.total + delta, threads := s.threads[i := Idle]))
      case _ => None
  }

  /** A gauge at rest at some value, before any recorded call. */
  predicate Fresh(s: Gauge, start: real) {
    s.total == start && s.shadow == start && s.issued == [] && s.log == [] && Quiescent(s)
  }

  predicate Quiescent(s: Gauge) {
    forall i :: 0 <= i < |s.threads| ==> s.threads[i] == Idle
  }

  // ----- sums over the threads

  /** What a thread still has to add to the exporter. */
  function ToExporter(pc: Pc): (d: real)
  {
    match pc
    case AddToExporter(d) => d
    case CorrectExporter(d) => d
    case _ => 0.0
  }

  /** What a thread still has to add to the shadow. */
  function ToShadow(pc: Pc): (d: real)
  {
    match pc
    case AddToExporter(d) => d
    case LoadShadow(d) => d
    case CompareExchange(d, _, _) => d
    case _ => 0.0
  }

  /** Whether a thread is in a call with effect `e` that the shadow has not taken yet. */
  function Owes(pc: Pc, e: Effect): (n: nat)
  {
    match pc
    case AddToExporter(d) => if e == Added(d) then 1 else 0
    case LoadShadow(d) => if e == Added(d) then 1 else 0
    case CompareExchange(d, _, _) => if e == Added(d) then 1 else 0
    case SwapShadow(v) => if e == Stored(v) then 1 else 0
    case _ => 0
  }

  function PendingExporter(ts: seq<Pc>): (d: real)
  {
    if ts == [] then 0.0 else ToExporter(ts[0]) + PendingExporter(ts[1..])
  }

  function PendingShadow(ts: seq<Pc>): (d: real)
  {
    if ts == [] then 0.0 else ToShadow(ts[0]) + PendingShadow(ts[1..])
  }

  /** How many calls with effect `e` the shadow has not taken yet. */
  function Outstanding(ts: seq<Pc>, e: Effect): (n: nat)
  {
    if ts == [] then 0 else Owes(ts[0], e) + Outstanding(ts[1..], e)
  }

  /** When one thread moves, each sum changes by the change of that thread. */
  lemma {:induction false} ExporterUpdate(ts: seq<Pc>, i: nat, pc: Pc)
    requires i < |ts|
    ensures PendingExporter(ts[i := pc]) == PendingExporter(ts) - ToExporter(ts[i]) + ToExporter(pc)
  {
    if i == 0 {
      assert ts[0 := pc][1..] == ts[1..];
    } else {
      ExporterUpdate(ts[1..], i - 1, pc);
      assert ts[i := pc][1..] == ts[1..][i - 1 := pc];
    }
  }

  lemma {:induction false} ShadowUpdate(ts: seq<Pc>, i: nat, pc: Pc)
    requires i < |ts|
    ensures PendingShadow(ts[i := pc]) == PendingShadow(ts) - ToShadow(ts[i]) + ToShadow(pc)
  {
    if i == 0 {
      assert ts[0 := pc][1..] == ts[1..];
    } else {
      ShadowUpdate(ts[1..], i - 1, pc);
      assert ts[i := pc][1..] == ts[1..][i - 1 := pc];
    }
  }

  lemma {:induction false} OutstandingUpdate(ts: seq<Pc>, i: nat, pc: Pc, e: Effect)
    requires i < |ts|
    ensures Outstanding(ts[i := pc], e) == Outstanding(ts, e) - Owes(ts[i], e) + Owes(pc, e)
  {
    if i == 0 {
      assert ts[0 := pc][1..] == ts[1..];
    } else {
      OutstandingUpdate(ts[1..], i - 1, pc, e);
      assert ts[i := pc][1..] == ts[1..][i - 1 := pc];
    }
  }

  lemma {:induction false} SumsIdle(ts: seq<Pc>)
    requires forall i :: 0 <= i < |ts| ==> ts[i] == Idle
    ensures PendingExporter(ts) == 0.0 && PendingShadow(ts) == 0.0
    ensures forall e :: Outstanding(ts, e) == 0
  {
    if ts != [] {
      SumsIdle(ts[1..]);
    }
  }

  // ----- what every step keeps

  /** The value reached by taking the effects one after the other. */
  function Replay(start: real, log: seq<Effect>): (v: real)
  {
    if log == [] then start
    else
      match log[|log| - 1]
      case Added(d) => Replay(start, log[..|log| - 1]) + d
      case Stored(v) => v
  }

  predicate AddsOnly(es: seq<Effect>) {
    forall i :: 0 <= i < |es| ==> es[i].Added?
  }

  function SumOfAdds(es: seq<Effect>): (d: real)
  {
    if es == [] then 0.0
    else SumOfAdds(es[..|es| - 1]) + (match es[|es| - 1] case Added(d) => d case Stored(_) => 0.0)
  }

  /** A thread in the compare-and-swap loop holds a value the shadow once had. */
  predicate LoadedFromHistory(pc: Pc, start: real, log: seq<Effect>) {
    pc.CompareExchange? ==> pc.loadedAt <= |log| && pc.current == Replay(start, log[..pc.loadedAt])
  }

  /** The two totals differ by what is still owed to them. */
  predicate Balanced(s: Gauge) {
    s.total + PendingExporter(s.threads) == s.shadow + PendingShadow(s.threads)
  }

  /** Every issued effect is either in the log or still to be taken, exactly once. */
  ghost predicate Accounted(s: Gauge) {
    forall e: Effect :: multiset(s.issued)[e] == multiset(s.log)[e] + Outstanding(s.threads, e)
  }

  /** As long as only amounts are added, the shadow and what it is owed sum up all the calls. */
  predicate Additive(s: Gauge, start: real) {
    AddsOnly(s.issued) ==> s.shadow + PendingShadow(s.threads) == start + SumOfAdds(s.issued)
  }

  /** The shadow is the replay of the log, and every loaded value is the replay of a prefix. */
  predicate FollowsLog(s: Gauge, start: real) {
    && s.shadow == Replay(start, s.log)
    && forall i :: 0 <= i < |s.threads| ==> LoadedFromHistory(s.threads[i], start, s.log)
  }

  ghost predicate Invariant(s: Gauge, start: real) {
    Balanced(s) && Accounted(s) && Additive(s, start) && FollowsLog(s, start)
  }

  lemma FreshInvariant(s: Gauge, start: real)
    requires Fresh(s, start)
    ensures Invariant(s, start)
  {
    SumsIdle(s.threads);
  }

  lemma LogGrows(pc: Pc, start: real, log: seq<Effect>, e: Effect)
    requires LoadedFromHistory(pc, start, log)
    ensures LoadedFromHistory(pc, start, log + [e])
  {
    if pc.CompareExchange? {
      assert (log + [e])[..pc.loadedAt] == log[..pc.loadedAt];
    }
  }

  lemma IssuedGrows(issued: seq<Effect>, e: Effect)
    ensures SumOfAdds(issued + [e]) == SumOfAdds(issued) + (match e case Added(d) => d case Stored(_) => 0.0)
    ensures AddsOnly(issued + [e]) <==> AddsOnly(issued) && e.Added?
  {
    assert (issued + [e])[..|issued|] == issued;
    assert (issued + [e])[|issued|] == e;
    assert forall i :: 0 <= i < |issued| ==> (issued + [e])[i] == issued[i];
  }

  lemma StepBalanced(s: Gauge, i: nat, move: Move)
    requires Balanced(s) && Apply(s, i, move).Some?
    ensures Balanced(Apply(s, i, move).value)
  {
    hide PendingExporter, PendingShadow;
    var s' := Apply(s, i, move).value;
    ExporterUpdate(s.threads, i, s'.threads[i]);
    ShadowUpdate(s.threads, i, s'.threads[i]);
    assert s'.threads == s.threads[i := s'.threads[i]];
  }

  lemma CountGrows(es: seq<Effect>, y: Effect, e: Effect)
    ensures multiset(es + [y])[e] == multiset(es)[e] + (if y == e then 1 else 0)
  {
    assert multiset(es + [y]) == multiset(es) + multiset{y};
  }

  /** A step issues an effect, lets the shadow take one, or does neither. */
  lemma StepEffects(s: Gauge, i: nat, move: Move, e: Effect) returns (issued: seq<Effect>, taken: seq<Effect>)
    requires Apply(s, i, move).Some?
    ensures |issued| <= 1 && |taken| <= 1
    ensures var s' := Apply(s, i, move).value;
            && s'.issued == s.issued + issued
            && s'.log == s.log + taken
            && s'.threads == s.threads[i := s'.threads[i]]
            && Owes(s'.threads[i], e) == Owes(s.threads[i], e)
                 + (if issued == [e] then 1 else 0) - (if taken == [e] then 1 else 0)
  {
    var s' := Apply(s, i, move).value;
    issued, taken := s'.issued[|s.issued|..], s'.log[|s.log|..];
  }

  lemma CountGrowsBy(es: seq<Effect>, ys: seq<Effect>, e: Effect)
    requires |ys| <= 1
    ensures multiset(es + ys)[e] == multiset(es)[e] + (if ys == [e] then 1 else 0)
  {
    if ys == [] {
      assert es + ys == es;
    } else {
      assert ys == [ys[0]];
      CountGrows(es, ys[0], e);
    }
  }

  lemma StepAccountedFor(s: Gauge, s': Gauge, i: nat, move: Move, e: Effect)
    requires Apply(s, i, move) == Some(s')
    requires multiset(s.issued)[e] == multiset(s.log)[e] + Outstanding(s.threads, e)
    ensures multiset(s'.issued)[e] == multiset(s'.log)[e] + Outstanding(s'.threads, e)
  {
    var issued, taken := StepEffects(s, i, move, e);
    OutstandingUpdate(s.threads, i, s'.threads[i], e);
    CountGrowsBy(s.issued, issued, e);
    CountGrowsBy(s.log, taken, e);
  }

  lemma StepAccounted(s: Gauge, i: nat, move: Move)
    requires Accounted(s) && Apply(s, i, move).Some?
    ensures Accounted(Apply(s, i, move).value)
  {
    var s' := Apply(s, i, move).value;
    forall e: Effect
      ensures multiset(s'.issued)[e] == multiset(s'.log)[e] + Outstanding(s'.threads, e)
    {
      StepAccountedFor(s, s', i, move, e);
    }
  }

  lemma StepAdditive(s: Gauge, i: nat, move: Move, start: real)
    requires Accounted(s) && Additive(s, start) && Apply(s, i, move).Some?
    ensures Additive(Apply(s, i, move).value, start)
  {
    hide PendingShadow, SumOfAdds, Outstanding;
    var s' := Apply(s, i, move).value;
    assert s'.threads == s.threads[i := s'.threads[i]];
    ShadowUpdate(s.threads, i, s'.threads[i]);
    match s.threads[i]
    case Idle =>
      IssuedGrows(s.issued, s'.issued[|s.issued|]);
    case SwapShadow(v) =>
      OutstandingMember(s.threads, i, Stored(v));
      assert multiset(s.issued)[Stored(v)] > 0;
      assert Stored(v) in s.issued;
    case _ =>
  }

  lemma {:induction false} OutstandingMember(ts: seq<Pc>, i: nat, e: Effect)
    requires i < |ts|
    ensures Owes(ts[i], e) <= Outstanding(ts, e)
  {
    if i > 0 {
      OutstandingMember(ts[1..], i - 1, e);
    }
  }

  lemma StepFollowsLog(s: Gauge, i: nat, move: Move, start: real)
    requires FollowsLog(s, start) && Apply(s, i, move).Some?
    ensures FollowsLog(Apply(s, i, move).value, start)
  {
    var s' := Apply(s, i, move).value;
    assert s.log[..|s.log|] == s.log;
    if s'.log != s.log {
      var e := s'.log[|s.log|];
      assert s'.log[..|s.log|] == s.log;
      forall j | 0 <= j < |s'.threads| ensures LoadedFromHistory(s'.threads[j], start, s'.log) {
        LogGrows(s.threads[j], start, s.log, e);
      }
    }
  }

  lemma StepKeepsInvariant(s: Gauge, i: nat, move: Move, start: real)
    requires Invariant(s, start) && Apply(s, i, move).Some?
    ensures Invariant(Apply(s, i, move).value, start)
  {
    StepBalanced(s, i, move);
    StepAccounted(s, i, move);
    StepAdditive(s, i, move, start);
    StepFollowsLog(s, i, move, start);
  }

  lemma {:induction false} RunKeepsInvariant(s: Gauge, schedule: Schedule<Move>, start: real)
    requires Invariant(s, start) && Run(Apply, s, schedule).Some?
    ensures Invariant(Run(Apply, s, schedule).value, start)
    decreases |schedule|
  {
    if schedule != [] {
      StepKeepsInvariant(s, schedule[0].0, schedule[0].1, start);
      RunKeepsInvariant(Apply(s, schedule[0].0, schedule[0].1).value, schedule[1..], start);
    }
  }

  // ----- the main results

  /** At every moment of every run, the two totals agree up to what calls in flight still owe. */
  lemma TotalsAgreeUpToPending(s: Gauge, schedule: Schedule<Move>, start: real)
    requires Fresh(s, start) && Run(Apply, s, schedule).Some?
    ensures var r := Run(Apply, s, schedule).value;
            r.total + PendingExporter(r.threads) == r.shadow + PendingShadow(r.threads)
  {
    FreshInvariant(s, start);
    RunKeepsInvariant(s, schedule, start);
  }

  /**
    No update is lost or taken twice: when no call is in flight, the shadow has taken exactly the
    effects of all the calls, in the order of the log, and the exporter shows the same value.
   */
  lemma NoUpdateLost(s: Gauge, schedule: Schedule<Move>, start: real)
    requires Fresh(s, start) && Run(Apply, s, schedule).Some? && Quiescent(Run(Apply, s, schedule).value)
    ensures var r := Run(Apply, s, schedule).value;
            && r.total == r.shadow == Replay(start, r.log)
            && multiset(r.log) == multiset(r.issued)
            && (AddsOnly(r.issued) ==> r.shadow == start + SumOfAdds(r.issued))
  {
    FreshInvariant(s, start);
    RunKeepsInvariant(s, schedule, start);
    var r := Run(Apply, s, schedule).value;
    SumsIdle(r.threads);
    assert forall e: Effect :: multiset(r.issued)[e] == multiset(r.log)[e];
  }

  /**
    The loop is lock-free: a compare-exchange that finds the shadow changed has been overtaken by
    an update of another call since it loaded the value.
   */
  lemma FailedExchangeWasOvertaken(s: Gauge, schedule: Schedule<Move>, start: real, i: nat)
    requires Fresh(s, start) && Run(Apply, s, schedule).Some?
    requires i < |Run(Apply, s, schedule).value.threads|
    requires var r := Run(Apply, s, schedule).value;
             r.threads[i].CompareExchange? && r.threads[i].current != r.shadow
    ensures var r := Run(Apply, s, schedule).value; r.threads[i].loadedAt < |r.log|
  {
    FreshInvariant(s, start);
    RunKeepsInvariant(s, schedule, start);
    var r := Run(Apply, s, schedule).value;
    assert LoadedFromHistory(r.threads[i], start, r.log);
    assert r.log[..|r.log|] == r.log;
  }

  // ----- the gauge in place

  /** A step only ever adds to the log. */
  lemma LogKept(s: Gauge, i: nat, move: Move)
    requires Apply(s, i, move).Some?
    ensures s.log <= Apply(s, i, move).value.log
    ensures |Apply(s, i, move).value.threads| == |s.threads|
    ensures forall j :: 0 <= j < |s.threads| && j != i ==> Apply(s, i, move).value.threads[j] == s.threads[j]
  {}

  lemma LoadStep(s: Gauge, i: nat, d: real)
    requires i < |s.threads| && s.threads[i] == LoadShadow(d)
    ensures Apply(s, i, Advance) ==
            Some(s.(threads := s.threads[i := CompareExchange(d, s.shadow, |s.log|)]))
  {}

  /**
    The exchange adds the amount to the value the shadow has, or goes back to the load; an unchanged
    shadow lets it succeed.
   */
  lemma ExchangeStep(s: Gauge, i: nat, d: real, current: real, n: nat, spurious: bool)
    requires i < |s.threads| && s.threads[i] == CompareExchange(d, current, n)
    ensures var r := Apply(s, i, if spurious then FailSpuriously else Advance);
            && r.Some?
            && if !spurious && s.shadow == current
               then r.value == s.(shadow := s.shadow + d, threads := s.threads[i := Idle], log := s.log + [Added(d)])
               else r.value == s.(threads := s.threads[i := LoadShadow(d)])
  {}

  /** The two steps of a store. */
  lemma SwapStep(s: Gauge, i: nat, v: real)
    requires i < |s.threads| && s.threads[i] == SwapShadow(v)
    ensures Apply(s, i, Advance) ==
            Some(s.(shadow := v, threads := s.threads[i := CorrectExporter(v - s.shadow)], log := s.log + [Stored(v)]))
  {}

  lemma CorrectStep(s: Gauge, i: nat, delta: real)
    requires i < |s.threads| && s.threads[i] == CorrectExporter(delta)
    ensures Apply(s, i, Advance) == Some(s.(total := s.total + delta, threads := s.threads[i := Idle]))
  {}

  /** What any run from a fresh gauge keeps holds wherever a gauge can be brought. */
  lemma ReachedKeepsInvariant(s: Gauge, t: Gauge, start: real)
    requires Invariant(s, start) && Reaches(Apply, s, t)
    ensures Invariant(t, start)
  {
    hide Invariant, Apply;
    var schedule: Schedule<Move> :| Run(Apply, s, schedule) == Some(t);
    RunKeepsInvariant(s, schedule, start);
  }

  /** The gauge object. A method call runs as one thread; what the other threads do meanwhile is a parameter. */
  class SimpleGauge {
    var total: real
    var shadow: real
    var threads: seq<Pc>
    var issued: seq<Effect>
    var log: seq<Effect>

    ghost function State(): (s: Gauge)
      reads this
    {
      Gauge(total, shadow, threads, issued, log)
    }

    constructor (n: nat)
      ensures Fresh(State(), 0.0) && |threads| == n
    {
      total, shadow, issued, log := 0.0, 0.0, [], [];
      threads := seq(n, _ => Idle);
    }

    /** One atomic step of a thread; a step that is not possible changes nothing. */
    method Step(i: nat, move: Move) returns (done: bool)
      modifies this
      ensures done <==> Apply(old(State()), i, move).Some?
      ensures State() == if done then Apply(old(State()), i, move).value else old(State())
    {
      if i >= |threads| {
        return false;
      }
      done := true;
      match (threads[i], move)
      case (Idle, CallAdd(d)) =>
        threads, issued := threads[i := AddToExporter(d)], issued + [Added(d)];
      case (Idle, CallSet(v)) =>
        threads, issued := threads[i := SwapShadow(v)], issued + [Stored(v)];
      case (AddToExporter(d), Advance) =>
        total, threads := total + d, threads[i := LoadShadow(d)];
      case (LoadShadow(d), Advance) =>
        threads := threads[i := CompareExchange(d, shadow, |log|)];
      case (CompareExchange(d, current, _), Advance) =>
        if shadow == current {
          shadow, threads, log := current + d, threads[i := Idle], log + [Added(d)];
        } else {
          threads := threads[i := LoadShadow(d)];
        }
      case (CompareExchange(d, _, _), FailSpuriously) =>
        threads := threads[i := LoadShadow(d)];
      case (SwapShadow(v), Advance) =>
        var previous := shadow;
        shadow, threads, log := v, threads[i := CorrectExporter(v - previous)], log + [Stored(v)];
      case (CorrectExporter(delta), Advance) =>
        total, threads := total + delta, threads[i := Idle];
      case _ =>
        done := false;
    }

    /** Other threads run; what the schedule asks of thread `i`, or what is not possible, is skipped. */
    method Interfere(i: nat, schedule: Schedule<Move>, ghost origin: Gauge)
      requires i < |threads| && Reaches(Apply, origin, State())
      modifies this
      ensures Reaches(Apply, origin, State())
      ensures |threads| == |old(threads)| && threads[i] == old(threads[i]) && old(log) <= log
      ensures schedule == [] ==> State() == old(State())
    {
      hide Apply, Reaches;
      for k := 0 to |schedule|
        invariant Reaches(Apply, origin, State())
        invariant |threads| == |old(threads)| && threads[i] == old(threads[i]) && old(log) <= log
        invariant k == 0 ==> State() == old(State())
      {
        if schedule[k].0 != i {
          ghost var before := State();
          var done := Step(schedule[k].0, schedule[k].1);
          if done {
            LogKept(before, schedule[k].0, schedule[k].1);
            ReachesStep(Apply, origin, before, schedule[k].0, schedule[k].1, State());
          }
        }
      }
    }

    /** A step of the thread that is possible. */
    method MustStep(i: nat, move: Move, ghost origin: Gauge)
      requires Apply(State(), i, move).Some? && Reaches(Apply, origin, State())
      modifies this
      ensures Apply(old(State()), i, move) == Some(State())
      ensures Reaches(Apply, origin, State())
    {
      hide Apply, Reaches;
      var _ := Step(i, move);
      ReachesStep(Apply, origin, old(State()), i, move, State());
    }

    /**
      The compare-and-swap loop. Whatever the other threads do, it ends with the amount added to the
      value the shadow has right then, and returns that sum.
     */
    method FetchAdd(i: nat, delta: real, others: seq<Interference<Move>>, ghost origin: Gauge) returns (sum: real)
      requires i < |threads| && threads[i] == LoadShadow(delta) && Reaches(Apply, origin, State())
      modifies this
      ensures Reaches(Apply, origin, State())
      ensures |threads| == |old(threads)| && threads[i] == Idle
      ensures log != [] && log[|log| - 1] == Added(delta) && sum == shadow
      ensures others == [] ==> shadow == old(shadow) + delta && total == old(total) && issued == old(issued)
    {
      hide Apply, Reaches;
      var turn := 0;
      while true
        invariant |threads| == |old(threads)| && threads[i] == LoadShadow(delta)
        invariant Reaches(Apply, origin, State())
        invariant others == [] ==> turn == 0 && State() == old(State())
        decreases |others| - turn
      {
        var around := if turn < |others| then others[turn] else Interference([], [], false);
        turn := turn + 1;
        Interfere(i, around.beforeLoad, origin);
        LoadStep(State(), i, delta);
        MustStep(i, Advance, origin);
        var pc := threads[i];
        Interfere(i, around.beforeExchange, origin);
        ExchangeStep(State(), i, delta, pc.current, pc.loadedAt, around.spurious);
        MustStep(i, if around.spurious then FailSpuriously else Advance, origin);
        if threads[i] == Idle {
          return pc.current + delta;
        }
      }
    }

    /** `increment`; `decrement` is the same call with the negated amount. */
    method Increment(i: nat, amount: real, beforeExporter: Schedule<Move>, others: seq<Interference<Move>>)
      requires i < |threads| && threads[i] == Idle
      modifies this
      ensures Reaches(Apply, old(State()), State())
      ensures |threads| == |old(threads)| && threads[i] == Idle
      ensures log != [] && log[|log| - 1] == Added(amount)
      ensures beforeExporter == [] && others == [] ==>
                && shadow == old(shadow) + amount && total == old(total) + amount
                && issued == old(issued) + [Added(amount)]
    {
      ghost var origin := State();
      ReachesItself(Apply, origin);
      MustStep(i, CallAdd(amount), origin);
      Interfere(i, beforeExporter, origin);
      MustStep(i, Advance, origin);
      var _ := FetchAdd(i, amount, others, origin);
    }

    method Decrement(i: nat, amount: real, beforeExporter: Schedule<Move>, others: seq<Interference<Move>>)
      requires i < |threads| && threads[i] == Idle
      modifies this
      ensures Reaches(Apply, old(State()), State())
      ensures |threads| == |old(threads)| && threads[i] == Idle
      ensures log != [] && log[|log| - 1] == Added(-amount)
      ensures beforeExporter == [] && others == [] ==>
                && shadow == old(shadow) - amount && total == old(total) - amount
                && issued == old(issued) + [Added(-amount)]
    {
      Increment(i, -amount, beforeExporter, others);
    }

    /**
      `set`: whatever the other threads do, the shadow takes the value once the call was made, and
      the exporter its correction.
     */
    method Set(i: nat, value: real, beforeSwap: Schedule<Move>, beforeExporter: Schedule<Move>)
      requires i < |threads| && threads[i] == Idle
      modifies this
      ensures Reaches(Apply, old(State()), State())
      ensures |threads| == |old(threads)| && threads[i] == Idle
      ensures old(log) <= log && Stored(value) in log[|old(log)|..]
      ensures beforeSwap == [] && beforeExporter == [] ==>
                shadow == value && total == old(total) + (value - old(shadow))
    {
      ghost var origin := State();
      ReachesItself(Apply, origin);
      MustStep(i, CallSet(value), origin);
      hide Apply, Reaches;
      Interfere(i, beforeSwap, origin);
      ghost var taken := |log|;
      SwapStep(State(), i, value);
      MustStep(i, Advance, origin);
      assert log[taken] == Stored(value);
      Interfere(i, beforeExporter, origin);
      CorrectStep(State(), i, threads[i].delta);
      MustStep(i, Advance, origin);
      assert log[|old(log)|..][taken - |old(log)|] == Stored(value);
    }

    method Get() returns (value: real)
      ensures value == shadow
    {
      return shadow;
    }
  }

  // ----- guards

  /** Guards come and go; a dropped guard is named by its place among the live ones. */
  datatype GuardEvent = Acquired(amount: real) | Dropped(which: nat)

  /** The amounts of the live guards after the events; a guard that is not live cannot be dropped. */
  function Live(events: seq<GuardEvent>): (live: Option<seq<real>>)
  {
    if events == [] then Some([])
    else
      match Live(events[..|events| - 1])
      case None => None
      case Some(live) =>
        match events[|events| - 1]
        case Acquired(amount) => Some(live + [amount])
        case Dropped(w) => if w < |live| then Some(live[..w] + live[w + 1..]) else None
  }

  /** The calls the guards make: `increment` when created, `decrement` by the same amount when dropped. */
  function GuardCalls(events: seq<GuardEvent>): (effects: seq<Effect>)
    requires Live(events).Some?
  {
    if events == [] then []
    else
      GuardCalls(events[..|events| - 1]) +
      match events[|events| - 1]
      case Acquired(amount) => [Added(amount)]
      case Dropped(w) => [Added(-Live(events[..|events| - 1]).value[w])]
  }

  function Sum(amounts: seq<real>): (total: real)
  {
    if amounts == [] then 0.0 else amounts[0] + Sum(amounts[1..])
  }

  lemma {:induction false} SumConcat(a: seq<real>, b: seq<real>)
    ensures Sum(a + b) == Sum(a) + Sum(b)
  {
    if a == [] {
      assert a + b == b;
    } else {
      assert (a + b)[1..] == a[1..] + b;
      SumConcat(a[1..], b);
    }
  }

  lemma SumRemove(a: seq<real>, w: nat)
    requires w < |a|
    ensures Sum(a[..w] + a[w + 1..]) == Sum(a) - a[w]
  {
    SumConcat(a[..w], a[w + 1..]);
    SumConcat(a[..w], a[w..]);
    assert a == a[..w] + a[w..];
    assert a[w..][1..] == a[w + 1..];
  }

  lemma SumAppend(a: seq<real>, x: real)
    ensures Sum(a + [x]) == Sum(a) + x
  {
    SumConcat(a, [x]);
    assert [x][1..] == [];
  }

  lemma {:induction false} GuardCallsSum(events: seq<GuardEvent>)
    requires Live(events).Some?
    ensures AddsOnly(GuardCalls(events))
    ensures SumOfAdds(GuardCalls(events)) == Sum(Live(events).value)
  {
    if events != [] {
      var before := events[..|events| - 1];
      var live := Live(before).value;
      GuardCallsSum(before);
      hide Sum, SumOfAdds, AddsOnly;
      match events[|events| - 1]
      case Acquired(amount) =>
        IssuedGrows(GuardCalls(before), Added(amount));
        SumAppend(live, amount);
      case Dropped(w) =>
        IssuedGrows(GuardCalls(before), Added(-live[w]));
        SumRemove(live, w);
    }
  }

  /**
    A gauge driven only by guards stands, whenever no call is in flight, at its start plus the live
    guards' amounts.
   */
  lemma GuardsHoldTheGauge(s: Gauge, schedule: Schedule<Move>, start: real, events: seq<GuardEvent>)
    requires Fresh(s, start) && Run(Apply, s, schedule).Some? && Quiescent(Run(Apply, s, schedule).value)
    requires Live(events).Some? && Run(Apply, s, schedule).value.issued == GuardCalls(events)
    ensures var r := Run(Apply, s, schedule).value; r.total == r.shadow == start + Sum(Live(events).value)
  {
    NoUpdateLost(s, schedule, start);
    GuardCallsSum(events);
  }

  /** A guard: it adds its amount to the gauge when created and takes it back when dropped. */
  class GaugeGuard {
    const metric: SimpleGauge
    const amount: real

    constructor (metric: SimpleGauge, i: nat, amount: real,
                 beforeExporter: Schedule<Move>, others: seq<Interference<Move>>)
      requires i < |metric.threads| && metric.threads[i] == Idle
      modifies metric
      ensures this.metric == metric && this.amount == amount
      ensures Reaches(Apply, old(metric.State()), metric.State())
      ensures |metric.threads| == |old(metric.threads)| && metric.threads[i] == Idle
      ensures metric.log != [] && metric.log[|metric.log| - 1] == Added(amount)
    {
      this.metric := metric;
      this.amount := amount;
      new;
      metric.Increment(i, amount, beforeExporter, others);
    }

    method Drop(i: nat, beforeExporter: Schedule<Move>, others: seq<Interference<Move>>)
      requires i < |metric.threads| && metric.threads[i] == Idle
      modifies metric
      ensures Reaches(Apply, old(metric.State()), metric.State())
      ensures |metric.threads| == |old(metric.threads)| && metric.threads[i] == Idle
      ensures metric.log != [] && metric.log[|metric.log| - 1] == Added(-amount)
    {
      metric.Decrement(i, amount, beforeExporter, others);
    }
  }
}
