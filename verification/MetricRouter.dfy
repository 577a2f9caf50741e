/**
  The metric registry: meter providers registered for name prefixes, kept in one list that is
  searched from the front, so that the longest registered prefix of a name wins.
  Names are byte strings, as the lengths compared are byte lengths.
 */
module MetricRouter {
  import opened Wrappers
  import opened Bytes

  type Name = seq<byte>

  datatype Entry<P> = Entry(prefix: Name, provider: P)

  // ----- the stable sort by falling prefix length

  /** Insertion behind every entry that is at least as long. */
  function Insert<P>(e: Entry<P>, es: seq<Entry<P>>): (r: seq<Entry<P>>)
    ensures |r| == |es| + 1
  {
    if es == [] then [e]
    else if |es[0].prefix| < |e.prefix| then [e] + es
    else [es[0]] + Insert(e, es[1..])
  }

  function SortByLength<P>(es: seq<Entry<P>>): (r: seq<Entry<P>>)
    ensures |r| == |es|
  {
    if es == [] then [] else Insert(es[|es| - 1], SortByLength(es[..|es| - 1]))
  }

  function OfLength<P>(es: seq<Entry<P>>, n: nat): (r: seq<Entry<P>>)
  {
    if es == [] then []
    else (if |es[0].prefix| == n then [es[0]] else []) + OfLength(es[1..], n)
  }

  /** No entry is longer than `n`, and none is longer than one before it. */
  predicate Falling<P>(es: seq<Entry<P>>, n: nat) {
    es == [] || (|es[0].prefix| <= n && Falling(es[1..], |es[0].prefix|))
  }

  function Longest<P>(es: seq<Entry<P>>): (n: nat)
  {
    if es == [] then 0
    else if |es[0].prefix| >= Longest(es[1..]) then |es[0].prefix| else Longest(es[1..])
  }

  lemma {:induction false} InsertFalling<P>(e: Entry<P>, es: seq<Entry<P>>, n: nat)
    requires Falling(es, n) && |e.prefix| <= n
    ensures Falling(Insert(e, es), n)
  {
    if es != [] && |es[0].prefix| >= |e.prefix| {
      InsertFalling(e, es[1..], |es[0].prefix|);
    }
  }

  lemma {:induction false} FallingWeaken<P>(es: seq<Entry<P>>, n: nat, m: nat)
    requires Falling(es, n) && n <= m
    ensures Falling(es, m)
  {}

  lemma {:induction false} OfLengthAppend<P>(es: seq<Entry<P>>, e: Entry<P>, n: nat)
    ensures OfLength(es + [e], n) == OfLength(es, n) + (if |e.prefix| == n then [e] else [])
  {
    if es != [] {
      assert (es + [e])[1..] == es[1..] + [e];
      OfLengthAppend(es[1..], e, n);
    }
  }

  lemma {:induction false} NoneOfLength<P>(es: seq<Entry<P>>, n: nat, bound: nat)
    requires Falling(es, bound) && bound < n
    ensures OfLength(es, n) == []
  {
    if es != [] {
      NoneOfLength(es[1..], n, |es[0].prefix|);
    }
  }

  lemma {:induction false} OfLengthInsert<P>(e: Entry<P>, es: seq<Entry<P>>, n: nat, bound: nat)
    requires Falling(es, bound)
    ensures OfLength(Insert(e, es), n) == OfLength(es, n) + (if |e.prefix| == n then [e] else [])
  {
    if es != [] && |es[0].prefix| >= |e.prefix| {
      OfLengthInsert(e, es[1..], n, |es[0].prefix|);
    } else if es != [] {
      assert ([e] + es)[1..] == es;
      if |e.prefix| == n {
        NoneOfLength(es, n, |es[0].prefix|);
      }
    }
  }

  /** The sort is a stable one: it orders by falling length and keeps the entries of each length in their order. */
  lemma {:induction false} SortIsStable<P>(es: seq<Entry<P>>, n: nat)
    ensures Falling(SortByLength(es), Longest(es))
    ensures OfLength(SortByLength(es), n) == OfLength(es, n)
  {
    if es != [] {
      var front, last := es[..|es| - 1], es[|es| - 1];
      assert es == front + [last];
      SortIsStable(front, n);
      LongestAppend(front, last);
      FallingWeaken(SortByLength(front), Longest(front), Longest(es));
      InsertFalling(last, SortByLength(front), Longest(es));
      OfLengthInsert(last, SortByLength(front), n, Longest(front));
      OfLengthAppend(front, last, n);
    }
  }

  lemma {:induction false} LongestAppend<P>(es: seq<Entry<P>>, e: Entry<P>)
    ensures Longest(es + [e]) == if |e.prefix| > Longest(es) then |e.prefix| else Longest(es)
  {
    if es != [] {
      assert (es + [e])[1..] == es[1..] + [e];
      LongestAppend(es[1..], e);
    }
  }

  // ----- the list of providers

  /** The provider of the first entry with this prefix. */
  function ProviderOf<P>(es: seq<Entry<P>>, prefix: Name): (r: Option<P>)
  {
    if es == [] then None
    else if es[0].prefix == prefix then Some(es[0].provider)
    else ProviderOf(es[1..], prefix)
  }

  /** The first entry with this prefix gets another provider. */
  function Replace<P>(es: seq<Entry<P>>, prefix: Name, provider: P): (r: seq<Entry<P>>)
    ensures |r| == |es|
  {
    if es == [] then []
    else if es[0].prefix == prefix then [es[0].(provider := provider)] + es[1..]
    else [es[0]] + Replace(es[1..], prefix, provider)
  }

  function Register<P>(es: seq<Entry<P>>, prefix: Name, provider: P): (r: seq<Entry<P>>)
  {
    if prefix == [] then es
    else if ProviderOf(es, prefix).Some? then Replace(es, prefix, provider)
    else SortByLength(es + [Entry(prefix, provider)])
  }

  /** The provider of the first entry whose prefix the name starts with. */
  function Lookup<P>(es: seq<Entry<P>>, name: Name): (r: Option<P>)
  {
    if es == [] then None
    else if es[0].prefix <= name then Some(es[0].provider)
    else Lookup(es[1..], name)
  }

  /** No two entries have the same prefix, and none has the empty one. */
  predicate Distinct<P>(es: seq<Entry<P>>) {
    es == [] || (es[0].prefix != [] && ProviderOf(es[1..], es[0].prefix).None? && Distinct(es[1..]))
  }

  predicate Ordered<P>(es: seq<Entry<P>>) {
    Distinct(es) && Falling(es, Longest(es))
  }

  lemma {:induction false} ProviderOfAppend<P>(es: seq<Entry<P>>, e: Entry<P>, p: Name)
    ensures ProviderOf(es + [e], p) ==
            if ProviderOf(es, p).None? && e.prefix == p then Some(e.provider) else ProviderOf(es, p)
  {
    if es != [] {
      assert (es + [e])[1..] == es[1..] + [e];
      ProviderOfAppend(es[1..], e, p);
    }
  }

  lemma {:induction false} ProviderOfInsert<P>(e: Entry<P>, es: seq<Entry<P>>, p: Name)
    requires ProviderOf(es, e.prefix).None?
    ensures ProviderOf(Insert(e, es), p) == if e.prefix == p then Some(e.provider) else ProviderOf(es, p)
  {
    if es != [] {
      assert ([e] + es)[1..] == es;
      ProviderOfInsert(e, es[1..], p);
    }
  }

  lemma {:induction false} DistinctInsert<P>(e: Entry<P>, es: seq<Entry<P>>)
    requires Distinct(es) && e.prefix != [] && ProviderOf(es, e.prefix).None?
    ensures Distinct(Insert(e, es))
  {
    if es != [] {
      assert ([e] + es)[1..] == es;
      DistinctInsert(e, es[1..]);
      ProviderOfInsert(e, es[1..], es[0].prefix);
    }
  }

  lemma {:induction false} DistinctFront<P>(es: seq<Entry<P>>, e: Entry<P>)
    requires Distinct(es + [e])
    ensures Distinct(es) && e.prefix != [] && ProviderOf(es, e.prefix).None?
  {
    if es != [] {
      assert (es + [e])[1..] == es[1..] + [e];
      DistinctFront(es[1..], e);
      ProviderOfAppend(es[1..], e, es[0].prefix);
    }
  }

  lemma {:induction false} DistinctAppend<P>(es: seq<Entry<P>>, e: Entry<P>)
    requires Distinct(es) && e.prefix != [] && ProviderOf(es, e.prefix).None?
    ensures Distinct(es + [e])
  {
    if es != [] {
      assert (es + [e])[1..] == es[1..] + [e];
      DistinctAppend(es[1..], e);
      ProviderOfAppend(es[1..], e, es[0].prefix);
    }
  }

  lemma {:induction false} SortKeepsProviders<P>(es: seq<Entry<P>>, p: Name)
    requires Distinct(es)
    ensures Distinct(SortByLength(es)) && ProviderOf(SortByLength(es), p) == ProviderOf(es, p)
    decreases |es|
  {
    if es != [] {
      var front, last := es[..|es| - 1], es[|es| - 1];
      assert es == front + [last];
      DistinctFront(front, last);
      SortKeepsProviders(front, p);
      SortKeepsProviders(front, last.prefix);
      DistinctInsert(last, SortByLength(front));
      ProviderOfInsert(last, SortByLength(front), p);
      ProviderOfAppend(front, last, p);
    }
  }

  lemma {:induction false} LongestOfSorted<P>(es: seq<Entry<P>>, n: nat)
    requires Falling(es, n)
    ensures Falling(es, Longest(es)) && Longest(es) <= n
  {
    if es != [] {
      LongestOfSorted(es[1..], |es[0].prefix|);
    }
  }

  lemma {:induction false} ReplaceKeeps<P>(es: seq<Entry<P>>, prefix: Name, provider: P, p: Name, n: nat)
    requires ProviderOf(es, prefix).Some? && Distinct(es) && Falling(es, n)
    ensures var r := Replace(es, prefix, provider);
            && Distinct(r) && Falling(r, n)
            && ProviderOf(r, p) == if p == prefix then Some(provider) else ProviderOf(es, p)
  {
    if es[0].prefix != prefix {
      ReplaceKeeps(es[1..], prefix, provider, p, |es[0].prefix|);
      ReplaceKeeps(es[1..], prefix, provider, es[0].prefix, |es[0].prefix|);
    }
  }

  /** A registration keeps the list in order and changes the provider of its own prefix only. */
  lemma RegisterKeepsOrder<P>(es: seq<Entry<P>>, prefix: Name, provider: P, p: Name)
    requires Ordered(es)
    ensures Ordered(Register(es, prefix, provider))
    ensures ProviderOf(Register(es, prefix, provider), p) ==
            if prefix != [] && p == prefix then Some(provider) else ProviderOf(es, p)
  {
    if prefix != [] {
      if ProviderOf(es, prefix).Some? {
        ReplaceKeeps(es, prefix, provider, p, Longest(es));
        LongestOfSorted(Replace(es, prefix, provider), Longest(es));
      } else {
        var all := es + [Entry(prefix, provider)];
        DistinctAppend(es, Entry(prefix, provider));
        SortKeepsProviders(all, p);
        ProviderOfAppend(es, Entry(prefix, provider), p);
        SortIsStable(all, 0);
        LongestOfSorted(SortByLength(all), Longest(all));
      }
    }
  }

  // ----- longest prefix match

  /** The entry for the longest non-empty prefix of `name`, of length at most `k`, that `of` knows. */
  function Best<P>(of: Name -> Option<P>, name: Name, k: nat): (r: Option<P>)
    requires k <= |name|
  {
    if k == 0 then None
    else if of(name[..k]).Some? then of(name[..k])
    else Best(of, name, k - 1)
  }

  /** Which prefix a lookup finds: a registered one, and none longer is registered and matches. */
  lemma {:induction false} LookupFindsLongest<P>(es: seq<Entry<P>>, name: Name, n: nat, q: Name) returns (p: Name)
    requires Falling(es, n)
    ensures Lookup(es, name).None? ==> q <= name ==> ProviderOf(es, q).None?
    ensures Lookup(es, name).Some? ==>
              && p <= name && |p| <= n && ProviderOf(es, p) == Lookup(es, name)
              && (q <= name && ProviderOf(es, q).Some? ==> |q| <= |p|)
  {
    if es == [] {
      p := [];
    } else if es[0].prefix <= name {
      p := es[0].prefix;
      NoLongerPrefix(es[1..], |p|, q);
    } else {
      p := LookupFindsLongest(es[1..], name, |es[0].prefix|, q);
    }
  }

  lemma {:induction false} NoLongerPrefix<P>(es: seq<Entry<P>>, n: nat, q: Name)
    requires Falling(es, n)
    ensures ProviderOf(es, q).Some? ==> |q| <= n
  {
    if es != [] {
      NoLongerPrefix(es[1..], |es[0].prefix|, q);
    }
  }

  /** Only non-empty prefixes are registered. */
  lemma {:induction false} NoEmptyPrefix<P>(es: seq<Entry<P>>)
    requires Distinct(es)
    ensures ProviderOf(es, []).None?
  {
    if es != [] {
      NoEmptyPrefix(es[1..]);
    }
  }

  lemma {:induction false} LookupIsBest<P>(es: seq<Entry<P>>, of: Name -> Option<P>, name: Name, k: nat)
    requires Ordered(es) && k <= |name|
    requires forall p: Name :: of(p) == ProviderOf(es, p)
    requires forall j :: k < j <= |name| ==> of(name[..j]).None?
    ensures Lookup(es, name) == Best(of, name, k)
  {
    var p := LookupFindsLongest(es, name, Longest(es), name[..k]);
    NoEmptyPrefix(es);
    assert Lookup(es, name).Some? ==> p == name[..|p|];
    if k > 0 {
      if of(name[..k]).Some? {
        assert |p| >= k && !(k < |p|);
      } else {
        LookupIsBest(es, of, name, k - 1);
      }
    }
  }

  // ----- the registry and its history

  /** The state behind the global cell: nothing until the first use or the explicit initialization. */
  datatype State<P> = State(provider: P, entries: seq<Entry<P>>)

  datatype Op<P> = InitWithProvider(provider: P) | RegisterPrefix(prefix: Name, provider: P) | MeterFor(name: Name)

  /** `fallback` is the provider built when the state is first used without an explicit initialization. */
  function Do<P>(s: Option<State<P>>, op: Op<P>, fallback: P): (s': Option<State<P>>)
  {
    match op
    case InitWithProvider(p) => if s.Some? then s else Some(State(p, []))
    case RegisterPrefix(prefix, p) =>
      if s.Some? then Some(s.value.(entries := Register(s.value.entries, prefix, p))) else None
    case MeterFor(_) => if s.Some? then s else Some(State(fallback, []))
  }

  function After<P>(ops: seq<Op<P>>, fallback: P): (s: Option<State<P>>)
  {
    if ops == [] then None else Do(After(ops[..|ops| - 1], fallback), ops[|ops| - 1], fallback)
  }

  /** The provider a name is served by. */
  function Serve<P>(s: State<P>, name: Name): (p: P)
  {
    match Lookup(s.entries, name)
    case Some(p) => p
    case None => s.provider
  }

  /** The first operation that sets the state up decides the provider of last resort. */
  function DefaultProvider<P>(ops: seq<Op<P>>, fallback: P): (p: P)
  {
    if ops == [] then fallback
    else
      match ops[0]
      case InitWithProvider(p) => p
      case MeterFor(_) => fallback
      case RegisterPrefix(_, _) => DefaultProvider(ops[1..], fallback)
  }

  predicate SetUp<P>(ops: seq<Op<P>>) {
    exists i :: 0 <= i < |ops| && !ops[i].RegisterPrefix?
  }

  /** What was last registered for a prefix, not counting registrations made before the state was set up. */
  function Latest<P>(ops: seq<Op<P>>, prefix: Name): (p: Option<P>)
  {
    if ops == [] then None
    else
      var before, last := ops[..|ops| - 1], ops[|ops| - 1];
      if last.RegisterPrefix? && last.prefix == prefix && prefix != [] && SetUp(before) then Some(last.provider)
      else Latest(before, prefix)
  }

  lemma {:induction false} DefaultProviderAppend<P>(ops: seq<Op<P>>, op: Op<P>, fallback: P)
    ensures SetUp(ops) ==> DefaultProvider(ops + [op], fallback) == DefaultProvider(ops, fallback)
    ensures !SetUp(ops) ==> DefaultProvider(ops + [op], fallback) == DefaultProvider([op], fallback)
  {
    if ops == [] {
      assert ops + [op] == [op];
    } else {
      assert (ops + [op])[1..] == ops[1..] + [op];
      DefaultProviderAppend(ops[1..], op, fallback);
      if SetUp(ops) && ops[0].RegisterPrefix? {
        var i :| 0 <= i < |ops| && !ops[i].RegisterPrefix?;
        assert !ops[1..][i - 1].RegisterPrefix?;
      }
      if SetUp(ops[1..]) {
        var i :| 0 <= i < |ops[1..]| && !ops[1..][i].RegisterPrefix?;
        assert !ops[i + 1].RegisterPrefix?;
      }
    }
  }

  /** After any operations: an ordered list that holds, for every prefix, exactly its latest provider. */
  lemma {:induction false} HistoryKeepsOrder<P>(ops: seq<Op<P>>, fallback: P, p: Name)
    ensures After(ops, fallback).Some? <==> SetUp(ops)
    ensures match After(ops, fallback)
            case None => Latest(ops, p) == None
            case Some(s) =>
              && Ordered(s.entries)
              && ProviderOf(s.entries, p) == Latest(ops, p)
              && s.provider == DefaultProvider(ops, fallback)
  {
    if ops != [] {
      var before, last := ops[..|ops| - 1], ops[|ops| - 1];
      assert ops == before + [last];
      HistoryKeepsOrder(before, fallback, p);
      DefaultProviderAppend(before, last, fallback);
      assert SetUp(ops) <==> SetUp(before) || !last.RegisterPrefix? by {
        if SetUp(before) {
          var i :| 0 <= i < |before| && !before[i].RegisterPrefix?;
          assert !ops[i].RegisterPrefix?;
        }
        if !last.RegisterPrefix? {
          assert !ops[|ops| - 1].RegisterPrefix?;
        }
      }
      if After(before, fallback).Some? && last.RegisterPrefix? {
        RegisterKeepsOrder(After(before, fallback).value.entries, last.prefix, last.provider, p);
      }
    }
  }

  /**
    After any sequence of operations a name is served by the latest provider of the longest
    registered prefix it starts with, and by the provider of last resort if there is none.
   */
  lemma LongestPrefixWins<P>(ops: seq<Op<P>>, fallback: P, name: Name)
    requires After(ops, fallback).Some?
    ensures Serve(After(ops, fallback).value, name) ==
            match Best(p => Latest(ops, p), name, |name|)
            case Some(p) => p
            case None => DefaultProvider(ops, fallback)
  {
    var entries := After(ops, fallback).value.entries;
    var of := p => Latest(ops, p);
    forall p: Name ensures of(p) == ProviderOf(entries, p) {
      HistoryKeepsOrder(ops, fallback, p);
    }
    HistoryKeepsOrder(ops, fallback, name);
    LookupIsBest(entries, of, name, |name|);
  }

  // ----- what the search through the list finds

  predicate NotAmong<P>(es: seq<Entry<P>>, prefix: Name) {
    forall i :: 0 <= i < |es| ==> es[i].prefix != prefix
  }

  lemma RegisterKnown<P>(es: seq<Entry<P>>, i: nat, prefix: Name, provider: P)
    requires i < |es| && es[i].prefix == prefix != [] && NotAmong(es[..i], prefix)
    ensures es[i := es[i].(provider := provider)] == Register(es, prefix, provider)
  {
    FirstIsReplaced(es, i, prefix, provider);
  }

  lemma {:induction false} FirstIsReplaced<P>(es: seq<Entry<P>>, i: nat, prefix: Name, provider: P)
    requires i < |es| && es[i].prefix == prefix && NotAmong(es[..i], prefix)
    ensures ProviderOf(es, prefix).Some?
    ensures Replace(es, prefix, provider) == es[i := es[i].(provider := provider)]
  {
    if i > 0 {
      assert es[0] == es[..i][0];
      assert es[1..][..i - 1] == es[..i][1..];
      FirstIsReplaced(es[1..], i - 1, prefix, provider);
    }
  }

  lemma RegisterNew<P>(es: seq<Entry<P>>, prefix: Name, provider: P)
    requires prefix != [] && NotAmong(es, prefix)
    ensures SortByLength(es + [Entry(prefix, provider)]) == Register(es, prefix, provider)
  {
    NoneAmong(es, prefix);
  }

  lemma {:induction false} NoneAmong<P>(es: seq<Entry<P>>, prefix: Name)
    requires NotAmong(es, prefix)
    ensures ProviderOf(es, prefix).None?
  {
    if es != [] {
      NoneAmong(es[1..], prefix);
    }
  }

  // ----- the registry in place

  class Registry<P> {
    const fallback: P
    var state: Option<State<P>>

    constructor (fallback: P)
      ensures this.fallback == fallback && state == After<P>([], fallback)
    {
      this.fallback, state := fallback, None;
    }

    method InitWithProvider(provider: P) returns (ok: bool)
      modifies this
      ensures ok <==> old(state).None?
      ensures state == Do(old(state), Op.InitWithProvider(provider), fallback)
    {
      ok := state.None?;
      if ok {
        state := Some(State(provider, []));
      }
    }

    /** Searches the list for the prefix; replaces its provider in place, or appends and sorts again. */
    method RegisterPrefixProvider(prefix: Name, provider: P) returns (ok: bool)
      modifies this
      ensures ok <==> prefix != [] && old(state).Some?
      ensures state == Do(old(state), RegisterPrefix(prefix, provider), fallback)
    {
      if prefix == [] || state.None? {
        return false;
      }
      hide ProviderOf, Replace, Register, SortByLength;
      var es := state.value.entries;
      var i := 0;
      while i < |es| && es[i].prefix != prefix
        invariant i <= |es|
        invariant NotAmong(es[..i], prefix)
      {
        assert es[..i + 1] == es[..i] + [es[i]];
        i := i + 1;
      }
      if i < |es| {
        RegisterKnown(es, i, prefix, provider);
        es := es[i := es[i].(provider := provider)];
      } else {
        assert es[..i] == es;
        RegisterNew(es, prefix, provider);
        es := SortByLength(es + [Entry(prefix, provider)]);
      }
      state := Some(state.value.(entries := es));
      return true;
    }

    method MeterForMetric(name: Name) returns (provider: P)
      modifies this
      ensures state == Do(old(state), MeterFor(name), fallback)
      ensures state.Some? && provider == Serve(state.value, name)
    {
      if state.None? {
        state := Some(State(fallback, []));
      }
      var es := state.value.entries;
      for i := 0 to |es|
        invariant Lookup(es, name) == Lookup(es[i..], name)
      {
        if es[i].prefix <= name {
          return es[i].provider;
        }
      }
      return state.value.provider;
    }
  }
}
