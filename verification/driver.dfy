/** The trampoline `call_once(fn, args, cache)` that the generated programs
    call from their wrappers. The step function `fn` is re-entered from the
    top for a key until it stops requesting missing keys; each request is
    pushed on the frontier above the requesting key.

    Two versions of the loop exist: the one generated for `fib` steps every
    popped key, the one generated for the Snake Scales solution first
    discards keys that are already cached. `skipCached` selects between
    them. */
module Driver {
  import opened Wrappers
  import opened Keys
  import opened Frontier
  import opened Seqs

  /** What a step function returns: `('result', value)`, `('call', key)`,
      or an exception it raises (a `TypeError` from argument binding, an
      `IndexError` from indexing), which propagates out of the driver. */
  datatype Outcome = Result(value: int) | Call(key: Key) | Raise

  /** A step function; it reads its cache, which is passed explicitly. */
  type StepFn = (Key, map<Key, int>) -> Outcome

  /** How a run of the driver ends: `return cache[args]`, an exception, or
      (only in the model) the loop bound `fuel` running out, which stands
      for the source looping without end. */
  datatype Run = Done(value: int) | Raised | OutOfFuel

  /** The loop state: the frontier, the cache, the keys written to the
      cache in order, the number of calls of `fn`, and whether one raised. */
  datatype Config = Config(frontier: seq<Key>, cache: map<Key, int>, written: seq<Key>, calls: nat, raised: bool)

  function Init(args: Key, cache: map<Key, int>): Config
  {
    Config([args], cache, [], 0, false)
  }

  /** One pass of the `while` body. */
  function Advance(fn: StepFn, skipCached: bool, s: Config): Config
    requires |s.frontier| > 0
  {
    var (current, rest) := Pop(s.frontier);
    if skipCached && current in s.cache then s.(frontier := rest)
    else
      match fn(current, s.cache)
      case Call(requested) =>
        s.(frontier := Push(Push(rest, current), requested), calls := s.calls + 1)
      case Result(v) =>
        s.(frontier := rest, cache := s.cache[current := v], written := s.written + [current], calls := s.calls + 1)
      case Raise =>
        s.(frontier := rest, calls := s.calls + 1, raised := true)
  }

  // ---------------------------------------------------------------------
  // Cache bookkeeping

  /** The cache holds the initial keys plus the keys written so far, and
      every write follows a call of `fn`. */
  ghost predicate Grows(cache0: map<Key, int>, s: Config)
  {
    && s.cache.Keys == cache0.Keys + (set k | k in s.written)
    && |s.written| <= s.calls
  }

  /** No entry is ever overwritten: initial entries keep their values and
      each written key was absent before and is written once. */
  ghost predicate WriteOnce(cache0: map<Key, int>, s: Config)
  {
    && (forall k :: k in cache0 ==> k in s.cache && s.cache[k] == cache0[k])
    && Distinct(s.written)
    && (forall i :: 0 <= i < |s.written| ==> s.written[i] !in cache0)
  }

  lemma AdvanceBookkeeping(fn: StepFn, skipCached: bool, cache0: map<Key, int>, s: Config)
    requires |s.frontier| > 0 && Grows(cache0, s) && (skipCached ==> WriteOnce(cache0, s))
    ensures var s' := Advance(fn, skipCached, s);
      && Grows(cache0, s')
      && (skipCached ==> WriteOnce(cache0, s'))
      && s.calls <= s'.calls <= s.calls + 1
      && (!skipCached ==> s'.calls == s.calls + 1)
  {
    var (current, rest) := Pop(s.frontier);
    if !(skipCached && current in s.cache) && fn(current, s.cache).Result? {
      var s' := Advance(fn, skipCached, s);
      assert s'.written == s.written + [current];
      assert (set k | k in s'.written) == (set k | k in s.written) + {current};
      if skipCached {
        assert current !in s.written && current !in cache0;
        DistinctSnoc(s.written, current);
      }
    }
  }

  // ---------------------------------------------------------------------
  // Soundness against a reference

  /** Every cached entry is the reference value of its key; `ref(k) ==
      None` means the arguments of `k` have no value (the call raises). */
  ghost predicate Agrees(c: map<Key, int>, ref: Key -> Option<int>)
  {
    forall k :: k in c ==> ref(k) == Some(c[k])
  }

  /** A step function reading a cache that agrees with the reference only
      produces reference values. */
  ghost predicate Sound(fn: StepFn, ref: Key -> Option<int>)
  {
    forall k, c :: Agrees(c, ref) && fn(k, c).Result? ==> ref(k) == Some(fn(k, c).value)
  }

  lemma AdvanceSound(fn: StepFn, skipCached: bool, ref: Key -> Option<int>, s: Config)
    requires |s.frontier| > 0 && Sound(fn, ref) && Agrees(s.cache, ref)
    ensures Agrees(Advance(fn, skipCached, s).cache, ref)
  {
  }

  // ---------------------------------------------------------------------
  // Termination for well-founded step functions

  /** Inside `dom`, `fn` never raises and only requests missing keys of
      `dom` of smaller rank. */
  ghost predicate WellFounded(fn: StepFn, rank: Key -> nat, dom: set<Key>)
  {
    forall k, c :: k in dom ==>
      && !fn(k, c).Raise?
      && (fn(k, c).Call? ==> fn(k, c).key in dom && rank(fn(k, c).key) < rank(k) && fn(k, c).key !in c)
  }

  /** The frontier is a chain of pending requests of strictly falling rank
      (each key was requested by the one below it), all in `dom`. */
  ghost predicate Chain(s: Config, rank: Key -> nat, dom: set<Key>, bound: nat)
  {
    && !s.raised
    && Distinct(s.frontier)
    && (forall i :: 0 <= i < |s.frontier| ==> s.frontier[i] in dom && rank(s.frontier[i]) + i <= bound)
    && (forall i, j :: 0 <= i < j < |s.frontier| ==> rank(s.frontier[j]) < rank(s.frontier[i]))
  }

  /** Number of frontier keys already cached. */
  function CachedIn(f: seq<Key>, c: map<Key, int>): (r: nat)
    ensures r <= |f|
  {
    if |f| == 0 then 0 else CachedIn(f[..|f| - 1], c) + (if f[|f| - 1] in c then 1 else 0)
  }

  lemma CachedInSnoc(f: seq<Key>, x: Key, c: map<Key, int>)
    ensures CachedIn(f + [x], c) == CachedIn(f, c) + (if x in c then 1 else 0)
  {
    assert (f + [x])[..|f|] == f;
  }

  lemma {:induction false} CachedInUpdate(f: seq<Key>, c: map<Key, int>, t: Key, v: int)
    requires t !in f
    ensures CachedIn(f, c[t := v]) == CachedIn(f, c)
  {
    if |f| > 0 {
      CachedInUpdate(f[..|f| - 1], c, t, v);
    }
  }

  /** Decreases with every pass: a new cache entry outweighs the one key it
      frees from the frontier, a request fills one of at most `bound + 1`
      frontier places, and a cached key leaves the frontier for good. */
  ghost function Potential(s: Config, dom: set<Key>, bound: nat): int
  {
    2 * |dom - s.cache.Keys| + (bound + 1 - |s.frontier|) + 2 * CachedIn(s.frontier, s.cache)
  }

  lemma ChainPotential(s: Config, rank: Key -> nat, dom: set<Key>, bound: nat)
    requires Chain(s, rank, dom, bound)
    ensures Potential(s, dom, bound) >= 0
  {
    if |s.frontier| > 0 {
      assert rank(s.frontier[|s.frontier| - 1]) + |s.frontier| - 1 <= bound;
    }
  }

  lemma AdvanceProgress(fn: StepFn, skipCached: bool, rank: Key -> nat, dom: set<Key>, bound: nat, s: Config)
    requires |s.frontier| > 0 && WellFounded(fn, rank, dom) && Chain(s, rank, dom, bound)
    ensures Chain(Advance(fn, skipCached, s), rank, dom, bound)
    ensures Potential(Advance(fn, skipCached, s), dom, bound) < Potential(s, dom, bound)
  {
    var (current, rest) := Pop(s.frontier);
    var s' := Advance(fn, skipCached, s);
    TopUnique(s.frontier);
    if skipCached && current in s.cache {
      assert s' == s.(frontier := rest);
      CachedInSnoc(rest, current, s.cache);
      ChainPop(s, s', rank, dom, bound);
    } else {
      var o := fn(current, s.cache);
      assert current in dom;
      if o.Call? {
        assert s' == s.(frontier := Push(Push(rest, current), o.key), calls := s.calls + 1);
        ProgressCall(rank, dom, bound, s, o.key);
      } else {
        assert o.Result?;
        assert s' == s.(frontier := rest, cache := s.cache[current := o.value],
                        written := s.written + [current], calls := s.calls + 1);
        ProgressResult(dom, bound, s, o.value);
        ChainPop(s, s', rank, dom, bound);
      }
    }
  }

  /** Removing the top of the frontier keeps the chain. */
  lemma ChainPop(s: Config, s': Config, rank: Key -> nat, dom: set<Key>, bound: nat)
    requires |s.frontier| > 0 && Chain(s, rank, dom, bound)
    requires s'.frontier == Pop(s.frontier).1 && !s'.raised
    ensures Chain(s', rank, dom, bound)
  {
    TopUnique(s.frontier);
    var f := s.frontier;
    assert forall i :: 0 <= i < |s'.frontier| ==> s'.frontier[i] == f[i];
    DistinctSplit(s'.frontier, [Pop(f).0]);
  }

  lemma TopUnique(f: seq<Key>)
    requires |f| > 0 && Distinct(f)
    ensures f == Pop(f).1 + [Pop(f).0] && Pop(f).0 !in Pop(f).1
  {
  }

  /** A request of lower rank than the top goes on top and keeps the chain. */
  lemma ProgressCall(rank: Key -> nat, dom: set<Key>, bound: nat, s: Config, d: Key)
    requires |s.frontier| > 0 && Chain(s, rank, dom, bound)
    requires d in dom && rank(d) < rank(s.frontier[|s.frontier| - 1]) && d !in s.cache
    ensures var (current, rest) := Pop(s.frontier);
      var s' := s.(frontier := Push(Push(rest, current), d), calls := s.calls + 1);
      Chain(s', rank, dom, bound) && Potential(s', dom, bound) < Potential(s, dom, bound)
  {
    var (current, rest) := Pop(s.frontier);
    TopUnique(s.frontier);
    var f := s.frontier;
    assert Push(rest, current) == f;
    forall i | 0 <= i < |f|
      ensures rank(d) < rank(f[i])
    {
      if i < |f| - 1 {
        assert rank(f[|f| - 1]) < rank(f[i]);
      }
    }
    assert d !in f;
    assert Push(f, d) == f + [d];
    CachedInSnoc(f, d, s.cache);
  }

  /** A result for the top key frees its frontier place. */
  lemma ProgressResult(dom: set<Key>, bound: nat, s: Config, v: int)
    requires |s.frontier| > 0 && Distinct(s.frontier) && s.frontier[|s.frontier| - 1] in dom
    ensures var (current, rest) := Pop(s.frontier);
      var s' := s.(frontier := rest, cache := s.cache[current := v], written := s.written + [current], calls := s.calls + 1);
      Potential(s', dom, bound) < Potential(s, dom, bound)
  {
    var (current, rest) := Pop(s.frontier);
    TopUnique(s.frontier);
    CachedInSnoc(rest, current, s.cache);
    CachedInUpdate(rest, s.cache, current, v);
    var c' := s.cache[current := v];
    if current !in s.cache {
      assert dom - c'.Keys == (dom - s.cache.Keys) - {current};
    } else {
      assert c'.Keys == s.cache.Keys;
    }
  }

  // ---------------------------------------------------------------------
  // The loop

  /** The facts the loop keeps that do not depend on a hypothesis about
      `fn`; `left` is the unused part of `fuel`. */
  ghost predicate Bookkeeping(fn: StepFn, args: Key, cache0: map<Key, int>, skipCached: bool,
                              fuel: nat, left: nat, s: Config)
  {
    && left <= fuel
    && Grows(cache0, s) && (skipCached ==> WriteOnce(cache0, s))
    && s.calls <= fuel - left
    && (!skipCached ==> s.calls == fuel - left)
    && (args in s.frontier || args in s.cache || s.raised)
    && (left == fuel ==> s == Init(args, cache0))
    && (skipCached && args in cache0 && left < fuel ==> s == Config([], cache0, [], 0, false))
    && ((!skipCached || args !in cache0) && fn(args, cache0).Raise? && left < fuel ==>
          s.raised && s.calls == 1 && s.cache == cache0)
  }

  lemma BookkeepingStep(fn: StepFn, args: Key, cache0: map<Key, int>, skipCached: bool,
                        fuel: nat, left: nat, s: Config)
    requires Bookkeeping(fn, args, cache0, skipCached, fuel, left, s)
    requires |s.frontier| > 0 && left > 0 && !s.raised
    ensures Bookkeeping(fn, args, cache0, skipCached, fuel, left - 1, Advance(fn, skipCached, s))
  {
    var s' := Advance(fn, skipCached, s);
    AdvanceBookkeeping(fn, skipCached, cache0, s);
    ArgsKept(fn, args, skipCached, s);
    if left == fuel {
      FirstStep(fn, args, cache0, skipCached);
    }
  }

  /** What the bookkeeping says once the loop has stopped. */
  lemma BookkeepingExit(fn: StepFn, args: Key, cache0: map<Key, int>, skipCached: bool,
                        fuel: nat, left: nat, s: Config)
    requires Bookkeeping(fn, args, cache0, skipCached, fuel, left, s)
    requires !(|s.frontier| > 0 && left > 0 && !s.raised)
    ensures s.cache.Keys == cache0.Keys + (set k | k in s.written)
    ensures |s.written| <= s.calls <= fuel
    ensures skipCached ==>
      && Distinct(s.written)
      && (forall k :: k in s.written ==> k !in cache0)
      && (forall k :: k in cache0 ==> s.cache[k] == cache0[k])
    ensures fuel > 0 ==> left < fuel
    ensures fuel > 0 && !skipCached ==> s.calls > 0
  {
    if skipCached {
      forall k | k in s.written ensures k !in cache0 {
        var i :| 0 <= i < |s.written| && s.written[i] == k;
      }
    }
  }

  /** The value `call_once` ends with once the loop has stopped. */
  function Finish(args: Key, s: Config): Run
  {
    if s.raised then Raised
    else if |s.frontier| > 0 then OutOfFuel
    // `return cache[args]`, a `KeyError` when the key is missing
    else if args in s.cache then Done(s.cache[args])
    else Raised
  }

  lemma FinishExit(fn: StepFn, args: Key, cache0: map<Key, int>, skipCached: bool,
                   fuel: nat, left: nat, s: Config)
    requires Bookkeeping(fn, args, cache0, skipCached, fuel, left, s)
    requires !(|s.frontier| > 0 && left > 0 && !s.raised)
    ensures var r := Finish(args, s);
      && (r.Done? ==> args in s.cache && r.value == s.cache[args])
      && (fuel > 0 && skipCached && args in cache0 ==>
            r == Done(cache0[args]) && s.calls == 0 && s.cache == cache0)
      && (fuel > 0 && (!skipCached || args !in cache0) && fn(args, cache0).Raise? ==>
            r == Raised && s.calls == 1 && s.cache == cache0)
      && (|s.frontier| == 0 && !s.raised ==> r.Done?)
  {
  }

  /** The top-level key stays pending until it is cached or a step raises. */
  lemma ArgsKept(fn: StepFn, args: Key, skipCached: bool, s: Config)
    requires |s.frontier| > 0 && (args in s.frontier || args in s.cache)
    ensures var s' := Advance(fn, skipCached, s);
      args in s'.frontier || args in s'.cache || s'.raised
  {
    var (current, rest) := Pop(s.frontier);
    assert s.frontier == rest + [current];
    if args != current && args in s.frontier {
      assert args in rest;
    }
  }

  /** The first pass: a cached key is discarded by the skipping driver, and
      a raising step ends the run with the cache untouched. */
  lemma FirstStep(fn: StepFn, args: Key, cache0: map<Key, int>, skipCached: bool)
    ensures var s' := Advance(fn, skipCached, Init(args, cache0));
      && (skipCached && args in cache0 ==> s' == Config([], cache0, [], 0, false))
      && ((!skipCached || args !in cache0) && fn(args, cache0).Raise? ==>
            s'.raised && s'.calls == 1 && s'.cache == cache0)
  {
  }

  /** While `fn` is well founded on `dom`, the frontier stays a chain and
      the fuel left exceeds the potential. */
  ghost predicate Progressing(fn: StepFn, rank: Key -> nat, dom: set<Key>, bound: nat, left: nat, s: Config)
  {
    Chain(s, rank, dom, bound) && (|s.frontier| > 0 ==> left > Potential(s, dom, bound))
  }

  lemma ProgressingInit(fn: StepFn, args: Key, cache0: map<Key, int>, rank: Key -> nat, dom: set<Key>, fuel: nat)
    requires args in dom && fuel >= 2 * |dom| + rank(args) + 3
    ensures Progressing(fn, rank, dom, rank(args), fuel, Init(args, cache0))
  {
    assert dom - cache0.Keys <= dom;
    CachedInSnoc([], args, cache0);
    assert [] + [args] == [args];
  }

  lemma ProgressingStep(fn: StepFn, skipCached: bool, rank: Key -> nat, dom: set<Key>, bound: nat, left: nat, s: Config)
    requires WellFounded(fn, rank, dom) && Progressing(fn, rank, dom, bound, left, s)
    requires |s.frontier| > 0 && left > 0
    ensures Progressing(fn, rank, dom, bound, left - 1, Advance(fn, skipCached, s))
  {
    AdvanceProgress(fn, skipCached, rank, dom, bound, s);
    ChainPotential(Advance(fn, skipCached, s), rank, dom, bound);
  }

  /** Out of the loop with fuel to spare: the frontier is empty and no step
      raised. */
  lemma ProgressingExit(fn: StepFn, rank: Key -> nat, dom: set<Key>, bound: nat, left: nat, s: Config)
    requires Progressing(fn, rank, dom, bound, left, s)
    requires !(|s.frontier| > 0 && left > 0 && !s.raised)
    ensures |s.frontier| == 0 && !s.raised
  {
    ChainPotential(s, rank, dom, bound);
  }

  /** The `while` loop of `call_once`, run for at most `fuel` passes. */
  method Passes(fn: StepFn, args: Key, cache0: map<Key, int>, skipCached: bool, fuel: nat,
                ghost ref: Key -> Option<int>, ghost rank: Key -> nat, ghost dom: set<Key>)
    returns (s: Config, left: nat)
    ensures Bookkeeping(fn, args, cache0, skipCached, fuel, left, s)
    ensures !(|s.frontier| > 0 && left > 0 && !s.raised)
    ensures Sound(fn, ref) && Agrees(cache0, ref) ==> Agrees(s.cache, ref)
    ensures WellFounded(fn, rank, dom) && args in dom && fuel >= 2 * |dom| + rank(args) + 3 ==>
      Progressing(fn, rank, dom, rank(args), left, s)
  {
    s := Init(args, cache0);
    left := fuel;
    ghost var sound := Sound(fn, ref) && Agrees(cache0, ref);
    ghost var wf := WellFounded(fn, rank, dom) && args in dom && fuel >= 2 * |dom| + rank(args) + 3;
    if wf {
      ProgressingInit(fn, args, cache0, rank, dom, fuel);
    }
    while |s.frontier| > 0 && left > 0 && !s.raised
      invariant Bookkeeping(fn, args, cache0, skipCached, fuel, left, s)
      invariant sound ==> Agrees(s.cache, ref)
      invariant wf ==> Progressing(fn, rank, dom, rank(args), left, s)
      decreases left
    {
      BookkeepingStep(fn, args, cache0, skipCached, fuel, left, s);
      if sound {
        AdvanceSound(fn, skipCached, ref, s);
      }
      if wf {
        ProgressingStep(fn, skipCached, rank, dom, rank(args), left, s);
      }
      s := Advance(fn, skipCached, s);
      left := left - 1;
    }
  }

  /** Python's `call_once(fn, args, cache)`. The cache is returned as
      `cache`; `written` lists the keys stored, in order, and `calls`
      counts the calls of `fn`. `fuel` bounds the number of passes. */
  method CallOnce(fn: StepFn, args: Key, cache0: map<Key, int>, skipCached: bool, fuel: nat,
                  ghost ref: Key -> Option<int>, ghost rank: Key -> nat, ghost dom: set<Key>)
    returns (r: Run, cache: map<Key, int>, written: seq<Key>, calls: nat)
    ensures cache.Keys == cache0.Keys + (set k | k in written)
    ensures |written| <= calls <= fuel
    ensures skipCached ==>
      && Distinct(written)
      && (forall k :: k in written ==> k !in cache0)
      && (forall k :: k in cache0 ==> cache[k] == cache0[k])
    ensures r.Done? ==> args in cache && r.value == cache[args]
    ensures fuel > 0 && skipCached && args in cache0 ==>
      r == Done(cache0[args]) && calls == 0 && cache == cache0
    ensures fuel > 0 && !skipCached ==> calls > 0
    ensures fuel > 0 && (!skipCached || args !in cache0) && fn(args, cache0).Raise? ==>
      r == Raised && calls == 1 && cache == cache0
    ensures Sound(fn, ref) && Agrees(cache0, ref) ==>
      Agrees(cache, ref) && (r.Done? ==> ref(args) == Some(r.value))
    ensures WellFounded(fn, rank, dom) && args in dom && fuel >= 2 * |dom| + rank(args) + 3 ==> r.Done?
  {
    var s, left := Passes(fn, args, cache0, skipCached, fuel, ref, rank, dom);
    BookkeepingExit(fn, args, cache0, skipCached, fuel, left, s);
    if WellFounded(fn, rank, dom) && args in dom && fuel >= 2 * |dom| + rank(args) + 3 {
      ProgressingExit(fn, rank, dom, rank(args), left, s);
    }
    FinishExit(fn, args, cache0, skipCached, fuel, left, s);
    cache, written, calls := s.cache, s.written, s.calls;
    r := Finish(args, s);
  }
}
