/** Fibonacci: the recursive definition the rewriter takes as input
    (`fib.py`) and its generated step function `fib_aux` run by the
    non-skipping driver (`fib.call_once.py`). */
module Fib {
  import opened Wrappers
  import opened Keys
  import opened Driver

  /** `fib(n)`: `n` itself for every `n <= 1`, negatives included. */
  function Fib(n: int): (r: int)
    ensures n >= 0 ==> r >= 0
    decreases if n < 0 then 0 else n
  {
    if n <= 1 then n else Fib(n - 1) + Fib(n - 2)
  }

  /** An iterative reference that needs no recursion depth. */
  method FibIter(n: int) returns (r: int)
    ensures r == Fib(n)
  {
    if n <= 1 {
      return n;
    }
    var a, b := 0, 1;
    var i := 1;
    while i < n
      invariant 1 <= i <= n && a == Fib(i - 1) && b == Fib(i)
    {
      a, b := b, a + b;
      i := i + 1;
    }
    return b;
  }

  /** `fib_aux` reached through `fn(*posargs, **dict(kwargs))`: binding the
      key to `n` may fail; `n <= 1` is a result without reading the cache;
      otherwise `n - 1` is requested first, then `n - 2`, and the sum is
      returned once both are cached. */
  function FibStep(k: Key, cache: map<Key, int>): Outcome
  {
    match BindOne("n", Unpack(k))
    case None => Raise
    case Some(n) =>
      if n <= 1 then Result(n)
      else if PosKey(n - 1) !in cache then Call(PosKey(n - 1))
      else if PosKey(n - 2) !in cache then Call(PosKey(n - 2))
      else Result(cache[PosKey(n - 1)] + cache[PosKey(n - 2)])
  }

  /** The value `fib` has for the arguments of a key, if they bind. */
  function FibRef(k: Key): Option<int>
  {
    match BindOne("n", Unpack(k))
    case None => None
    case Some(n) => Some(Fib(n))
  }

  /** The requests of `fib_aux` for `n >= 2` and what it does once they
      are answered. */
  lemma FibStepRequests(n: int, cache: map<Key, int>)
    requires n >= 2
    ensures var step := FibStep(PosKey(n), cache);
      && (PosKey(n - 1) !in cache ==> step == Call(PosKey(n - 1)))
      && (PosKey(n - 1) in cache && PosKey(n - 2) !in cache ==> step == Call(PosKey(n - 2)))
      && (PosKey(n - 1) in cache && PosKey(n - 2) in cache ==>
            step == Result(cache[PosKey(n - 1)] + cache[PosKey(n - 2)]))
  {
    BindRequestedKey("n", n);
  }

  /** With a cache that agrees with `fib`, `fib_aux` only returns `fib`. */
  lemma FibStepSound()
    ensures Sound(FibStep, FibRef)
  {
    forall k, c | Agrees(c, FibRef) && FibStep(k, c).Result?
      ensures FibRef(k) == Some(FibStep(k, c).value)
    {
      var n := BindOne("n", Unpack(k)).value;
      if n > 1 {
        BindRequestedKey("n", n - 1);
        BindRequestedKey("n", n - 2);
      }
    }
  }

  function FibRank(k: Key): nat
  {
    match BindOne("n", Unpack(k))
    case None => 0
    case Some(n) => if n < 0 then 0 else n
  }

  /** The keys a run for `args` (binding to `n`) can reach. */
  function FibDomain(args: Key, n: int): (r: set<Key>)
    ensures args in r && |r| <= 1 + (if n < 0 then 0 else n)
  {
    {args} + PosKeys(0, n)
  }

  /** `fib_aux` requests `n - 1` and `n - 2`, never raises on a bound key,
      and never requests a cached key, so the driver terminates. */
  lemma FibWellFounded(args: Key, n: int)
    requires BindOne("n", Unpack(args)) == Some(n)
    ensures WellFounded(FibStep, FibRank, FibDomain(args, n))
  {
    forall k, c | k in FibDomain(args, n)
      ensures && !FibStep(k, c).Raise?
              && (FibStep(k, c).Call? ==>
                    FibStep(k, c).key in FibDomain(args, n) && FibRank(FibStep(k, c).key) < FibRank(k) && FibStep(k, c).key !in c)
    {
      FibWellFoundedAt(args, n, k, c);
    }
  }

  /** On a bound key, `fib_aux` does not raise and requests only `n - 1`
      or `n - 2`, when missing. */
  lemma FibStepOnBound(k: Key, c: map<Key, int>, m: int)
    requires BindOne("n", Unpack(k)) == Some(m)
    ensures !FibStep(k, c).Raise?
    ensures FibStep(k, c).Call? ==>
      && m > 1
      && (FibStep(k, c).key == PosKey(m - 1) || FibStep(k, c).key == PosKey(m - 2))
      && FibStep(k, c).key !in c
  {
  }

  lemma FibWellFoundedAt(args: Key, n: int, k: Key, c: map<Key, int>)
    requires BindOne("n", Unpack(args)) == Some(n) && k in FibDomain(args, n)
    ensures && !FibStep(k, c).Raise?
            && (FibStep(k, c).Call? ==>
                  FibStep(k, c).key in FibDomain(args, n) && FibRank(FibStep(k, c).key) < FibRank(k) && FibStep(k, c).key !in c)
  {
    var m;
    if k == args {
      m := n;
    } else {
      m := k.pos[0];
      BindRequestedKey("n", m);
      assert 0 <= m < n;
    }
    FibStepOnBound(k, c, m);
    assert FibRank(k) == if m < 0 then 0 else m;
    if FibStep(k, c).Call? {
      BindRequestedKey("n", m - 1);
      BindRequestedKey("n", m - 2);
      assert FibRank(PosKey(m - 1)) == m - 1 && FibRank(PosKey(m - 2)) == m - 2;
      assert PosKey(m - 1) in PosKeys(0, n) && PosKey(m - 2) in PosKeys(0, n);
    }
  }

  /** Fuel enough for any run on an argument binding to `n`. */
  function FibFuel(n: int): nat
  {
    3 * (if n < 0 then 0 else n) + 5
  }

  /** The generated wrapper `fib(*posargs, **kwargs)`: builds the key and
      runs the non-skipping driver on `fib_aux` with the cache `fib_CACHE`,
      passed in and returned. */
  method FibWrapper(posargs: seq<int>, kwargs: Items, fibCache: map<Key, int>, fuel: nat)
    returns (r: Run, cache: map<Key, int>)
    ensures Agrees(fibCache, FibRef) ==> Agrees(cache, FibRef)
    ensures var bound := BindOne("n", Unpack(MakeKey(posargs, kwargs)));
      Agrees(fibCache, FibRef) && bound.Some? && fuel >= FibFuel(bound.value) ==>
        r == Done(Fib(bound.value))
    ensures fuel > 0 && BindOne("n", Unpack(MakeKey(posargs, kwargs))).None? ==> r == Raised
    ensures fibCache.Keys <= cache.Keys
  {
    var args := MakeKey(posargs, kwargs);
    var bound := BindOne("n", Unpack(args));
    var n := if bound.Some? then bound.value else 0;
    ghost var dom := FibDomain(args, n);
    FibStepSound();
    if bound.Some? {
      FibWellFounded(args, n);
    }
    var written, calls;
    r, cache, written, calls := CallOnce(FibStep, args, fibCache, false, fuel, FibRef, FibRank, dom);
  }

  /** End to end: `fib(n)` through a fresh cache and the driver is the
      recursive `fib(n)`, for every integer `n`. */
  method FibCallOnce(n: int) returns (r: int)
    ensures r == Fib(n)
  {
    BindRequestedKey("n", n);
    var run, cache := FibWrapper([n], [], map[], FibFuel(n));
    r := run.value;
  }
}
