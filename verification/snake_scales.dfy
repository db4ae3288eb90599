/** Snake Scales: the recursive `min_left`, `min_right` and `solve` of
    `hackercup/a2.py` (where `@call_once` is the identity decorator), and
    the generated step functions of `hackercup/a2.co.py` run by the
    skipping driver. The scale heights `A` are fixed for one `solve`. */
module SnakeScales {
  import opened Wrappers
  import opened Keys
  import opened Driver

  function Abs(x: int): int
  {
    if x < 0 then -x else x
  }

  function Min(a: int, b: int): int
  {
    if a <= b then a else b
  }

  function Max(a: int, b: int): int
  {
    if a >= b then a else b
  }

  /** Python's `A[n]` on a tuple: negative `n` counts from the end, and
      `None` stands for the `IndexError`. */
  function PyIndex(A: seq<int>, n: int): (r: Option<int>)
    ensures r.Some? <==> -|A| <= n < |A|
  {
    if 0 <= n < |A| then Some(A[n])
    else if -|A| <= n < 0 then Some(A[|A| + n])
    else None
  }

  // ---------------------------------------------------------------------
  // The recursive reference

  /** `min_left(n)` for any integer `n`, with Python's indexing but without
      its recursion limit; `None` is the `IndexError` raised somewhere down
      the recursion. */
  function PyMinLeft(A: seq<int>, n: int): Option<int>
    decreases n + |A|
  {
    match PyIndex(A, n)
    case None => None
    case Some(ground) =>
      if n == 0 then Some(ground)
      else
        match PyIndex(A, n - 1)
        case None => None
        case Some(prev) =>
          match PyMinLeft(A, n - 1)
          case None => None
          case Some(m) => Some(Min(ground, Max(m, Abs(ground - prev))))
  }

  /** `min_right(n)` for any integer `n`, with Python's indexing but
      without its recursion limit. */
  function PyMinRight(A: seq<int>, n: int): Option<int>
    decreases |A| - n
  {
    match PyIndex(A, n)
    case None => None
    case Some(ground) =>
      if n == |A| - 1 then Some(ground)
      else
        match PyIndex(A, n + 1)
        case None => None
        case Some(next) =>
          match PyMinRight(A, n + 1)
          case None => None
          case Some(m) => Some(Min(ground, Max(m, Abs(ground - next))))
  }

  /** `min_left(n)` on an index of `A`, the only arguments `solve` uses. */
  function MinLeft(A: seq<int>, n: int): (r: int)
    requires 0 <= n < |A|
    ensures r <= A[n]
  {
    if n == 0 then A[0] else Min(A[n], Max(MinLeft(A, n - 1), Abs(A[n] - A[n - 1])))
  }

  /** `min_right(n)` on an index of `A`. */
  function MinRight(A: seq<int>, n: int): (r: int)
    requires 0 <= n < |A|
    ensures r <= A[n]
    decreases |A| - n
  {
    if n == |A| - 1 then A[n] else Min(A[n], Max(MinRight(A, n + 1), Abs(A[n] - A[n + 1])))
  }

  /** On an index, the Python recursion gives `MinLeft`; at or beyond the
      end it raises, and so it does for every negative `n`: the recursion
      walks down to `A[-len(A) - 1]`. */
  lemma {:induction false} PyMinLeftValue(A: seq<int>, n: int)
    ensures 0 <= n < |A| ==> PyMinLeft(A, n) == Some(MinLeft(A, n))
    ensures (n < 0 || n >= |A|) ==> PyMinLeft(A, n) == None
    decreases n + |A|
  {
    if -|A| < n < |A| && n != 0 {
      PyMinLeftValue(A, n - 1);
    }
  }

  /** On an index, the Python recursion gives `MinRight`; at or beyond the
      end, or below `-len(A)`, it raises. A negative index in range walks up
      through index 0 and has a value. */
  lemma {:induction false} PyMinRightValue(A: seq<int>, n: int)
    ensures 0 <= n < |A| ==> PyMinRight(A, n) == Some(MinRight(A, n))
    ensures (n < -|A| || n >= |A|) ==> PyMinRight(A, n) == None
    ensures -|A| <= n < 0 ==> PyMinRight(A, n).Some?
    decreases |A| - n
  {
    if -|A| <= n < |A| - 1 {
      PyMinRightValue(A, n + 1);
    }
  }

  /** Climbing from the ground at `j` rightwards to `n`: the highest of
      `A[j]` and the height differences of the steps on the way. */
  function LeftCost(A: seq<int>, j: int, n: int): int
    requires 0 <= j <= n < |A|
    decreases n - j
  {
    if n == j then A[j] else Max(LeftCost(A, j, n - 1), Abs(A[n] - A[n - 1]))
  }

  /** Climbing from the ground at `j` leftwards to `n`. */
  function RightCost(A: seq<int>, j: int, n: int): int
    requires 0 <= n <= j < |A|
    decreases j - n
  {
    if n == j then A[j] else Max(RightCost(A, j, n + 1), Abs(A[n] - A[n + 1]))
  }

  /** `min_left(n)` is the cheapest climb to `n` from the ground at or left
      of `n`: no climb is cheaper, and some climb costs exactly that. */
  lemma {:induction false} MinLeftCheapest(A: seq<int>, n: int)
    requires 0 <= n < |A|
    ensures forall j :: 0 <= j <= n ==> MinLeft(A, n) <= LeftCost(A, j, n)
    ensures exists j :: 0 <= j <= n && MinLeft(A, n) == LeftCost(A, j, n)
  {
    if n == 0 {
      assert MinLeft(A, 0) == LeftCost(A, 0, 0);
    } else {
      MinLeftCheapest(A, n - 1);
      var d := Abs(A[n] - A[n - 1]);
      forall j | 0 <= j <= n
        ensures MinLeft(A, n) <= LeftCost(A, j, n)
      {
        if j < n {
          assert LeftCost(A, j, n) == Max(LeftCost(A, j, n - 1), d);
        }
      }
      if A[n] <= Max(MinLeft(A, n - 1), d) {
        assert MinLeft(A, n) == LeftCost(A, n, n);
      } else {
        var j :| 0 <= j <= n - 1 && MinLeft(A, n - 1) == LeftCost(A, j, n - 1);
        assert MinLeft(A, n) == LeftCost(A, j, n);
      }
    }
  }

  /** `min_right(n)` is the cheapest climb to `n` from the ground at or
      right of `n`. */
  lemma {:induction false} MinRightCheapest(A: seq<int>, n: int)
    requires 0 <= n < |A|
    ensures forall j :: n <= j < |A| ==> MinRight(A, n) <= RightCost(A, j, n)
    ensures exists j :: n <= j < |A| && MinRight(A, n) == RightCost(A, j, n)
    decreases |A| - n
  {
    if n == |A| - 1 {
      assert MinRight(A, n) == RightCost(A, n, n);
    } else {
      MinRightCheapest(A, n + 1);
      var d := Abs(A[n] - A[n + 1]);
      forall j | n <= j < |A|
        ensures MinRight(A, n) <= RightCost(A, j, n)
      {
        if j > n {
          assert RightCost(A, j, n) == Max(RightCost(A, j, n + 1), d);
        }
      }
      if A[n] <= Max(MinRight(A, n + 1), d) {
        assert MinRight(A, n) == RightCost(A, n, n);
      } else {
        var j :| n + 1 <= j < |A| && MinRight(A, n + 1) == RightCost(A, j, n + 1);
        assert MinRight(A, n) == RightCost(A, j, n);
      }
    }
  }

  /** The cheaper of the two ways to reach scale `i`. */
  function Both(A: seq<int>, i: int): int
    requires 0 <= i < |A|
  {
    Min(MinLeft(A, i), MinRight(A, i))
  }

  /** `mn` after the first `m` rounds of `solve`'s loop. */
  function SolveUpTo(A: seq<int>, m: nat): int
    requires m <= |A|
  {
    if m == 0 then 0 else Max(SolveUpTo(A, m - 1), Both(A, m - 1))
  }

  /** `solve` without its input reading: the answer for heights `A`. */
  function Solve(A: seq<int>): int
  {
    SolveUpTo(A, |A|)
  }

  /** After `m` rounds, `mn` is the largest of 0 and the first `m` values
      `min(min_left(i), min_right(i))`. */
  lemma {:induction false} SolveUpToMax(A: seq<int>, m: nat)
    requires m <= |A|
    ensures SolveUpTo(A, m) >= 0
    ensures forall i :: 0 <= i < m ==> SolveUpTo(A, m) >= Both(A, i)
    ensures SolveUpTo(A, m) == 0 || exists i :: 0 <= i < m && SolveUpTo(A, m) == Both(A, i)
  {
    if m > 0 {
      SolveUpToMax(A, m - 1);
    }
  }

  /** `solve` is the maximum of 0 and every `min(min_left(i), min_right(i))`;
      for an empty `A` it is 0. */
  lemma SolveIsMax(A: seq<int>)
    ensures Solve(A) >= 0
    ensures forall i :: 0 <= i < |A| ==> Solve(A) >= Both(A, i)
    ensures Solve(A) == 0 || exists i :: 0 <= i < |A| && Solve(A) == Both(A, i)
    ensures |A| == 0 ==> Solve(A) == 0
  {
    SolveUpToMax(A, |A|);
  }

  // ---------------------------------------------------------------------
  // The generated step functions

  /** `min_left_aux` reached through `fn(*posargs, **dict(kwargs))`: bind
      `n`, read `A[n]`; index 0 is a result; otherwise read `A[n - 1]`,
      request `n - 1` if missing, else combine. */
  function MinLeftAux(A: seq<int>, k: Key, cache: map<Key, int>): Outcome
  {
    match BindOne("n", Unpack(k))
    case None => Raise
    case Some(n) =>
      match PyIndex(A, n)
      case None => Raise
      case Some(ground) =>
        if n == 0 then Result(ground)
        else
          match PyIndex(A, n - 1)
          case None => Raise
          case Some(prev) =>
            if PosKey(n - 1) !in cache then Call(PosKey(n - 1))
            else Result(Min(ground, Max(cache[PosKey(n - 1)], Abs(ground - prev))))
  }

  /** `min_right_aux`: the base case is `n == len(A) - 1` and the request
      is `n + 1`. */
  function MinRightAux(A: seq<int>, k: Key, cache: map<Key, int>): Outcome
  {
    match BindOne("n", Unpack(k))
    case None => Raise
    case Some(n) =>
      match PyIndex(A, n)
      case None => Raise
      case Some(ground) =>
        if n == |A| - 1 then Result(ground)
        else
          match PyIndex(A, n + 1)
          case None => Raise
          case Some(next) =>
            if PosKey(n + 1) !in cache then Call(PosKey(n + 1))
            else Result(Min(ground, Max(cache[PosKey(n + 1)], Abs(ground - next))))
  }

  function MinLeftFn(A: seq<int>): StepFn
  {
    (k, cache) => MinLeftAux(A, k, cache)
  }

  function MinRightFn(A: seq<int>): StepFn
  {
    (k, cache) => MinRightAux(A, k, cache)
  }

  /** The value of `min_left` for the arguments of a key. */
  function MinLeftRef(A: seq<int>): Key -> Option<int>
  {
    k => match BindOne("n", Unpack(k)) case None => None case Some(n) => PyMinLeft(A, n)
  }

  function MinRightRef(A: seq<int>): Key -> Option<int>
  {
    k => match BindOne("n", Unpack(k)) case None => None case Some(n) => PyMinRight(A, n)
  }

  /** `min_left_aux` over a cache agreeing with `min_left` only returns
      `min_left` values. */
  lemma MinLeftSound(A: seq<int>)
    ensures Sound(MinLeftFn(A), MinLeftRef(A))
  {
    var fn, ref := MinLeftFn(A), MinLeftRef(A);
    forall k, c | Agrees(c, ref) && fn(k, c).Result?
      ensures ref(k) == Some(fn(k, c).value)
    {
      assert fn(k, c) == MinLeftAux(A, k, c);
      MinLeftSoundAt(A, k, c);
    }
  }

  lemma MinLeftSoundAt(A: seq<int>, k: Key, c: map<Key, int>)
    requires Agrees(c, MinLeftRef(A)) && MinLeftAux(A, k, c).Result?
    ensures MinLeftRef(A)(k) == Some(MinLeftAux(A, k, c).value)
  {
    var n := BindOne("n", Unpack(k)).value;
    assert MinLeftRef(A)(k) == PyMinLeft(A, n);
    if n != 0 {
      BindRequestedKey("n", n - 1);
      var key := PosKey(n - 1);
      assert key in c;
      assert MinLeftRef(A)(key) == Some(c[key]);
      assert PyMinLeft(A, n - 1) == Some(c[key]);
    }
  }

  lemma MinRightSound(A: seq<int>)
    ensures Sound(MinRightFn(A), MinRightRef(A))
  {
    var fn, ref := MinRightFn(A), MinRightRef(A);
    forall k, c | Agrees(c, ref) && fn(k, c).Result?
      ensures ref(k) == Some(fn(k, c).value)
    {
      assert fn(k, c) == MinRightAux(A, k, c);
      MinRightSoundAt(A, k, c);
    }
  }

  lemma MinRightSoundAt(A: seq<int>, k: Key, c: map<Key, int>)
    requires Agrees(c, MinRightRef(A)) && MinRightAux(A, k, c).Result?
    ensures MinRightRef(A)(k) == Some(MinRightAux(A, k, c).value)
  {
    var n := BindOne("n", Unpack(k)).value;
    assert MinRightRef(A)(k) == PyMinRight(A, n);
    if n != |A| - 1 {
      BindRequestedKey("n", n + 1);
      var key := PosKey(n + 1);
      assert key in c;
      assert MinRightRef(A)(key) == Some(c[key]);
      assert PyMinRight(A, n + 1) == Some(c[key]);
    }
  }

  function LeftRank(k: Key): nat
  {
    match BindOne("n", Unpack(k))
    case None => 0
    case Some(n) => if n < 0 then 0 else n
  }

  function RightRank(A: seq<int>): Key -> nat
  {
    k => match BindOne("n", Unpack(k)) case None => 0 case Some(n) => if n >= |A| then 0 else |A| - 1 - n
  }

  /** On an index, `min_left_aux` does not raise and requests only the
      previous index, when it is missing. */
  lemma MinLeftAuxOnIndex(A: seq<int>, k: Key, c: map<Key, int>, n: int)
    requires BindOne("n", Unpack(k)) == Some(n) && 0 <= n < |A|
    ensures !MinLeftAux(A, k, c).Raise?
    ensures MinLeftAux(A, k, c).Call? ==>
      MinLeftAux(A, k, c).key == PosKey(n - 1) && 0 < n && PosKey(n - 1) !in c
  {
  }

  /** From a key binding to index `i`, `min_left_aux` only reaches
      indices `0..i`, each request one lower and missing. */
  lemma MinLeftWellFounded(A: seq<int>, args: Key, i: int)
    requires BindOne("n", Unpack(args)) == Some(i) && 0 <= i < |A|
    ensures WellFounded(MinLeftFn(A), LeftRank, {args} + PosKeys(0, i))
  {
    var fn, dom := MinLeftFn(A), {args} + PosKeys(0, i);
    forall k, c | k in dom
      ensures && !fn(k, c).Raise?
              && (fn(k, c).Call? ==> fn(k, c).key in dom && LeftRank(fn(k, c).key) < LeftRank(k) && fn(k, c).key !in c)
    {
      var n;
      if k == args {
        n := i;
      } else {
        n := k.pos[0];
        BindRequestedKey("n", n);
      }
      assert BindOne("n", Unpack(k)) == Some(n) && 0 <= n < |A|;
      assert fn(k, c) == MinLeftAux(A, k, c);
      MinLeftAuxOnIndex(A, k, c, n);
      assert LeftRank(k) == n;
      if fn(k, c).Call? {
        BindRequestedKey("n", n - 1);
        assert PosKey(n - 1) in dom;
        assert LeftRank(PosKey(n - 1)) == n - 1;
      }
    }
  }

  /** On an index, `min_right_aux` does not raise and requests only the
      next index, when it is missing. */
  lemma MinRightAuxOnIndex(A: seq<int>, k: Key, c: map<Key, int>, n: int)
    requires BindOne("n", Unpack(k)) == Some(n) && 0 <= n < |A|
    ensures !MinRightAux(A, k, c).Raise?
    ensures MinRightAux(A, k, c).Call? ==>
      MinRightAux(A, k, c).key == PosKey(n + 1) && n + 1 < |A| && PosKey(n + 1) !in c
  {
  }

  /** From a key binding to index `i`, `min_right_aux` only reaches
      indices `i..len(A)-1`, each request one higher and missing. */
  lemma MinRightWellFounded(A: seq<int>, args: Key, i: int)
    requires BindOne("n", Unpack(args)) == Some(i) && 0 <= i < |A|
    ensures WellFounded(MinRightFn(A), RightRank(A), {args} + PosKeys(i + 1, |A|))
  {
    var fn, rank, dom := MinRightFn(A), RightRank(A), {args} + PosKeys(i + 1, |A|);
    forall k, c | k in dom
      ensures && !fn(k, c).Raise?
              && (fn(k, c).Call? ==> fn(k, c).key in dom && rank(fn(k, c).key) < rank(k) && fn(k, c).key !in c)
    {
      var n;
      if k == args {
        n := i;
      } else {
        n := k.pos[0];
        BindRequestedKey("n", n);
      }
      assert fn(k, c) == MinRightAux(A, k, c);
      MinRightAuxOnIndex(A, k, c, n);
      assert rank(k) == |A| - 1 - n;
      if fn(k, c).Call? {
        BindRequestedKey("n", n + 1);
        assert rank(PosKey(n + 1)) == |A| - 2 - n;
      }
    }
  }

  /** Fuel enough for any run on an index of `A`. */
  function SnakeFuel(A: seq<int>): nat
  {
    3 * |A| + 5
  }

  /** The generated wrapper `min_left(*posargs, **kwargs)` over the cache
      `min_left_CACHE`, passed in and returned. */
  method MinLeftWrapper(A: seq<int>, posargs: seq<int>, kwargs: Items, leftCache: map<Key, int>, fuel: nat)
    returns (r: Run, cache: map<Key, int>)
    ensures forall k :: k in leftCache ==> k in cache && cache[k] == leftCache[k]
    ensures Agrees(leftCache, MinLeftRef(A)) ==>
      Agrees(cache, MinLeftRef(A)) && (r.Done? ==> MinLeftRef(A)(MakeKey(posargs, kwargs)) == Some(r.value))
    ensures var bound := BindOne("n", Unpack(MakeKey(posargs, kwargs)));
      Agrees(leftCache, MinLeftRef(A)) && bound.Some? && 0 <= bound.value < |A| && fuel >= SnakeFuel(A) ==>
        r == Done(MinLeft(A, bound.value))
    ensures fuel > 0 && MakeKey(posargs, kwargs) in leftCache ==>
      r == Done(leftCache[MakeKey(posargs, kwargs)]) && cache == leftCache
  {
    var args := MakeKey(posargs, kwargs);
    var bound := BindOne("n", Unpack(args));
    var n := if bound.Some? then bound.value else 0;
    ghost var dom := {args} + PosKeys(0, n);
    MinLeftSound(A);
    if bound.Some? && 0 <= n < |A| {
      MinLeftWellFounded(A, args, n);
      PyMinLeftValue(A, n);
    }
    var written, calls;
    r, cache, written, calls := CallOnce(MinLeftFn(A), args, leftCache, true, fuel, MinLeftRef(A), LeftRank, dom);
  }

  /** The generated wrapper `min_right(*posargs, **kwargs)` over the cache
      `min_right_CACHE`. */
  method MinRightWrapper(A: seq<int>, posargs: seq<int>, kwargs: Items, rightCache: map<Key, int>, fuel: nat)
    returns (r: Run, cache: map<Key, int>)
    ensures forall k :: k in rightCache ==> k in cache && cache[k] == rightCache[k]
    ensures Agrees(rightCache, MinRightRef(A)) ==>
      Agrees(cache, MinRightRef(A)) && (r.Done? ==> MinRightRef(A)(MakeKey(posargs, kwargs)) == Some(r.value))
    ensures var bound := BindOne("n", Unpack(MakeKey(posargs, kwargs)));
      Agrees(rightCache, MinRightRef(A)) && bound.Some? && 0 <= bound.value < |A| && fuel >= SnakeFuel(A) ==>
        r == Done(MinRight(A, bound.value))
    ensures fuel > 0 && MakeKey(posargs, kwargs) in rightCache ==>
      r == Done(rightCache[MakeKey(posargs, kwargs)]) && cache == rightCache
  {
    var args := MakeKey(posargs, kwargs);
    var bound := BindOne("n", Unpack(args));
    var n := if bound.Some? then bound.value else 0;
    ghost var dom := {args} + PosKeys(n + 1, |A|);
    MinRightSound(A);
    if bound.Some? && 0 <= n < |A| {
      MinRightWellFounded(A, args, n);
      assert RightRank(A)(args) == |A| - 1 - n;
      PyMinRightValue(A, n);
    }
    var written, calls;
    r, cache, written, calls := CallOnce(MinRightFn(A), args, rightCache, true, fuel, MinRightRef(A), RightRank(A), dom);
  }

  /** `solve` of `hackercup/a2.co.py` without input reading: fresh caches
      for `min_left` and `min_right`, then the same loop as the recursive
      version. It computes the recursive `solve`. */
  method SolveCallOnce(A: seq<int>) returns (mn: int)
    ensures mn == Solve(A)
  {
    var leftCache: map<Key, int> := map[];
    var rightCache: map<Key, int> := map[];
    mn := 0;
    var i := 0;
    while i < |A|
      invariant 0 <= i <= |A| && mn == SolveUpTo(A, i)
      invariant Agrees(leftCache, MinLeftRef(A)) && Agrees(rightCache, MinRightRef(A))
    {
      BindRequestedKey("n", i);
      var left, right;
      left, leftCache := MinLeftWrapper(A, [i], [], leftCache, SnakeFuel(A));
      right, rightCache := MinRightWrapper(A, [i], [], rightCache, SnakeFuel(A));
      mn := Max(mn, Min(left.value, right.value));
      i := i + 1;
    }
  }
}
