/** The driver's work set: a Python dict used only for its keys, in
    insertion order. `stack[k] = None` inserts `k` at the end unless it is
    already present (then nothing moves), and `stack.popitem()` removes the
    most recently inserted key. */
module Frontier {
  import opened Keys
  import opened Seqs

  /** `push(k)`, i.e. `stack[k] = None`. */
  function Push(f: seq<Key>, k: Key): (r: seq<Key>)
    ensures k in r && (forall x :: x in f ==> x in r)
    ensures forall x :: x in r ==> x in f || x == k
    ensures Distinct(f) ==> Distinct(r)
    ensures |f| <= |r| <= |f| + 1 && r[..|f|] == f
  {
    if k in f then f else f + [k]
  }

  /** `pop()`, i.e. `stack.popitem()[0]`; the driver only pops a non-empty
      stack. */
  function Pop(f: seq<Key>): (r: (Key, seq<Key>))
    requires |f| > 0
    ensures r.1 + [r.0] == f
  {
    (f[|f| - 1], f[..|f| - 1])
  }

  /** Pushing a key that is already present leaves every position as it is. */
  lemma PushPresent(f: seq<Key>, k: Key)
    requires k in f
    ensures Push(f, k) == f
  {
  }

  /** The frontier is last-in first-out for new keys: popping right after
      pushing an absent key gives that key and the frontier as it was. */
  lemma PopPush(f: seq<Key>, k: Key)
    requires k !in f
    ensures Pop(Push(f, k)) == (k, f)
  {
    assert (f + [k])[..|f|] == f;
  }

  /** Popping and pushing the popped key back restores a duplicate-free
      frontier. */
  lemma PushPop(f: seq<Key>)
    requires |f| > 0 && Distinct(f)
    ensures Push(Pop(f).1, Pop(f).0) == f
  {
    var (k, rest) := Pop(f);
    assert f == rest + [k];
  }
}
