/** Argument keys as the generated wrappers build them,
    `(posargs, tuple(kwargs.items()))`, and their unpacking by the driver,
    `fn(*posargs, **dict(kwargs))`. Argument values are integers. */
module Keys {
  import opened Wrappers

  /** A keyword-argument dict: its items in insertion order. */
  type Items = seq<(string, int)>

  datatype Key = Key(pos: seq<int>, kw: Items)

  /** `((n,), ())`: the key a step function requests for a call `f(n)`. */
  function PosKey(n: int): Key
  {
    Key([n], [])
  }

  predicate DistinctNames(items: Items)
  {
    forall i, j :: 0 <= i < j < |items| ==> items[i].0 != items[j].0
  }

  function IndexOfName(d: Items, name: string): (r: Option<nat>)
    ensures r.Some? ==> r.value < |d| && d[r.value].0 == name
    ensures r.None? ==> forall i :: 0 <= i < |d| ==> d[i].0 != name
  {
    if |d| == 0 then None
    else if d[0].0 == name then Some(0)
    else
      var r := IndexOfName(d[1..], name);
      if r.Some? then Some(r.value + 1) else None
  }

  /** `d[name] = value` on an insertion-ordered dict: an existing name keeps
      its position and takes the new value, a new name goes last. */
  function Insert(d: Items, name: string, value: int): (r: Items)
    ensures DistinctNames(d) ==> DistinctNames(r)
    ensures (forall i :: 0 <= i < |d| ==> d[i].0 != name) ==> r == d + [(name, value)]
    ensures (exists i :: 0 <= i < |d| && d[i].0 == name) ==>
              |r| == |d| && forall i :: 0 <= i < |d| ==> r[i].0 == d[i].0
    ensures DistinctNames(d) && (exists i :: 0 <= i < |d| && d[i].0 == name) ==>
              forall i :: 0 <= i < |d| ==> r[i] == (if d[i].0 == name then (name, value) else d[i])
  {
    match IndexOfName(d, name)
    case Some(i) => d[i := (name, value)]
    case None => d + [(name, value)]
  }

  /** `dict(items)`, continuing from the dict `d`: items are inserted one
      by one, left to right. */
  function DictFrom(d: Items, items: Items): (r: Items)
    ensures DistinctNames(d) ==> DistinctNames(r)
    decreases |items|
  {
    if |items| == 0 then d else DictFrom(Insert(d, items[0].0, items[0].1), items[1..])
  }

  /** Items taken from a dict come back as the same dict. */
  lemma {:induction false} DictFromDistinct(d: Items, items: Items)
    requires DistinctNames(d + items)
    ensures DictFrom(d, items) == d + items
    decreases |items|
  {
    if |items| > 0 {
      forall i | 0 <= i < |d|
        ensures d[i].0 != items[0].0
      {
        assert (d + items)[i] == d[i] && (d + items)[|d|] == items[0];
      }
      assert d + [items[0]] + items[1..] == d + items;
      DictFromDistinct(d + [items[0]], items[1..]);
    }
  }

  /** The wrapper's `(args, tuple(kwargs.items()))`. */
  function MakeKey(posargs: seq<int>, kwargs: Items): Key
  {
    Key(posargs, kwargs)
  }

  /** The driver's `(posargs, kwargs) = current_args` followed by
      `*posargs, **dict(kwargs)`. */
  function Unpack(key: Key): (r: (seq<int>, Items))
    ensures r.0 == key.pos && DistinctNames(r.1)
  {
    (key.pos, DictFrom([], key.kw))
  }

  /** The driver recovers exactly the positional and keyword arguments the
      wrapper was called with. */
  lemma KeyRoundTrip(posargs: seq<int>, kwargs: Items)
    requires DistinctNames(kwargs)
    ensures Unpack(MakeKey(posargs, kwargs)) == (posargs, kwargs)
  {
    assert [] + kwargs == kwargs;
    DictFromDistinct([], kwargs);
  }

  /** Python's binding of `*posargs, **kwargs` to `def f(param)`: one
      positional value, or the one keyword `param`. Anything else is a
      `TypeError` (missing, extra, duplicate or unexpected argument),
      modelled as `None`. */
  function BindOne(param: string, args: (seq<int>, Items)): (r: Option<int>)
    ensures r.Some? ==> args == ([r.value], []) || args == ([], [(param, r.value)])
    ensures r.None? ==> forall v: int :: args != ([v], []) && args != ([], [(param, v)])
  {
    var (pos, kw) := args;
    if |pos| == 1 && |kw| == 0 then assert pos == [pos[0]]; Some(pos[0])
    else if |pos| == 0 && |kw| == 1 && kw[0].0 == param then assert kw == [(param, kw[0].1)]; Some(kw[0].1)
    else None
  }

  /** The key `((n,), ())` a step function requests binds back to `n`,
      and so does a keyword call `f(param=n)`. */
  lemma BindRequestedKey(param: string, n: int)
    ensures BindOne(param, Unpack(PosKey(n))) == Some(n)
    ensures BindOne(param, Unpack(MakeKey([], [(param, n)]))) == Some(n)
  {
    KeyRoundTrip([n], []);
    KeyRoundTrip([], [(param, n)]);
  }

  /** The keys `((j,), ())` for `lo <= j < hi`. */
  function PosKeys(lo: int, hi: int): (r: set<Key>)
    ensures |r| == if lo <= hi then hi - lo else 0
    ensures forall j :: lo <= j < hi ==> PosKey(j) in r
    ensures forall k :: k in r ==> |k.pos| == 1 && k == PosKey(k.pos[0]) && lo <= k.pos[0] < hi
    decreases hi - lo
  {
    if hi <= lo then {} else PosKeys(lo, hi - 1) + {PosKey(hi - 1)}
  }
}
