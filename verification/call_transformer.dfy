/** Second pass of `transform_body`: each call whose callee is the plain name
    of the function being rewritten is replaced by a fresh variable
    `name_k`, numbered in post-order, and recorded together with the
    innermost `If`/`Return` that encloses it. The traversal's counter and
    list of assignments are threaded through as a `State`. */
module CallTransformer {
  import opened Wrappers
  import opened PyAst
  import Decimal

  /** `f"{name}_{counter}"`. */
  function FreshName(name: string, k: nat): string
  {
    name + "_" + Decimal.NatToString(k)
  }

  lemma FreshNameInjective(name: string, i: nat, j: nat)
    ensures FreshName(name, i) == FreshName(name, j) ==> i == j
  {
    if FreshName(name, i) == FreshName(name, j) {
      var p := |name| + 1;
      assert FreshName(name, i)[p..] == Decimal.NatToString(i);
      assert FreshName(name, j)[p..] == Decimal.NatToString(j);
      Decimal.NatToStringInjective(i, j);
    }
  }

  /** One entry of `self.assignments`: `(var_name, call_node, parent_node)`. */
  datatype Lifted = Lifted(target: string, call: Expr, parent: Option<nat>)

  datatype State = State(counter: nat, assignments: seq<Lifted>)

  /** Entry `k` of the list is named `name_k`. */
  predicate NamedInOrder(name: string, lifted: seq<Lifted>)
  {
    forall k :: 0 <= k < |lifted| ==> lifted[k].target == FreshName(name, k)
  }

  /** The counter has handed out exactly the recorded names, in order. */
  predicate Numbered(name: string, st: State)
  {
    st.counter == |st.assignments| && NamedInOrder(name, st.assignments)
  }

  /** A recorded call is a direct self-call whose arguments hold no further
      self-call (those were replaced before the call was recorded). */
  predicate LiftedCallOk(name: string, l: Lifted)
  {
    l.call.Call? && l.call.func == Name(name) && SelfCallsSeq(name, l.call.args) == 0
  }

  const Start := State(0, [])

  predicate IsPrefix<T(==)>(a: seq<T>, b: seq<T>)
  {
    |a| <= |b| && b[..|a|] == a
  }

  /** `visit_Call` (children first, then the self-call test) and the default
      traversal of the other expression kinds. `anchor` is what
      `find_closest_parent((If, Return))` returns at this point. */
  function VisitExpr(name: string, anchor: Option<nat>, e: Expr, st: State): (r: (Expr, State))
    ensures IsPrefix(st.assignments, r.1.assignments)
    ensures |r.1.assignments| == |st.assignments| + SelfCalls(name, e)
    ensures r.1.counter == st.counter + SelfCalls(name, e)
    decreases e
  {
    match e
    case Name(_) => (e, st)
    case Const(_) => (e, st)
    case Call(func, args) =>
      var (func', st1) := VisitExpr(name, anchor, func, st);
      var (args', st2) := VisitExprs(name, anchor, args, st1);
      var node := Call(func', args');
      if func' == Name(name) then
        var v := FreshName(name, st2.counter);
        (Name(v), State(st2.counter + 1, st2.assignments + [Lifted(v, node, anchor)]))
      else
        (node, st2)
    case Tuple(elts) =>
      var (elts', st1) := VisitExprs(name, anchor, elts, st);
      (Tuple(elts'), st1)
    case BinOp(left, op, right) =>
      var (left', st1) := VisitExpr(name, anchor, left, st);
      var (right', st2) := VisitExpr(name, anchor, right, st1);
      (BinOp(left', op, right'), st2)
  }

  function VisitExprs(name: string, anchor: Option<nat>, es: seq<Expr>, st: State): (r: (seq<Expr>, State))
    ensures |r.0| == |es|
    ensures IsPrefix(st.assignments, r.1.assignments)
    ensures |r.1.assignments| == |st.assignments| + SelfCallsSeq(name, es)
    ensures r.1.counter == st.counter + SelfCallsSeq(name, es)
    decreases es
  {
    if |es| == 0 then ([], st)
    else
      var (e', st1) := VisitExpr(name, anchor, es[0], st);
      var (rest, st2) := VisitExprs(name, anchor, es[1..], st1);
      assert es == [es[0]] + es[1..];
      assert ([e'] + rest)[1..] == rest;
      ([e'] + rest, st2)
  }

  /** Replacing self-calls removes all of them, and an expression without
      self-calls passes through untouched. */
  lemma {:induction false} VisitExprClean(name: string, anchor: Option<nat>, e: Expr, st: State)
    ensures SelfCalls(name, VisitExpr(name, anchor, e, st).0) == 0
    ensures SelfCalls(name, e) == 0 ==> VisitExpr(name, anchor, e, st) == (e, st)
    decreases e
  {
    match e
    case Name(_) =>
    case Const(_) =>
    case Call(func, args) =>
      VisitExprClean(name, anchor, func, st);
      var (func', st1) := VisitExpr(name, anchor, func, st);
      VisitExprsClean(name, anchor, args, st1);
    case Tuple(elts) =>
      VisitExprsClean(name, anchor, elts, st);
    case BinOp(left, op, right) =>
      VisitExprClean(name, anchor, left, st);
      var (left', st1) := VisitExpr(name, anchor, left, st);
      VisitExprClean(name, anchor, right, st1);
  }

  lemma {:induction false} VisitExprsClean(name: string, anchor: Option<nat>, es: seq<Expr>, st: State)
    ensures SelfCallsSeq(name, VisitExprs(name, anchor, es, st).0) == 0
    ensures SelfCallsSeq(name, es) == 0 ==> VisitExprs(name, anchor, es, st) == (es, st)
    decreases es
  {
    if |es| > 0 {
      VisitExprClean(name, anchor, es[0], st);
      var (e', st1) := VisitExpr(name, anchor, es[0], st);
      VisitExprsClean(name, anchor, es[1..], st1);
      var (rest, st2) := VisitExprs(name, anchor, es[1..], st1);
      assert ([e'] + rest)[1..] == rest;
      assert es == [es[0]] + es[1..];
    }
  }

  /** The entries `st` did not have yet were all appended by this visit. */
  ghost predicate NewEntriesOk(name: string, anchor: Option<nat>, st: State, st': State)
  {
    && |st.assignments| <= |st'.assignments|
    && (forall k :: |st.assignments| <= k < |st'.assignments| ==>
          st'.assignments[k].parent == anchor && LiftedCallOk(name, st'.assignments[k]))
    && (Numbered(name, st) ==> Numbered(name, st'))
  }

  lemma NewEntriesTrans(name: string, anchor: Option<nat>, st0: State, st1: State, st2: State)
    requires IsPrefix(st0.assignments, st1.assignments)
    requires IsPrefix(st1.assignments, st2.assignments)
    requires NewEntriesOk(name, anchor, st0, st1) && NewEntriesOk(name, anchor, st1, st2)
    ensures NewEntriesOk(name, anchor, st0, st2)
  {
    forall k | |st0.assignments| <= k < |st1.assignments|
      ensures st2.assignments[k] == st1.assignments[k]
    {
      assert st2.assignments[..|st1.assignments|][k] == st2.assignments[k];
    }
  }

  lemma AppendEntryOk(name: string, anchor: Option<nat>, st: State, l: Lifted)
    requires LiftedCallOk(name, l) && l.parent == anchor && l.target == FreshName(name, st.counter)
    ensures IsPrefix(st.assignments, st.assignments + [l])
    ensures NewEntriesOk(name, anchor, st, State(st.counter + 1, st.assignments + [l]))
  {
    assert (st.assignments + [l])[..|st.assignments|] == st.assignments;
  }

  /** Every call recorded while visiting an expression is a direct
      self-call whose arguments are already rewritten, recorded with the
      enclosing `If`/`Return` in force at that expression, and named by the
      counter value at the time it was recorded. */
  lemma {:induction false} VisitExprEntries(name: string, anchor: Option<nat>, e: Expr, st: State)
    ensures NewEntriesOk(name, anchor, st, VisitExpr(name, anchor, e, st).1)
    decreases e, 1
  {
    match e
    case Name(_) =>
    case Const(_) =>
    case Call(func, args) =>
      VisitCallEntries(name, anchor, func, args, st);
    case Tuple(elts) =>
      VisitExprsEntries(name, anchor, elts, st);
    case BinOp(left, op, right) =>
      VisitExprEntries(name, anchor, left, st);
      var (left', st1) := VisitExpr(name, anchor, left, st);
      VisitExprEntries(name, anchor, right, st1);
      NewEntriesTrans(name, anchor, st, st1, VisitExpr(name, anchor, right, st1).1);
  }

  lemma {:induction false} VisitCallEntries(name: string, anchor: Option<nat>, func: Expr, args: seq<Expr>, st: State)
    ensures NewEntriesOk(name, anchor, st, VisitExpr(name, anchor, Call(func, args), st).1)
    decreases Call(func, args), 0
  {
    VisitExprEntries(name, anchor, func, st);
    var (func', st1) := VisitExpr(name, anchor, func, st);
    VisitExprsEntries(name, anchor, args, st1);
    var (args', st2) := VisitExprs(name, anchor, args, st1);
    NewEntriesTrans(name, anchor, st, st1, st2);
    if func' == Name(name) {
      VisitExprsClean(name, anchor, args, st1);
      var l := Lifted(FreshName(name, st2.counter), Call(func', args'), anchor);
      var st3 := State(st2.counter + 1, st2.assignments + [l]);
      AppendEntryOk(name, anchor, st2, l);
      NewEntriesTrans(name, anchor, st, st2, st3);
    }
  }

  lemma {:induction false} VisitExprsEntries(name: string, anchor: Option<nat>, es: seq<Expr>, st: State)
    ensures NewEntriesOk(name, anchor, st, VisitExprs(name, anchor, es, st).1)
    decreases es, 1
  {
    if |es| > 0 {
      VisitExprEntries(name, anchor, es[0], st);
      var (e', st1) := VisitExpr(name, anchor, es[0], st);
      VisitExprsEntries(name, anchor, es[1..], st1);
      NewEntriesTrans(name, anchor, st, st1, VisitExprs(name, anchor, es[1..], st1).1);
    }
  }

  /** The default traversal of statements. A `Return` or `If` becomes the
      anchor for the calls inside it (the `If`'s branches included, until a
      nested `If`/`Return` takes over); `Assign` and `ExprStmt` keep the
      anchor of their context, which is `None` at the top of the body. */
  function VisitStmt(name: string, anchor: Option<nat>, s: Stmt, st: State): (r: (Stmt, State))
    ensures IsPrefix(st.assignments, r.1.assignments)
    ensures |r.1.assignments| == |st.assignments| + SelfCallsStmt(name, s)
    ensures r.1.counter == st.counter + SelfCallsStmt(name, s)
    ensures StmtAnchorIds(r.0) == StmtAnchorIds(s)
    ensures CountAssignsStmt(r.0) == CountAssignsStmt(s)
    ensures StmtAssignTargets(r.0) == StmtAssignTargets(s)
    decreases s
  {
    match s
    case Return(id, v) =>
      if v.Some? then
        var (e', st1) := VisitExpr(name, Some(id), v.value, st);
        (Return(id, Some(e')), st1)
      else (s, st)
    case If(id, t, b, o) =>
      var (t', st1) := VisitExpr(name, Some(id), t, st);
      var (b', st2) := VisitStmts(name, Some(id), b, st1);
      var (o', st3) := VisitStmts(name, Some(id), o, st2);
      (If(id, t', b', o'), st3)
    case Assign(x, e) =>
      var (e', st1) := VisitExpr(name, anchor, e, st);
      (Assign(x, e'), st1)
    case ExprStmt(e) =>
      var (e', st1) := VisitExpr(name, anchor, e, st);
      (ExprStmt(e'), st1)
  }

  function VisitStmts(name: string, anchor: Option<nat>, ss: seq<Stmt>, st: State): (r: (seq<Stmt>, State))
    ensures |r.0| == |ss|
    ensures IsPrefix(st.assignments, r.1.assignments)
    ensures |r.1.assignments| == |st.assignments| + SelfCallsStmts(name, ss)
    ensures r.1.counter == st.counter + SelfCallsStmts(name, ss)
    ensures AnchorIds(r.0) == AnchorIds(ss)
    ensures CountAssigns(r.0) == CountAssigns(ss)
    ensures AssignTargets(r.0) == AssignTargets(ss)
    decreases ss
  {
    if |ss| == 0 then ([], st)
    else
      var (s', st1) := VisitStmt(name, anchor, ss[0], st);
      var (rest, st2) := VisitStmts(name, anchor, ss[1..], st1);
      assert ([s'] + rest)[1..] == rest;
      ([s'] + rest, st2)
  }

  lemma {:induction false} VisitStmtClean(name: string, anchor: Option<nat>, s: Stmt, st: State)
    ensures SelfCallsStmt(name, VisitStmt(name, anchor, s, st).0) == 0
    decreases s
  {
    match s
    case Return(id, v) =>
      if v.Some? {
        VisitExprClean(name, Some(id), v.value, st);
      }
    case If(id, t, b, o) =>
      VisitExprClean(name, Some(id), t, st);
      var (t', st1) := VisitExpr(name, Some(id), t, st);
      VisitStmtsClean(name, Some(id), b, st1);
      var (b', st2) := VisitStmts(name, Some(id), b, st1);
      VisitStmtsClean(name, Some(id), o, st2);
    case Assign(x, e) =>
      VisitExprClean(name, anchor, e, st);
    case ExprStmt(e) =>
      VisitExprClean(name, anchor, e, st);
  }

  /** No self-call is left anywhere in the rewritten statements. */
  lemma {:induction false} VisitStmtsClean(name: string, anchor: Option<nat>, ss: seq<Stmt>, st: State)
    ensures SelfCallsStmts(name, VisitStmts(name, anchor, ss, st).0) == 0
    decreases ss
  {
    if |ss| > 0 {
      VisitStmtClean(name, anchor, ss[0], st);
      var (s', st1) := VisitStmt(name, anchor, ss[0], st);
      VisitStmtsClean(name, anchor, ss[1..], st1);
      var (rest, st2) := VisitStmts(name, anchor, ss[1..], st1);
      assert ([s'] + rest)[1..] == rest;
    }
  }

  /** Recorded entries are well-formed self-calls and keep the numbering. */
  ghost predicate NewCallsOk(name: string, st: State, st': State)
  {
    && IsPrefix(st.assignments, st'.assignments)
    && (forall k :: |st.assignments| <= k < |st'.assignments| ==> LiftedCallOk(name, st'.assignments[k]))
    && (Numbered(name, st) ==> Numbered(name, st'))
  }

  lemma NewCallsTrans(name: string, st0: State, st1: State, st2: State)
    requires NewCallsOk(name, st0, st1) && NewCallsOk(name, st1, st2)
    ensures NewCallsOk(name, st0, st2)
  {
    forall k | |st0.assignments| <= k < |st1.assignments|
      ensures st2.assignments[k] == st1.assignments[k]
    {
      assert st2.assignments[..|st1.assignments|][k] == st2.assignments[k];
    }
  }

  lemma ExprCallsOk(name: string, anchor: Option<nat>, e: Expr, st: State)
    ensures NewCallsOk(name, st, VisitExpr(name, anchor, e, st).1)
  {
    VisitExprEntries(name, anchor, e, st);
  }

  lemma {:induction false} VisitStmtCalls(name: string, anchor: Option<nat>, s: Stmt, st: State)
    ensures NewCallsOk(name, st, VisitStmt(name, anchor, s, st).1)
    decreases s
  {
    match s
    case Return(id, v) =>
      if v.Some? {
        ExprCallsOk(name, Some(id), v.value, st);
      }
    case If(id, t, b, o) =>
      ExprCallsOk(name, Some(id), t, st);
      var (t', st1) := VisitExpr(name, Some(id), t, st);
      VisitStmtsCalls(name, Some(id), b, st1);
      var (b', st2) := VisitStmts(name, Some(id), b, st1);
      VisitStmtsCalls(name, Some(id), o, st2);
      var (o', st3) := VisitStmts(name, Some(id), o, st2);
      NewCallsTrans(name, st, st1, st2);
      NewCallsTrans(name, st, st2, st3);
    case Assign(x, e) =>
      ExprCallsOk(name, anchor, e, st);
    case ExprStmt(e) =>
      ExprCallsOk(name, anchor, e, st);
  }

  /** Over a whole statement list: every recorded entry `k` is the direct
      self-call `name(args)` with rewritten arguments, named `name_k`. */
  lemma {:induction false} VisitStmtsCalls(name: string, anchor: Option<nat>, ss: seq<Stmt>, st: State)
    ensures NewCallsOk(name, st, VisitStmts(name, anchor, ss, st).1)
    decreases ss
  {
    if |ss| > 0 {
      VisitStmtCalls(name, anchor, ss[0], st);
      var (s', st1) := VisitStmt(name, anchor, ss[0], st);
      VisitStmtsCalls(name, anchor, ss[1..], st1);
      NewCallsTrans(name, st, st1, VisitStmts(name, anchor, ss[1..], st1).1);
    }
  }

  function Repeat<T>(x: T, n: nat): seq<T>
  {
    seq(n, _ => x)
  }

  /** Reference for `find_closest_parent((ast.If, ast.Return))`: the
      innermost `If`/`Return` enclosing each self-call of `s`, listed in the
      order the calls are completed (post-order). */
  function SiteAnchors(name: string, anchor: Option<nat>, s: Stmt): seq<Option<nat>>
    decreases s
  {
    match s
    case Return(id, v) => if v.Some? then Repeat(Some(id), SelfCalls(name, v.value)) else []
    case If(id, t, b, o) =>
      Repeat(Some(id), SelfCalls(name, t)) + SiteAnchorsSeq(name, Some(id), b) + SiteAnchorsSeq(name, Some(id), o)
    case Assign(_, e) => Repeat(anchor, SelfCalls(name, e))
    case ExprStmt(e) => Repeat(anchor, SelfCalls(name, e))
  }

  function SiteAnchorsSeq(name: string, anchor: Option<nat>, ss: seq<Stmt>): seq<Option<nat>>
    decreases ss
  {
    if |ss| == 0 then [] else SiteAnchors(name, anchor, ss[0]) + SiteAnchorsSeq(name, anchor, ss[1..])
  }

  function Parents(lifted: seq<Lifted>): seq<Option<nat>>
  {
    seq(|lifted|, i requires 0 <= i < |lifted| => lifted[i].parent)
  }

  lemma ParentsSplit(a: seq<Lifted>, b: seq<Lifted>, c: seq<Lifted>)
    requires IsPrefix(a, b) && IsPrefix(b, c)
    ensures Parents(c[|a|..]) == Parents(b[|a|..]) + Parents(c[|b|..])
  {
    assert forall i :: |a| <= i < |b| ==> b[i] == c[..|b|][i];
  }

  lemma ExprParents(name: string, anchor: Option<nat>, e: Expr, st: State)
    ensures var st' := VisitExpr(name, anchor, e, st).1;
      Parents(st'.assignments[|st.assignments|..]) == Repeat(anchor, SelfCalls(name, e))
  {
    VisitExprEntries(name, anchor, e, st);
  }

  /** The parent recorded for each self-call is its innermost enclosing
      `If` or `Return`, or the outer anchor (`None` at the top of the
      body) when there is none. */
  lemma {:induction false} VisitStmtParents(name: string, anchor: Option<nat>, s: Stmt, st: State)
    ensures var st' := VisitStmt(name, anchor, s, st).1;
      Parents(st'.assignments[|st.assignments|..]) == SiteAnchors(name, anchor, s)
    decreases s
  {
    match s
    case Return(id, v) =>
      if v.Some? {
        ExprParents(name, Some(id), v.value, st);
      }
    case If(id, t, b, o) =>
      ExprParents(name, Some(id), t, st);
      var (t', st1) := VisitExpr(name, Some(id), t, st);
      VisitStmtsParents(name, Some(id), b, st1);
      var (b', st2) := VisitStmts(name, Some(id), b, st1);
      VisitStmtsParents(name, Some(id), o, st2);
      var (o', st3) := VisitStmts(name, Some(id), o, st2);
      ParentsSplit(st.assignments, st1.assignments, st2.assignments);
      ParentsSplit(st.assignments, st2.assignments, st3.assignments);
    case Assign(x, e) =>
      ExprParents(name, anchor, e, st);
    case ExprStmt(e) =>
      ExprParents(name, anchor, e, st);
  }

  lemma {:induction false} VisitStmtsParents(name: string, anchor: Option<nat>, ss: seq<Stmt>, st: State)
    ensures var st' := VisitStmts(name, anchor, ss, st).1;
      Parents(st'.assignments[|st.assignments|..]) == SiteAnchorsSeq(name, anchor, ss)
    decreases ss
  {
    if |ss| > 0 {
      VisitStmtParents(name, anchor, ss[0], st);
      var (s', st1) := VisitStmt(name, anchor, ss[0], st);
      VisitStmtsParents(name, anchor, ss[1..], st1);
      var (rest, st2) := VisitStmts(name, anchor, ss[1..], st1);
      ParentsSplit(st.assignments, st1.assignments, st2.assignments);
    }
  }

  /** Children are visited first: in `name(name(x))` the inner call gets
      the smaller number, and the outer recorded call's argument is the
      inner call's variable. */
  lemma VisitSelfCall(name: string, anchor: Option<nat>, args: seq<Expr>, st: State)
    ensures var r := VisitExprs(name, anchor, args, st);
      var k := r.1.counter;
      VisitExpr(name, anchor, Call(Name(name), args), st) ==
        (Name(FreshName(name, k)), State(k + 1, r.1.assignments + [Lifted(FreshName(name, k), Call(Name(name), r.0), anchor)]))
  {
    assert VisitExpr(name, anchor, Name(name), st) == (Name(name), st);
  }

  lemma VisitSingleton(name: string, anchor: Option<nat>, e: Expr, st: State)
    ensures var r := VisitExpr(name, anchor, e, st);
      VisitExprs(name, anchor, [e], st) == ([r.0], r.1)
  {
    assert [e][1..] == [];
    var r := VisitExpr(name, anchor, e, st);
    assert VisitExprs(name, anchor, [e][1..], r.1) == ([], r.1);
    assert [r.0] + [] == [r.0];
  }

  /** A self-call with one argument: the argument is visited first. */
  lemma VisitUnarySelfCall(name: string, anchor: Option<nat>, a: Expr, st: State, a': Expr, st': State)
    requires VisitExpr(name, anchor, a, st) == (a', st')
    ensures VisitExpr(name, anchor, Call(Name(name), [a]), st) ==
      (Name(FreshName(name, st'.counter)),
       State(st'.counter + 1, st'.assignments + [Lifted(FreshName(name, st'.counter), Call(Name(name), [a']), anchor)]))
  {
    VisitSingleton(name, anchor, a, st);
    VisitSelfCall(name, anchor, [a], st);
  }

  lemma NestedSelfCall(name: string, anchor: Option<nat>, x: Expr, st: State)
    requires SelfCalls(name, x) == 0
    ensures var k := st.counter;
      var inner := Call(Name(name), [x]);
      VisitExpr(name, anchor, Call(Name(name), [inner]), st) ==
        (Name(FreshName(name, k + 1)),
         State(k + 2, st.assignments + [Lifted(FreshName(name, k), inner, anchor),
                                        Lifted(FreshName(name, k + 1), Call(Name(name), [Name(FreshName(name, k))]), anchor)]))
  {
    var k := st.counter;
    var inner := Call(Name(name), [x]);
    var l1 := Lifted(FreshName(name, k), inner, anchor);
    var st1 := State(k + 1, st.assignments + [l1]);
    var l2 := Lifted(FreshName(name, k + 1), Call(Name(name), [Name(FreshName(name, k))]), anchor);
    VisitExprClean(name, anchor, x, st);
    VisitUnarySelfCall(name, anchor, x, st, x, st);
    VisitUnarySelfCall(name, anchor, inner, st, Name(FreshName(name, k)), st1);
    assert st1.assignments + [l2] == st.assignments + [l1, l2];
  }

  /** Position of the recorded variable `x`, searching from the most recent. */
  function Lookup(lifted: seq<Lifted>, x: string): (r: Option<nat>)
    ensures r.Some? ==> r.value < |lifted| && lifted[r.value].target == x
    ensures r.None? ==> forall k :: 0 <= k < |lifted| ==> lifted[k].target != x
  {
    if |lifted| == 0 then None
    else if lifted[|lifted| - 1].target == x then Some(|lifted| - 1)
    else Lookup(lifted[..|lifted| - 1], x)
  }

  /** The inverse of the rewrite: substitute each recorded variable by its
      recorded call, itself expanded with the entries recorded before it. */
  function Inline(e: Expr, lifted: seq<Lifted>): Expr
    decreases |lifted|, e
  {
    match e
    case Name(x) =>
      var k := Lookup(lifted, x);
      if k.Some? then Inline(lifted[k.value].call, lifted[..k.value]) else e
    case Const(_) => e
    case Call(func, args) => Call(Inline(func, lifted), InlineSeq(args, lifted))
    case Tuple(elts) => Tuple(InlineSeq(elts, lifted))
    case BinOp(left, op, right) => BinOp(Inline(left, lifted), op, Inline(right, lifted))
  }

  function InlineSeq(es: seq<Expr>, lifted: seq<Lifted>): (r: seq<Expr>)
    ensures |r| == |es|
    decreases |lifted|, es
  {
    if |es| == 0 then [] else [Inline(es[0], lifted)] + InlineSeq(es[1..], lifted)
  }

  function InlineStmt(s: Stmt, lifted: seq<Lifted>): Stmt
  {
    match s
    case Return(id, v) => if v.Some? then Return(id, Some(Inline(v.value, lifted))) else s
    case If(id, t, b, o) => If(id, Inline(t, lifted), InlineStmts(b, lifted), InlineStmts(o, lifted))
    case Assign(x, e) => Assign(x, Inline(e, lifted))
    case ExprStmt(e) => ExprStmt(Inline(e, lifted))
  }

  function InlineStmts(ss: seq<Stmt>, lifted: seq<Lifted>): seq<Stmt>
  {
    if |ss| == 0 then [] else [InlineStmt(ss[0], lifted)] + InlineStmts(ss[1..], lifted)
  }

  /** Two recordings with the same variables and calls, position by
      position; the parents may differ. */
  predicate SameCalls(a: seq<Lifted>, b: seq<Lifted>)
  {
    && |a| == |b|
    && forall k :: 0 <= k < |a| ==> a[k].target == b[k].target && a[k].call == b[k].call
  }

  lemma {:induction false} LookupSameCalls(a: seq<Lifted>, b: seq<Lifted>, x: string)
    requires SameCalls(a, b)
    ensures Lookup(a, x) == Lookup(b, x)
    decreases |a|
  {
    if |a| > 0 {
      LookupSameCalls(a[..|a| - 1], b[..|b| - 1], x);
    }
  }

  /** Inlining reads only the variables and calls of the recording. */
  lemma {:induction false} InlineSameCalls(e: Expr, a: seq<Lifted>, b: seq<Lifted>)
    requires SameCalls(a, b)
    ensures Inline(e, a) == Inline(e, b)
    decreases |a|, e
  {
    match e
    case Name(x) =>
      LookupSameCalls(a, b, x);
      var k := Lookup(a, x);
      if k.Some? {
        InlineSameCalls(a[k.value].call, a[..k.value], b[..k.value]);
      }
    case Const(_) =>
    case Call(func, args) =>
      InlineSameCalls(func, a, b);
      InlineSeqSameCalls(args, a, b);
    case Tuple(elts) =>
      InlineSeqSameCalls(elts, a, b);
    case BinOp(left, _, right) =>
      InlineSameCalls(left, a, b);
      InlineSameCalls(right, a, b);
  }

  lemma {:induction false} InlineSeqSameCalls(es: seq<Expr>, a: seq<Lifted>, b: seq<Lifted>)
    requires SameCalls(a, b)
    ensures InlineSeq(es, a) == InlineSeq(es, b)
    decreases |a|, es
  {
    if |es| > 0 {
      InlineSameCalls(es[0], a, b);
      InlineSeqSameCalls(es[1..], a, b);
    }
  }

  lemma {:induction false} InlineStmtsSameCalls(ss: seq<Stmt>, a: seq<Lifted>, b: seq<Lifted>)
    requires SameCalls(a, b)
    ensures InlineStmts(ss, a) == InlineStmts(ss, b)
    decreases ss
  {
    if |ss| > 0 {
      match ss[0] {
        case Return(_, v) =>
          if v.Some? {
            InlineSameCalls(v.value, a, b);
          }
        case If(_, t, body, orelse) =>
          InlineSameCalls(t, a, b);
          InlineStmtsSameCalls(body, a, b);
          InlineStmtsSameCalls(orelse, a, b);
        case Assign(_, e) =>
          InlineSameCalls(e, a, b);
        case ExprStmt(e) =>
          InlineSameCalls(e, a, b);
      }
      InlineStmtsSameCalls(ss[1..], a, b);
    }
  }

  /** None of the names `name_0, name_1, ...` is already in use. */
  ghost predicate FreeOfFresh(name: string, names: set<string>)
  {
    forall k: nat :: FreshName(name, k) !in names
  }

  lemma PrefixTrans<T>(a: seq<T>, b: seq<T>, c: seq<T>)
    requires IsPrefix(a, b) && IsPrefix(b, c)
    ensures IsPrefix(a, c)
  {
    assert c[..|a|] == c[..|b|][..|a|];
  }

  lemma LookupFresh(name: string, lifted: seq<Lifted>, k: nat)
    requires NamedInOrder(name, lifted) && k < |lifted|
    ensures Lookup(lifted, FreshName(name, k)) == Some(k)
  {
    var r := Lookup(lifted, FreshName(name, k));
    if r.Some? {
      FreshNameInjective(name, r.value, k);
    }
  }

  /** The step of `InlineVisitExpr` for a recorded call: its variable is
      looked up and replaced by the call, whose parts inline back. */
  lemma InlineSelfCall(name: string, anchor: Option<nat>, func: Expr, args: seq<Expr>, st: State, lifted: seq<Lifted>)
    requires Numbered(name, st)
    requires var (func', st1) := VisitExpr(name, anchor, func, st);
      var (args', st2) := VisitExprs(name, anchor, args, st1);
      && func' == Name(name)
      && Inline(func', st2.assignments) == func && InlineSeq(args', st2.assignments) == args
    requires NamedInOrder(name, lifted) && IsPrefix(VisitExpr(name, anchor, Call(func, args), st).1.assignments, lifted)
    ensures Inline(VisitExpr(name, anchor, Call(func, args), st).0, lifted) == Call(func, args)
  {
    var (func', st1) := VisitExpr(name, anchor, func, st);
    var (args', st2) := VisitExprs(name, anchor, args, st1);
    VisitExprEntries(name, anchor, func, st);
    VisitExprsEntries(name, anchor, args, st1);
    var k := st2.counter;
    var l := Lifted(FreshName(name, k), Call(func', args'), anchor);
    assert VisitExpr(name, anchor, Call(func, args), st).1.assignments == st2.assignments + [l];
    assert lifted[..k + 1] == st2.assignments + [l];
    assert lifted[k] == lifted[..k + 1][k];
    assert lifted[..k] == lifted[..k + 1][..k];
    LookupFresh(name, lifted, k);
  }

  lemma {:induction false} InlineVisitExpr(name: string, anchor: Option<nat>, e: Expr, st: State, lifted: seq<Lifted>)
    requires Numbered(name, st) && FreeOfFresh(name, Names(e))
    requires NamedInOrder(name, lifted) && IsPrefix(VisitExpr(name, anchor, e, st).1.assignments, lifted)
    ensures Inline(VisitExpr(name, anchor, e, st).0, lifted) == e
    decreases e, 1
  {
    match e
    case Name(x) =>
    case Const(_) =>
    case Call(func, args) =>
      InlineVisitCall(name, anchor, func, args, st, lifted);
    case Tuple(elts) =>
      InlineVisitExprs(name, anchor, elts, st, lifted);
    case BinOp(left, op, right) =>
      var (left', st1) := VisitExpr(name, anchor, left, st);
      VisitExprEntries(name, anchor, left, st);
      PrefixTrans(st1.assignments, VisitExpr(name, anchor, right, st1).1.assignments, lifted);
      InlineVisitExpr(name, anchor, left, st, lifted);
      InlineVisitExpr(name, anchor, right, st1, lifted);
  }

  lemma {:induction false} InlineVisitCall(name: string, anchor: Option<nat>, func: Expr, args: seq<Expr>, st: State, lifted: seq<Lifted>)
    requires Numbered(name, st) && FreeOfFresh(name, Names(Call(func, args)))
    requires NamedInOrder(name, lifted) && IsPrefix(VisitExpr(name, anchor, Call(func, args), st).1.assignments, lifted)
    ensures Inline(VisitExpr(name, anchor, Call(func, args), st).0, lifted) == Call(func, args)
    decreases Call(func, args), 0
  {
    var (func', st1) := VisitExpr(name, anchor, func, st);
    var (args', st2) := VisitExprs(name, anchor, args, st1);
    VisitExprEntries(name, anchor, func, st);
    VisitExprsEntries(name, anchor, args, st1);
    if func' == Name(name) {
      InlineVisitExpr(name, anchor, func, st, st2.assignments);
      InlineVisitExprs(name, anchor, args, st1, st2.assignments);
      InlineSelfCall(name, anchor, func, args, st, lifted);
    } else {
      PrefixTrans(st1.assignments, st2.assignments, lifted);
      InlineVisitExpr(name, anchor, func, st, lifted);
      InlineVisitExprs(name, anchor, args, st1, lifted);
    }
  }

  lemma {:induction false} InlineVisitExprs(name: string, anchor: Option<nat>, es: seq<Expr>, st: State, lifted: seq<Lifted>)
    requires Numbered(name, st) && FreeOfFresh(name, NamesSeq(es))
    requires NamedInOrder(name, lifted) && IsPrefix(VisitExprs(name, anchor, es, st).1.assignments, lifted)
    ensures InlineSeq(VisitExprs(name, anchor, es, st).0, lifted) == es
    decreases es, 1
  {
    if |es| > 0 {
      var (e', st1) := VisitExpr(name, anchor, es[0], st);
      var (rest, st2) := VisitExprs(name, anchor, es[1..], st1);
      VisitExprEntries(name, anchor, es[0], st);
      PrefixTrans(st1.assignments, st2.assignments, lifted);
      InlineVisitExpr(name, anchor, es[0], st, lifted);
      InlineVisitExprs(name, anchor, es[1..], st1, lifted);
      assert ([e'] + rest)[1..] == rest;
      assert es == [es[0]] + es[1..];
    }
  }

  lemma {:induction false} InlineVisitStmt(name: string, anchor: Option<nat>, s: Stmt, st: State, lifted: seq<Lifted>)
    requires Numbered(name, st) && FreeOfFresh(name, StmtNames(s))
    requires NamedInOrder(name, lifted) && IsPrefix(VisitStmt(name, anchor, s, st).1.assignments, lifted)
    ensures InlineStmt(VisitStmt(name, anchor, s, st).0, lifted) == s
    decreases s
  {
    match s
    case Return(id, v) =>
      if v.Some? {
        InlineVisitExpr(name, Some(id), v.value, st, lifted);
      }
    case If(id, t, b, o) =>
      var (t', st1) := VisitExpr(name, Some(id), t, st);
      var (b', st2) := VisitStmts(name, Some(id), b, st1);
      var (o', st3) := VisitStmts(name, Some(id), o, st2);
      VisitExprEntries(name, Some(id), t, st);
      VisitStmtsCalls(name, Some(id), b, st1);
      PrefixTrans(st2.assignments, st3.assignments, lifted);
      PrefixTrans(st1.assignments, st2.assignments, lifted);
      InlineVisitExpr(name, Some(id), t, st, lifted);
      InlineVisitStmts(name, Some(id), b, st1, lifted);
      InlineVisitStmts(name, Some(id), o, st2, lifted);
    case Assign(x, e) =>
      InlineVisitExpr(name, anchor, e, st, lifted);
    case ExprStmt(e) =>
      InlineVisitExpr(name, anchor, e, st, lifted);
  }

  /** Substituting the recorded calls back for their variables gives the
      statements that were visited, provided none of the fresh names was
      already in use. */
  lemma {:induction false} InlineVisitStmts(name: string, anchor: Option<nat>, ss: seq<Stmt>, st: State, lifted: seq<Lifted>)
    requires Numbered(name, st) && FreeOfFresh(name, StmtsNames(ss))
    requires NamedInOrder(name, lifted) && IsPrefix(VisitStmts(name, anchor, ss, st).1.assignments, lifted)
    ensures InlineStmts(VisitStmts(name, anchor, ss, st).0, lifted) == ss
    decreases ss
  {
    if |ss| > 0 {
      var (s', st1) := VisitStmt(name, anchor, ss[0], st);
      var (rest, st2) := VisitStmts(name, anchor, ss[1..], st1);
      VisitStmtCalls(name, anchor, ss[0], st);
      PrefixTrans(st1.assignments, st2.assignments, lifted);
      InlineVisitStmt(name, anchor, ss[0], st, lifted);
      InlineVisitStmts(name, anchor, ss[1..], st1, lifted);
      assert ([s'] + rest)[1..] == rest;
      assert ss == [ss[0]] + ss[1..];
    }
  }
}
