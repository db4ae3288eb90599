/** First pass of `transform_body`: every `return e` becomes
    `return ("result", e)`; a bare `return` is left alone. */
module ReturnTransformer {
  import opened Wrappers
  import opened PyAst

  /** The tuple `("result", e)`. */
  function Tagged(e: Expr): Expr
  {
    Tuple([Const(StrLit("result")), e])
  }

  lemma NamesTagged(e: Expr)
    ensures Names(Tagged(e)) == Names(e)
  {
    var elts := Tagged(e).elts;
    assert elts[1..] == [e];
    assert elts[1..][1..] == [];
    calc {
      Names(Tagged(e));
      NamesSeq(elts);
      Names(elts[0]) + NamesSeq(elts[1..]);
      Names(Const(StrLit("result"))) + (Names(e) + NamesSeq(elts[1..][1..]));
    }
  }

  /** A `return` that carries a value carries a tagged one. */
  predicate StmtTagged(s: Stmt)
  {
    match s
    case Return(_, v) => v.None? || (v.value.Tuple? && |v.value.elts| == 2 && v.value.elts[0] == Const(StrLit("result")))
    case If(_, _, b, o) => AllTagged(b) && AllTagged(o)
    case Assign(_, _) => true
    case ExprStmt(_) => true
  }

  predicate AllTagged(ss: seq<Stmt>)
  {
    forall i :: 0 <= i < |ss| ==> StmtTagged(ss[i])
  }

  /** `visit_Return`, reached through the default traversal of `If` bodies. */
  function VisitStmt(s: Stmt): (r: Stmt)
    ensures StmtTagged(r)
    ensures StmtAnchorIds(r) == StmtAnchorIds(s)
    ensures StmtNames(r) == StmtNames(s)
  {
    match s
    case Return(id, v) =>
      if v.Some? then NamesTagged(v.value); Return(id, Some(Tagged(v.value))) else s
    case If(id, t, b, o) => If(id, t, VisitStmts(b), VisitStmts(o))
    case Assign(_, _) => s
    case ExprStmt(_) => s
  }

  function VisitStmts(ss: seq<Stmt>): (r: seq<Stmt>)
    ensures AllTagged(r)
    ensures AnchorIds(r) == AnchorIds(ss)
    ensures StmtsNames(r) == StmtsNames(ss)
  {
    if |ss| == 0 then [] else [VisitStmt(ss[0])] + VisitStmts(ss[1..])
  }

  /** The reverse direction: drop the `"result"` tag from tagged returns. */
  function UntagStmt(s: Stmt): Stmt
  {
    match s
    case Return(id, v) =>
      if v.Some? && v.value.Tuple? && |v.value.elts| == 2 && v.value.elts[0] == Const(StrLit("result"))
      then Return(id, Some(v.value.elts[1])) else s
    case If(id, t, b, o) => If(id, t, UntagStmts(b), UntagStmts(o))
    case Assign(_, _) => s
    case ExprStmt(_) => s
  }

  function UntagStmts(ss: seq<Stmt>): seq<Stmt>
  {
    if |ss| == 0 then [] else [UntagStmt(ss[0])] + UntagStmts(ss[1..])
  }

  /** Tagging loses nothing: every return value, bare return and other
      statement is recovered by untagging. */
  lemma {:induction false} UntagVisit(ss: seq<Stmt>)
    ensures UntagStmts(VisitStmts(ss)) == ss
    decreases ss
  {
    if |ss| > 0 {
      UntagVisitStmt(ss[0]);
      UntagVisit(ss[1..]);
      assert ss == [ss[0]] + ss[1..];
    }
  }

  lemma {:induction false} UntagVisitStmt(s: Stmt)
    ensures UntagStmt(VisitStmt(s)) == s
    decreases s
  {
    match s
    case If(id, t, b, o) =>
      UntagVisit(b);
      UntagVisit(o);
    case _ =>
  }

  lemma SelfCallsTagged(name: string, e: Expr)
    ensures SelfCalls(name, Tagged(e)) == SelfCalls(name, e)
  {
    var elts := Tagged(e).elts;
    assert elts[1..] == [e];
    assert elts[1..][1..] == [];
    assert SelfCallsSeq(name, elts) == SelfCalls(name, elts[0]) + (SelfCalls(name, e) + SelfCallsSeq(name, []));
  }

  /** Tagging adds no call, assignment or top-level self-call. */
  lemma {:induction false} VisitKeepsCounts(name: string, ss: seq<Stmt>)
    ensures SelfCallsStmts(name, VisitStmts(ss)) == SelfCallsStmts(name, ss)
    ensures TopLevelSelfCalls(name, VisitStmts(ss)) == TopLevelSelfCalls(name, ss)
    ensures CountAssigns(VisitStmts(ss)) == CountAssigns(ss)
    ensures AssignTargets(VisitStmts(ss)) == AssignTargets(ss)
    decreases ss
  {
    if |ss| > 0 {
      var r := VisitStmts(ss);
      assert r[0] == VisitStmt(ss[0]) && r[1..] == VisitStmts(ss[1..]);
      match ss[0] {
        case Return(id, v) =>
          if v.Some? {
            SelfCallsTagged(name, v.value);
          }
        case If(id, t, b, o) =>
          VisitKeepsCounts(name, b);
          VisitKeepsCounts(name, o);
        case _ =>
      }
      VisitKeepsCounts(name, ss[1..]);
    }
  }
}
