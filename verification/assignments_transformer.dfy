/** Third pass of `transform_body`: before each statement that was recorded
    as the parent of some self-calls, insert `name_k = <call>` assignments
    for them, in recording order, flattened into the enclosing statement
    list. The parent test is identity (`parent is node`), modelled by the
    `id` of `If`/`Return` nodes. */
module AssignmentsTransformer {
  import opened Wrappers
  import opened PyAst
  import opened Seqs
  import opened CallTransformer

  /** The entries recorded with parent `id`, in recording order. */
  function AnchoredAt(lifted: seq<Lifted>, id: nat): (r: seq<Lifted>)
    ensures |r| <= |lifted|
    ensures forall l :: l in r <==> l in lifted && l.parent == Some(id)
  {
    if |lifted| == 0 then []
    else (if lifted[0].parent == Some(id) then [lifted[0]] else []) + AnchoredAt(lifted[1..], id)
  }

  /** `name_k = <call>` for each entry, in order. */
  function Assigns(ls: seq<Lifted>): seq<Stmt>
  {
    seq(|ls|, i requires 0 <= i < |ls| => Assign(ls[i].target, ls[i].call))
  }

  /** The assignments recorded with `node` as their parent, in recording order. */
  function Matches(lifted: seq<Lifted>, id: nat): (r: seq<Stmt>)
    ensures |r| <= |lifted|
    ensures forall i :: 0 <= i < |r| ==> r[i].Assign?
  {
    if |lifted| == 0 then []
    else
      var l := lifted[0];
      (if l.parent == Some(id) then [Assign(l.target, l.call)] else []) + Matches(lifted[1..], id)
  }

  /** `matches` at call_once.py:80-92 is `name_k = <call>` for exactly the
      entries recorded with the node as parent, in recording order. */
  lemma {:induction false} MatchesAssigns(lifted: seq<Lifted>, id: nat)
    ensures Matches(lifted, id) == Assigns(AnchoredAt(lifted, id))
  {
    if |lifted| > 0 {
      var l := lifted[0];
      MatchesAssigns(lifted[1..], id);
      if l.parent == Some(id) {
        assert AnchoredAt(lifted, id) == [l] + AnchoredAt(lifted[1..], id);
        assert Assigns([l] + AnchoredAt(lifted[1..], id)) == [Assign(l.target, l.call)] + Assigns(AnchoredAt(lifted[1..], id));
      } else {
        assert AnchoredAt(lifted, id) == AnchoredAt(lifted[1..], id);
      }
    }
  }

  /** Each emitted statement assigns some recorded entry's call to its
      variable, and each entry recorded with this parent is emitted. */
  lemma MatchesMembers(lifted: seq<Lifted>, id: nat)
    ensures forall s :: s in Matches(lifted, id) <==>
      exists l :: l in lifted && l.parent == Some(id) && s == Assign(l.target, l.call)
  {
    MatchesAssigns(lifted, id);
    var a := AnchoredAt(lifted, id);
    forall s | s in Matches(lifted, id)
      ensures exists l :: l in lifted && l.parent == Some(id) && s == Assign(l.target, l.call)
    {
      var i :| 0 <= i < |a| && s == Assigns(a)[i];
      assert a[i] in a;
    }
    forall l | l in lifted && l.parent == Some(id)
      ensures Assign(l.target, l.call) in Matches(lifted, id)
    {
      var i :| 0 <= i < |a| && a[i] == l;
      assert Assigns(a)[i] == Assign(l.target, l.call);
    }
  }

  /** Entries recorded later are emitted later. */
  lemma {:induction false} MatchesAppend(a: seq<Lifted>, b: seq<Lifted>, id: nat)
    ensures Matches(a + b, id) == Matches(a, id) + Matches(b, id)
  {
    if |a| == 0 {
      assert a + b == b;
    } else {
      assert (a + b)[1..] == a[1..] + b;
      MatchesAppend(a[1..], b, id);
    }
  }

  /** `generic_visit`: children first, then the matching assignments in
      front of the node itself. */
  function VisitStmt(lifted: seq<Lifted>, s: Stmt): (r: seq<Stmt>)
    ensures |r| > 0
    decreases s
  {
    match s
    case Return(id, _) => Matches(lifted, id) + [s]
    case If(id, t, b, o) => Matches(lifted, id) + [If(id, t, VisitStmts(lifted, b), VisitStmts(lifted, o))]
    case Assign(_, _) => [s]
    case ExprStmt(_) => [s]
  }

  /** What a statement becomes: an `If` or `Return` is preceded by the
      assignments of exactly the entries recorded with it as parent, in
      recording order, and an `If` has its branches visited; any other
      statement stays as it is. */
  lemma VisitStmtShape(lifted: seq<Lifted>, s: Stmt)
    ensures s.Return? ==> VisitStmt(lifted, s) == Assigns(AnchoredAt(lifted, s.id)) + [s]
    ensures s.If? ==>
              VisitStmt(lifted, s) ==
              Assigns(AnchoredAt(lifted, s.id)) + [If(s.id, s.test, VisitStmts(lifted, s.body), VisitStmts(lifted, s.orelse))]
    ensures (s.Assign? || s.ExprStmt?) ==> VisitStmt(lifted, s) == [s]
  {
    if s.Return? || s.If? {
      MatchesAssigns(lifted, s.id);
    }
  }

  /** Statements are visited one by one and the results concatenated in
      order, as `transform_body` does at call_once.py:105-111. */
  lemma {:induction false} VisitStmtsAppend(lifted: seq<Lifted>, a: seq<Stmt>, b: seq<Stmt>)
    ensures VisitStmts(lifted, a + b) == VisitStmts(lifted, a) + VisitStmts(lifted, b)
    decreases a
  {
    if |a| == 0 {
      assert a + b == b;
    } else {
      assert (a + b)[0] == a[0] && (a + b)[1..] == a[1..] + b;
      VisitStmtsAppend(lifted, a[1..], b);
    }
  }

  /** A one-statement list becomes exactly that statement's result. */
  lemma VisitStmtsSingle(lifted: seq<Lifted>, s: Stmt)
    ensures VisitStmts(lifted, [s]) == VisitStmt(lifted, s)
  {
    assert VisitStmts(lifted, [s]) == VisitStmt(lifted, s) + VisitStmts(lifted, []);
  }

  /** A statement list, with each statement's result spliced in place. */
  function VisitStmts(lifted: seq<Lifted>, ss: seq<Stmt>): (r: seq<Stmt>)
    ensures |r| >= |ss|
    decreases ss
  {
    if |ss| == 0 then [] else VisitStmt(lifted, ss[0]) + VisitStmts(lifted, ss[1..])
  }

  /** The reverse direction: drop assignments to the given variables. */
  function StripStmts(ss: seq<Stmt>, vars: set<string>): seq<Stmt>
    decreases ss
  {
    if |ss| == 0 then []
    else
      var s := ss[0];
      var head :=
        match s
        case If(id, t, b, o) => [If(id, t, StripStmts(b, vars), StripStmts(o, vars))]
        case Assign(x, _) => if x in vars then [] else [s]
        case _ => [s];
      head + StripStmts(ss[1..], vars)
  }

  function Targets(lifted: seq<Lifted>): set<string>
  {
    set l | l in lifted :: l.target
  }

  lemma {:induction false} StripAppend(a: seq<Stmt>, b: seq<Stmt>, vars: set<string>)
    ensures StripStmts(a + b, vars) == StripStmts(a, vars) + StripStmts(b, vars)
  {
    if |a| == 0 {
      assert a + b == b;
    } else {
      assert (a + b)[1..] == a[1..] + b;
      StripAppend(a[1..], b, vars);
    }
  }

  lemma {:induction false} StripMatches(lifted: seq<Lifted>, id: nat, vars: set<string>)
    requires Targets(lifted) <= vars
    ensures StripStmts(Matches(lifted, id), vars) == []
  {
    if |lifted| > 0 {
      var l := lifted[0];
      assert l in lifted;
      assert Targets(lifted[1..]) <= Targets(lifted);
      StripMatches(lifted[1..], id, vars);
      var m := if l.parent == Some(id) then [Assign(l.target, l.call)] else [];
      StripAppend(m, Matches(lifted[1..], id), vars);
      if m != [] {
        assert m[1..] == [];
      }
    }
  }

  lemma {:induction false} StripVisitStmt(lifted: seq<Lifted>, s: Stmt)
    requires forall l :: l in lifted ==> l.target !in StmtAssignTargets(s)
    ensures StripStmts(VisitStmt(lifted, s), Targets(lifted)) == [s]
    decreases s
  {
    var vars := Targets(lifted);
    match s
    case Return(id, _) =>
      StripMatches(lifted, id, vars);
      StripAppend(Matches(lifted, id), [s], vars);
      assert [s][1..] == [];
    case If(id, t, b, o) =>
      StripMatches(lifted, id, vars);
      var s' := If(id, t, VisitStmts(lifted, b), VisitStmts(lifted, o));
      StripAppend(Matches(lifted, id), [s'], vars);
      assert [s'][1..] == [];
      StripVisitStmts(lifted, b);
      StripVisitStmts(lifted, o);
    case Assign(x, _) =>
      assert x !in vars;
      assert [s][1..] == [];
    case ExprStmt(_) =>
      assert [s][1..] == [];
  }

  /** Inserting the assignments loses nothing: removing them again gives
      back the visited statements, as long as those did not themselves
      assign any of the recorded variables. */
  lemma {:induction false} StripVisitStmts(lifted: seq<Lifted>, ss: seq<Stmt>)
    requires forall l :: l in lifted ==> l.target !in AssignTargets(ss)
    ensures StripStmts(VisitStmts(lifted, ss), Targets(lifted)) == ss
    decreases ss
  {
    if |ss| > 0 {
      StripVisitStmt(lifted, ss[0]);
      StripVisitStmts(lifted, ss[1..]);
      StripAppend(VisitStmt(lifted, ss[0]), VisitStmts(lifted, ss[1..]), Targets(lifted));
      assert ss == [ss[0]] + ss[1..];
    }
  }

  /** Number of recorded parents that are one of `ids`. */
  function CountAnchored(parents: seq<Option<nat>>, ids: set<nat>): nat
  {
    if |parents| == 0 then 0
    else (if parents[0].Some? && parents[0].value in ids then 1 else 0) + CountAnchored(parents[1..], ids)
  }

  lemma {:induction false} CountAnchoredAppend(a: seq<Option<nat>>, b: seq<Option<nat>>, ids: set<nat>)
    ensures CountAnchored(a + b, ids) == CountAnchored(a, ids) + CountAnchored(b, ids)
  {
    if |a| == 0 {
      assert a + b == b;
    } else {
      assert (a + b)[1..] == a[1..] + b;
      CountAnchoredAppend(a[1..], b, ids);
    }
  }

  /** Only when every parent is one of `ids` are all of them counted. */
  lemma {:induction false} CountAnchoredAll(ps: seq<Option<nat>>, ids: set<nat>)
    ensures CountAnchored(ps, ids) <= |ps|
    ensures CountAnchored(ps, ids) == |ps| <==>
      forall i :: 0 <= i < |ps| ==> ps[i].Some? && ps[i].value in ids
  {
    if |ps| > 0 {
      CountAnchoredAll(ps[1..], ids);
      if CountAnchored(ps, ids) == |ps| {
        forall i | 0 <= i < |ps|
          ensures ps[i].Some? && ps[i].value in ids
        {
          if i > 0 {
            assert ps[i] == ps[1..][i - 1];
          }
        }
      } else if forall i :: 0 <= i < |ps| ==> ps[i].Some? && ps[i].value in ids {
        assert forall i :: 0 <= i < |ps[1..]| ==> ps[1..][i] == ps[i + 1];
      }
    }
  }

  lemma {:induction false} CountAnchoredNone(ps: seq<Option<nat>>)
    ensures CountAnchored(ps, {}) == 0
  {
    if |ps| > 0 {
      CountAnchoredNone(ps[1..]);
    }
  }

  lemma {:induction false} CountAnchoredUnion(ps: seq<Option<nat>>, x: set<nat>, y: set<nat>)
    requires x !! y
    ensures CountAnchored(ps, x + y) == CountAnchored(ps, x) + CountAnchored(ps, y)
  {
    if |ps| > 0 {
      CountAnchoredUnion(ps[1..], x, y);
    }
  }

  lemma {:induction false} MatchesCount(lifted: seq<Lifted>, id: nat)
    ensures |Matches(lifted, id)| == CountAnchored(Parents(lifted), {id})
    ensures CountAssigns(Matches(lifted, id)) == |Matches(lifted, id)|
  {
    if |lifted| > 0 {
      assert Parents(lifted)[1..] == Parents(lifted[1..]);
      MatchesCount(lifted[1..], id);
      var l := lifted[0];
      var m := if l.parent == Some(id) then [Assign(l.target, l.call)] else [];
      CountAssignsAppend(m, Matches(lifted[1..], id));
      if m != [] {
        assert m[1..] == [];
      }
    }
  }

  function StmtIdSet(s: Stmt): set<nat>
  {
    set i | i in StmtAnchorIds(s)
  }

  lemma {:induction false} VisitStmtCount(lifted: seq<Lifted>, s: Stmt)
    requires Distinct(StmtAnchorIds(s))
    ensures CountAssigns(VisitStmt(lifted, s)) == CountAssignsStmt(s) + CountAnchored(Parents(lifted), StmtIdSet(s))
    decreases s
  {
    var ps := Parents(lifted);
    match s
    case Return(id, _) =>
      MatchesCount(lifted, id);
      CountAssignsAppend(Matches(lifted, id), [s]);
      assert [s][1..] == [];
      assert StmtIdSet(s) == {id};
    case If(id, t, b, o) =>
      MatchesCount(lifted, id);
      var s' := If(id, t, VisitStmts(lifted, b), VisitStmts(lifted, o));
      CountAssignsAppend(Matches(lifted, id), [s']);
      assert [s'][1..] == [];
      assert StmtAnchorIds(s) == [id] + (AnchorIds(b) + AnchorIds(o));
      DistinctSplit([id], AnchorIds(b) + AnchorIds(o));
      DistinctSplit(AnchorIds(b), AnchorIds(o));
      VisitStmtsCount(lifted, b);
      VisitStmtsCount(lifted, o);
      assert StmtIdSet(s) == {id} + (IdSet(b) + IdSet(o));
      CountAnchoredUnion(ps, {id}, IdSet(b) + IdSet(o));
      CountAnchoredUnion(ps, IdSet(b), IdSet(o));
    case Assign(_, _) =>
      assert [s][1..] == [];
      assert StmtIdSet(s) == {};
      CountAnchoredNone(ps);
    case ExprStmt(_) =>
      assert [s][1..] == [];
      assert StmtIdSet(s) == {};
      CountAnchoredNone(ps);
  }

  /** With distinct node identities, each recorded entry whose parent is a
      node of the list yields exactly one assignment, and the others
      (parent `None` included) yield none. */
  lemma {:induction false} VisitStmtsCount(lifted: seq<Lifted>, ss: seq<Stmt>)
    requires UniqueIds(ss)
    ensures CountAssigns(VisitStmts(lifted, ss)) == CountAssigns(ss) + CountAnchored(Parents(lifted), IdSet(ss))
    decreases ss
  {
    if |ss| > 0 {
      DistinctSplit(StmtAnchorIds(ss[0]), AnchorIds(ss[1..]));
      VisitStmtCount(lifted, ss[0]);
      VisitStmtsCount(lifted, ss[1..]);
      CountAssignsAppend(VisitStmt(lifted, ss[0]), VisitStmts(lifted, ss[1..]));
      assert IdSet(ss) == StmtIdSet(ss[0]) + IdSet(ss[1..]);
      CountAnchoredUnion(Parents(lifted), StmtIdSet(ss[0]), IdSet(ss[1..]));
    } else {
      assert IdSet(ss) == {};
      CountAnchoredNone(Parents(lifted));
    }
  }

  /** A list none of whose nodes was recorded as a parent is left as it is. */
  lemma {:induction false} VisitStmtsUntouched(lifted: seq<Lifted>, ss: seq<Stmt>)
    requires forall l :: l in lifted && l.parent.Some? ==> l.parent.value !in IdSet(ss)
    ensures VisitStmts(lifted, ss) == ss
    decreases ss
  {
    if |ss| > 0 {
      assert IdSet(ss) == StmtIdSet(ss[0]) + IdSet(ss[1..]);
      VisitStmtUntouched(lifted, ss[0]);
      VisitStmtsUntouched(lifted, ss[1..]);
      assert ss == [ss[0]] + ss[1..];
    }
  }

  lemma {:induction false} VisitStmtUntouched(lifted: seq<Lifted>, s: Stmt)
    requires forall l :: l in lifted && l.parent.Some? ==> l.parent.value !in StmtIdSet(s)
    ensures VisitStmt(lifted, s) == [s]
    decreases s
  {
    match s {
      case Return(id, _) =>
        NoMatches(lifted, id);
      case If(id, t, b, o) =>
        NoMatches(lifted, id);
        assert StmtIdSet(s) == {id} + (IdSet(b) + IdSet(o));
        VisitStmtsUntouched(lifted, b);
        VisitStmtsUntouched(lifted, o);
      case _ =>
    }
  }

  lemma {:induction false} NoMatches(lifted: seq<Lifted>, id: nat)
    requires forall l :: l in lifted ==> l.parent != Some(id)
    ensures Matches(lifted, id) == []
  {
    if |lifted| > 0 {
      assert lifted[0] in lifted;
      NoMatches(lifted[1..], id);
    }
  }

  // ---------------------------------------------------------------------
  // The inserted assignments, collected back from the output

  /** The assignments to one of `vars` anywhere in a statement list,
      those in `If` branches included. */
  function AssignsTo(ss: seq<Stmt>, vars: set<string>): set<Stmt>
    decreases ss
  {
    if |ss| == 0 then {} else StmtAssignsTo(ss[0], vars) + AssignsTo(ss[1..], vars)
  }

  function StmtAssignsTo(s: Stmt, vars: set<string>): set<Stmt>
    decreases s
  {
    match s
    case If(_, _, b, o) => AssignsTo(b, vars) + AssignsTo(o, vars)
    case Assign(x, _) => if x in vars then {s} else {}
    case _ => {}
  }

  /** `name_k = <call>` for each entry recorded with a parent among `ids`. */
  function Emitted(lifted: seq<Lifted>, ids: set<nat>): set<Stmt>
  {
    set l | l in lifted && l.parent.Some? && l.parent.value in ids :: Assign(l.target, l.call)
  }

  lemma {:induction false} AssignsToAppend(a: seq<Stmt>, b: seq<Stmt>, vars: set<string>)
    ensures AssignsTo(a + b, vars) == AssignsTo(a, vars) + AssignsTo(b, vars)
  {
    if |a| == 0 {
      assert a + b == b;
    } else {
      assert (a + b)[0] == a[0] && (a + b)[1..] == a[1..] + b;
      AssignsToAppend(a[1..], b, vars);
    }
  }

  lemma {:induction false} AssignsToMatches(lifted: seq<Lifted>, id: nat, vars: set<string>)
    requires Targets(lifted) <= vars
    ensures AssignsTo(Matches(lifted, id), vars) == Emitted(lifted, {id})
  {
    if |lifted| == 0 {
      assert Emitted(lifted, {id}) == {};
    } else {
      var l := lifted[0];
      assert l in lifted;
      assert Targets(lifted[1..]) <= Targets(lifted);
      AssignsToMatches(lifted[1..], id, vars);
      var m := if l.parent == Some(id) then [Assign(l.target, l.call)] else [];
      AssignsToAppend(m, Matches(lifted[1..], id), vars);
      assert AssignsTo(m, vars) == if l.parent == Some(id) then {Assign(l.target, l.call)} else {};
      assert lifted == [l] + lifted[1..];
      assert Emitted(lifted, {id}) == AssignsTo(m, vars) + Emitted(lifted[1..], {id});
    }
  }

  lemma EmittedUnion(lifted: seq<Lifted>, x: set<nat>, y: set<nat>)
    ensures Emitted(lifted, x + y) == Emitted(lifted, x) + Emitted(lifted, y)
  {
  }

  lemma EmittedNone(lifted: seq<Lifted>)
    ensures Emitted(lifted, {}) == {}
  {
  }

  lemma {:induction false} AssignsToVisitStmt(lifted: seq<Lifted>, s: Stmt, vars: set<string>)
    requires Targets(lifted) <= vars && vars !! StmtAssignTargets(s)
    ensures AssignsTo(VisitStmt(lifted, s), vars) == Emitted(lifted, StmtIdSet(s))
    decreases s
  {
    match s
    case Return(id, _) =>
      AssignsToMatches(lifted, id, vars);
      AssignsToAppend(Matches(lifted, id), [s], vars);
      assert [s][1..] == [];
      assert StmtIdSet(s) == {id};
    case If(id, t, b, o) =>
      AssignsToMatches(lifted, id, vars);
      var s' := If(id, t, VisitStmts(lifted, b), VisitStmts(lifted, o));
      AssignsToAppend(Matches(lifted, id), [s'], vars);
      assert [s'][1..] == [];
      AssignsToVisitStmts(lifted, b, vars);
      AssignsToVisitStmts(lifted, o, vars);
      assert StmtAnchorIds(s) == [id] + AnchorIds(b) + AnchorIds(o);
      assert StmtIdSet(s) == {id} + IdSet(b) + IdSet(o);
      EmittedUnion(lifted, {id} + IdSet(b), IdSet(o));
      EmittedUnion(lifted, {id}, IdSet(b));
    case Assign(x, _) =>
      assert [s][1..] == [];
      assert StmtIdSet(s) == {};
      EmittedNone(lifted);
    case ExprStmt(_) =>
      assert [s][1..] == [];
      assert StmtIdSet(s) == {};
      EmittedNone(lifted);
  }

  /** Collecting the assignments to the recorded variables (and possibly
      other variables the list does not assign) from the output gives back
      `name_k = <call>` for exactly the entries whose parent is a node of
      the list. */
  lemma {:induction false} AssignsToVisitStmts(lifted: seq<Lifted>, ss: seq<Stmt>, vars: set<string>)
    requires Targets(lifted) <= vars && vars !! AssignTargets(ss)
    ensures AssignsTo(VisitStmts(lifted, ss), vars) == Emitted(lifted, IdSet(ss))
    decreases ss
  {
    if |ss| > 0 {
      AssignsToVisitStmt(lifted, ss[0], vars);
      AssignsToVisitStmts(lifted, ss[1..], vars);
      AssignsToAppend(VisitStmt(lifted, ss[0]), VisitStmts(lifted, ss[1..]), vars);
      assert IdSet(ss) == StmtIdSet(ss[0]) + IdSet(ss[1..]);
      EmittedUnion(lifted, StmtIdSet(ss[0]), IdSet(ss[1..]));
    } else {
      assert IdSet(ss) == {};
      EmittedNone(lifted);
    }
  }
}
