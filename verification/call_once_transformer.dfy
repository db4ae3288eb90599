/** `transform_body` (the three passes in order) and `CallOnceTransformer`,
    which replaces every function marked `@call_once` by a cache, a
    memoising wrapper and the rewritten `_aux` function. */
module CallOnceTransformer {
  import opened Wrappers
  import opened PyAst
  import opened Keys
  import RT = ReturnTransformer
  import CT = CallTransformer
  import AT = AssignmentsTransformer

  /** The self-calls the call pass records for `body`, in post-order. */
  function Recorded(name: string, body: seq<Stmt>): seq<CT.Lifted>
  {
    CT.VisitStmts(name, None, RT.VisitStmts(body), CT.Start).1.assignments
  }

  /** `transform_body(body, func_name)`. */
  function TransformBody(body: seq<Stmt>, name: string): seq<Stmt>
  {
    var tagged := RT.VisitStmts(body);
    var (replaced, st) := CT.VisitStmts(name, None, tagged, CT.Start);
    AT.VisitStmts(st.assignments, replaced)
  }

  /** The recorded calls are numbered `name_0, name_1, ...`, one per
      self-call of the body, each a direct self-call with self-call-free
      arguments, and each recorded with its innermost enclosing `If` or
      `Return` (`None` when there is none). */
  lemma RecordedCalls(name: string, body: seq<Stmt>)
    ensures var lifted := Recorded(name, body);
      && |lifted| == SelfCallsStmts(name, body)
      && CT.NamedInOrder(name, lifted)
      && (forall k :: 0 <= k < |lifted| ==> CT.LiftedCallOk(name, lifted[k]))
      && CT.Parents(lifted) == CT.SiteAnchorsSeq(name, None, RT.VisitStmts(body))
  {
    var tagged := RT.VisitStmts(body);
    RT.VisitKeepsCounts(name, body);
    CT.VisitStmtsCalls(name, None, tagged, CT.Start);
    CT.VisitStmtsParents(name, None, tagged, CT.Start);
    var lifted := Recorded(name, body);
    assert lifted[0..] == lifted;
  }

  /** Given the calls recorded for the input body, the rewrite can be
      undone: removing the inserted assignments, substituting the recorded
      calls back for their variables and dropping the `"result"` tags gives
      the original body, provided the body does not already use one of the
      names `name_k`. The calls of top-level simple statements are only
      in the recording (`TopLevelCallLost`); without those the output
      alone determines the body (`TransformBodyInjective`). */
  lemma TransformBodyRoundTrip(name: string, body: seq<Stmt>)
    requires CT.FreeOfFresh(name, StmtsNames(body))
    ensures var lifted := Recorded(name, body);
      RT.UntagStmts(CT.InlineStmts(AT.StripStmts(TransformBody(body, name), AT.Targets(lifted)), lifted)) == body
  {
    var tagged := RT.VisitStmts(body);
    var (replaced, st) := CT.VisitStmts(name, None, tagged, CT.Start);
    var lifted := st.assignments;
    TargetsUnassigned(name, tagged);
    AT.StripVisitStmts(lifted, replaced);
    assert AT.StripStmts(TransformBody(body, name), AT.Targets(lifted)) == replaced;
    CT.VisitStmtsCalls(name, None, tagged, CT.Start);
    CT.InlineVisitStmts(name, None, tagged, CT.Start, lifted);
    assert CT.InlineStmts(replaced, lifted) == tagged;
    RT.UntagVisit(body);
  }

  /** No statement of the rewritten body assigns a recorded variable. */
  lemma TargetsUnassigned(name: string, tagged: seq<Stmt>)
    requires CT.FreeOfFresh(name, StmtsNames(tagged))
    ensures var (replaced, st) := CT.VisitStmts(name, None, tagged, CT.Start);
      forall l :: l in st.assignments ==> l.target !in AssignTargets(replaced)
  {
    var (replaced, st) := CT.VisitStmts(name, None, tagged, CT.Start);
    CT.VisitStmtsCalls(name, None, tagged, CT.Start);
    AssignTargetsAreNames(tagged);
    forall l | l in st.assignments
      ensures l.target !in AssignTargets(replaced)
    {
      var k :| 0 <= k < |st.assignments| && st.assignments[k] == l;
      assert l.target == CT.FreshName(name, k);
    }
  }

  /** `parent` is a node of the list, i.e. one of `ids`. */
  predicate InIds(parent: Option<nat>, ids: set<nat>)
  {
    parent.Some? && parent.value in ids
  }

  lemma {:induction false} CountRepeat(x: Option<nat>, n: nat, ids: set<nat>)
    ensures AT.CountAnchored(CT.Repeat(x, n), ids) == if InIds(x, ids) then n else 0
  {
    if n > 0 {
      assert CT.Repeat(x, n)[1..] == CT.Repeat(x, n - 1);
      CountRepeat(x, n - 1, ids);
    }
  }

  /** Every self-call of `s` is anchored at a node of `s`, except the calls
      of a simple statement, which take the enclosing anchor. */
  lemma {:induction false} SiteAnchorsCount(name: string, anchor: Option<nat>, s: Stmt, ids: set<nat>)
    requires AT.StmtIdSet(s) <= ids
    ensures AT.CountAnchored(CT.SiteAnchors(name, anchor, s), ids)
      + (if (s.Assign? || s.ExprStmt?) && !InIds(anchor, ids) then SelfCallsStmt(name, s) else 0)
      == SelfCallsStmt(name, s)
    decreases s
  {
    match s
    case Return(id, v) =>
      assert id in AT.StmtIdSet(s);
      if v.Some? {
        CountRepeat(Some(id), SelfCalls(name, v.value), ids);
      }
    case If(id, t, b, o) =>
      assert id in AT.StmtIdSet(s);
      assert IdSet(b) <= AT.StmtIdSet(s) && IdSet(o) <= AT.StmtIdSet(s);
      CountRepeat(Some(id), SelfCalls(name, t), ids);
      SiteAnchorsSeqCount(name, Some(id), b, ids);
      SiteAnchorsSeqCount(name, Some(id), o, ids);
      AT.CountAnchoredAppend(CT.Repeat(Some(id), SelfCalls(name, t)), CT.SiteAnchorsSeq(name, Some(id), b), ids);
      AT.CountAnchoredAppend(CT.Repeat(Some(id), SelfCalls(name, t)) + CT.SiteAnchorsSeq(name, Some(id), b),
        CT.SiteAnchorsSeq(name, Some(id), o), ids);
    case Assign(_, e) =>
      CountRepeat(anchor, SelfCalls(name, e), ids);
    case ExprStmt(e) =>
      CountRepeat(anchor, SelfCalls(name, e), ids);
  }

  /** Over a list: the self-calls not anchored at one of its nodes are
      exactly the top-level ones, when the list itself is not anchored. */
  lemma {:induction false} SiteAnchorsSeqCount(name: string, anchor: Option<nat>, ss: seq<Stmt>, ids: set<nat>)
    requires IdSet(ss) <= ids
    ensures AT.CountAnchored(CT.SiteAnchorsSeq(name, anchor, ss), ids)
      + (if InIds(anchor, ids) then 0 else TopLevelSelfCalls(name, ss))
      == SelfCallsStmts(name, ss)
    decreases ss
  {
    if |ss| > 0 {
      assert IdSet(ss) == AT.StmtIdSet(ss[0]) + IdSet(ss[1..]);
      SiteAnchorsCount(name, anchor, ss[0], ids);
      SiteAnchorsSeqCount(name, anchor, ss[1..], ids);
      AT.CountAnchoredAppend(CT.SiteAnchors(name, anchor, ss[0]), CT.SiteAnchorsSeq(name, anchor, ss[1..]), ids);
    }
  }

  /** With distinct node identities, the rewrite adds one assignment per
      self-call that sits inside an `If` or a `Return`; a self-call in a
      top-level assignment or expression statement has no such parent, so
      its assignment is never emitted. */
  lemma TransformBodyAssignCount(name: string, body: seq<Stmt>)
    requires UniqueIds(body)
    ensures CountAssigns(TransformBody(body, name))
      == CountAssigns(body) + SelfCallsStmts(name, body) - TopLevelSelfCalls(name, body)
  {
    var tagged := RT.VisitStmts(body);
    var (replaced, st) := CT.VisitStmts(name, None, tagged, CT.Start);
    var lifted := st.assignments;
    RT.VisitKeepsCounts(name, body);
    AT.VisitStmtsCount(lifted, replaced);
    CT.VisitStmtsParents(name, None, tagged, CT.Start);
    assert lifted[0..] == lifted;
    assert IdSet(replaced) == IdSet(tagged);
    SiteAnchorsSeqCount(name, None, tagged, IdSet(tagged));
  }

  /** The names `name_k` are not assigned by a body that does not use them. */
  lemma FreshUnassigned(name: string, body: seq<Stmt>, lifted: seq<CT.Lifted>)
    requires CT.FreeOfFresh(name, StmtsNames(body)) && CT.NamedInOrder(name, lifted)
    ensures AT.Targets(lifted) !! AssignTargets(body)
  {
    AssignTargetsAreNames(body);
    forall l | l in lifted
      ensures l.target !in AssignTargets(body)
    {
      var k :| 0 <= k < |lifted| && lifted[k] == l;
      assert l.target == CT.FreshName(name, k);
    }
  }

  /** The assignments to `vars` anywhere in the rewritten body, for any
      `vars` holding the recorded variables and no variable of the body. */
  lemma TransformBodyAssignsTo(name: string, body: seq<Stmt>, vars: set<string>)
    requires CT.FreeOfFresh(name, StmtsNames(body)) && TopLevelSelfCalls(name, body) == 0
    requires AT.Targets(Recorded(name, body)) <= vars && vars !! AssignTargets(body)
    ensures AT.AssignsTo(TransformBody(body, name), vars) ==
      set l | l in Recorded(name, body) :: Assign(l.target, l.call)
  {
    var tagged := RT.VisitStmts(body);
    var (replaced, st) := CT.VisitStmts(name, None, tagged, CT.Start);
    var lifted := st.assignments;
    var ids := IdSet(tagged);
    RT.VisitKeepsCounts(name, body);
    AT.AssignsToVisitStmts(lifted, replaced, vars);
    assert IdSet(replaced) == ids;
    RecordedCalls(name, body);
    SiteAnchorsSeqCount(name, None, tagged, ids);
    AT.CountAnchoredAll(CT.Parents(lifted), ids);
    forall l | l in lifted
      ensures l.parent.Some? && l.parent.value in ids
    {
      var k :| 0 <= k < |lifted| && lifted[k] == l;
      assert CT.Parents(lifted)[k] == l.parent;
    }
  }

  /** When no self-call sits in a top-level simple statement, the
      assignments to the variables `name_k` found anywhere in the rewritten
      body are exactly `name_k = <call>` for every recorded call: each
      self-call's assignment is emitted, somewhere, and nothing else
      assigns those variables. */
  lemma TransformBodyAssignments(name: string, body: seq<Stmt>)
    requires CT.FreeOfFresh(name, StmtsNames(body)) && TopLevelSelfCalls(name, body) == 0
    ensures var lifted := Recorded(name, body);
      AT.AssignsTo(TransformBody(body, name), AT.Targets(lifted)) ==
        set l | l in lifted :: Assign(l.target, l.call)
  {
    RecordedCalls(name, body);
    FreshUnassigned(name, body, Recorded(name, body));
    TransformBodyAssignsTo(name, body, AT.Targets(Recorded(name, body)));
  }

  /** Without top-level self-calls the rewrite is injective: the rewritten
      body determines the original one, so that the calls can be read
      back from the output rather than from a second run on the input. */
  lemma TransformBodyInjective(name: string, b1: seq<Stmt>, b2: seq<Stmt>)
    requires CT.FreeOfFresh(name, StmtsNames(b1)) && TopLevelSelfCalls(name, b1) == 0
    requires CT.FreeOfFresh(name, StmtsNames(b2)) && TopLevelSelfCalls(name, b2) == 0
    requires TransformBody(b1, name) == TransformBody(b2, name)
    ensures b1 == b2
  {
    var l1, l2 := Recorded(name, b1), Recorded(name, b2);
    RecordedCalls(name, b1);
    RecordedCalls(name, b2);
    var vars := AT.Targets(l1) + AT.Targets(l2);
    FreshUnassigned(name, b1, l1);
    FreshUnassigned(name, b1, l2);
    FreshUnassigned(name, b2, l1);
    FreshUnassigned(name, b2, l2);
    TransformBodyAssignsTo(name, b1, vars);
    TransformBodyAssignsTo(name, b2, vars);
    SameRecording(name, l1, l2);
    assert AT.Targets(l1) == AT.Targets(l2);
    CT.InlineStmtsSameCalls(AT.StripStmts(TransformBody(b1, name), AT.Targets(l1)), l1, l2);
    TransformBodyRoundTrip(name, b1);
    TransformBodyRoundTrip(name, b2);
  }

  /** `f(n)` as a statement of its own at the top of `f`'s body. */
  lemma TopLevelCallBody(n: int)
    ensures TransformBody([ExprStmt(Call(Name("f"), [Const(IntLit(n))]))], "f") ==
      [ExprStmt(Name(CT.FreshName("f", 0)))]
  {
    var arg := Const(IntLit(n));
    var call := Call(Name("f"), [arg]);
    var s := ExprStmt(call);
    var v := CT.FreshName("f", 0);
    var l := CT.Lifted(v, call, None);
    assert [s][1..] == [];
    assert RT.VisitStmts([s]) == [s];
    CT.VisitUnarySelfCall("f", None, arg, CT.Start, arg, CT.Start);
    assert CT.VisitStmt("f", None, s, CT.Start) == (ExprStmt(Name(v)), CT.State(1, [l]));
    assert CT.VisitStmts("f", None, [s][1..], CT.State(1, [l])) == ([], CT.State(1, [l]));
    assert [ExprStmt(Name(v))] + [] == [ExprStmt(Name(v))];
    assert CT.VisitStmts("f", None, [s], CT.Start) == ([ExprStmt(Name(v))], CT.State(1, [l]));
    AT.VisitStmtsSingle([l], ExprStmt(Name(v)));
  }

  /** A self-call in a top-level expression statement has no parent, so its
      assignment is never emitted: two bodies that differ only in its
      argument are rewritten alike, to a read of the unbound `f_0`. */
  lemma TopLevelCallLost()
    ensures var b1 := [ExprStmt(Call(Name("f"), [Const(IntLit(1))]))];
      var b2 := [ExprStmt(Call(Name("f"), [Const(IntLit(2))]))];
      && b1 != b2
      && TransformBody(b1, "f") == TransformBody(b2, "f") == [ExprStmt(Name(CT.FreshName("f", 0)))]
      && CountAssigns(TransformBody(b1, "f")) == 0
  {
    TopLevelCallBody(1);
    TopLevelCallBody(2);
    assert [ExprStmt(Name(CT.FreshName("f", 0)))][1..] == [];
  }

  /** A self-call in a simple statement inside an `If` branch is recorded
      with the `If` as its parent, so its assignment is emitted in front of
      the whole `If` and runs whether or not the branch is taken. */
  lemma BranchCallHoisted()
    ensures var call := Call(Name("f"), [Const(IntLit(1))]);
      var body := [If(0, Name("c"), [ExprStmt(Name("x"))], [ExprStmt(call)])];
      TransformBody(body, "f") ==
        [Assign(CT.FreshName("f", 0), call),
         If(0, Name("c"), [ExprStmt(Name("x"))], [ExprStmt(Name(CT.FreshName("f", 0)))])]
  {
    var arg := Const(IntLit(1));
    var call := Call(Name("f"), [arg]);
    var x := ExprStmt(Name("x"));
    var s := ExprStmt(call);
    var body := [If(0, Name("c"), [x], [s])];
    var v := CT.FreshName("f", 0);
    var l := CT.Lifted(v, call, Some(0));
    var st1 := CT.State(1, [l]);
    assert [x][1..] == [] && [s][1..] == [] && body[1..] == [];
    assert RT.VisitStmts([x]) == [x] && RT.VisitStmts([s]) == [s];
    assert RT.VisitStmts(body) == body;
    assert CT.VisitStmts("f", Some(0), [x], CT.Start) == ([x], CT.Start);
    CT.VisitUnarySelfCall("f", Some(0), arg, CT.Start, arg, CT.Start);
    assert CT.VisitStmt("f", Some(0), s, CT.Start) == (ExprStmt(Name(v)), st1);
    assert CT.VisitStmts("f", Some(0), [s][1..], st1) == ([], st1);
    assert [ExprStmt(Name(v))] + [] == [ExprStmt(Name(v))];
    assert CT.VisitStmts("f", Some(0), [s], CT.Start) == ([ExprStmt(Name(v))], st1);
    var replaced := If(0, Name("c"), [x], [ExprStmt(Name(v))]);
    assert CT.VisitStmt("f", None, body[0], CT.Start) == (replaced, st1);
    assert CT.VisitStmts("f", None, body[1..], st1) == ([], st1);
    assert [replaced] + [] == [replaced];
    assert CT.VisitStmts("f", None, body, CT.Start) == ([replaced], st1);
    AT.VisitStmtsSingle([l], replaced);
    AT.VisitStmtShape([l], replaced);
    AT.VisitStmtsSingle([l], x);
    AT.VisitStmtsSingle([l], ExprStmt(Name(v)));
    assert AT.AnchoredAt([l], 0) == [l];
  }

  /** A recording numbered in order whose assignments all appear in those
      of another is a prefix of it as far as variables and calls go. */
  lemma RecordingIncluded(name: string, a: seq<CT.Lifted>, b: seq<CT.Lifted>)
    requires CT.NamedInOrder(name, a) && CT.NamedInOrder(name, b)
    requires (set l | l in a :: Assign(l.target, l.call)) <= (set l | l in b :: Assign(l.target, l.call))
    ensures |a| <= |b|
    ensures forall k :: 0 <= k < |a| ==> b[k].target == a[k].target && b[k].call == a[k].call
  {
    var inA := set l | l in a :: Assign(l.target, l.call);
    var inB := set l | l in b :: Assign(l.target, l.call);
    forall k | 0 <= k < |a|
      ensures k < |b| && b[k].target == a[k].target && b[k].call == a[k].call
    {
      assert a[k] in a;
      assert Assign(a[k].target, a[k].call) in inA;
      assert Assign(a[k].target, a[k].call) in inB;
      var l :| l in b && Assign(l.target, l.call) == Assign(a[k].target, a[k].call);
      var j :| 0 <= j < |b| && b[j] == l;
      CT.FreshNameInjective(name, j, k);
    }
    if |a| > 0 {
      assert a[|a| - 1].target == CT.FreshName(name, |a| - 1);
    }
  }

  /** Two recordings numbered in order that emit the same assignments
      record the same calls. */
  lemma SameRecording(name: string, l1: seq<CT.Lifted>, l2: seq<CT.Lifted>)
    requires CT.NamedInOrder(name, l1) && CT.NamedInOrder(name, l2)
    requires (set l | l in l1 :: Assign(l.target, l.call)) == (set l | l in l2 :: Assign(l.target, l.call))
    ensures CT.SameCalls(l1, l2)
  {
    RecordingIncluded(name, l1, l2);
    RecordingIncluded(name, l2, l1);
  }

  /** Tagging keeps every self-call where it was. */
  lemma {:induction false} SiteAnchorsTagged(name: string, anchor: Option<nat>, ss: seq<Stmt>)
    ensures CT.SiteAnchorsSeq(name, anchor, RT.VisitStmts(ss)) == CT.SiteAnchorsSeq(name, anchor, ss)
    decreases ss
  {
    if |ss| > 0 {
      var r := RT.VisitStmts(ss);
      assert r[0] == RT.VisitStmt(ss[0]) && r[1..] == RT.VisitStmts(ss[1..]);
      match ss[0] {
        case Return(id, v) =>
          if v.Some? {
            RT.SelfCallsTagged(name, v.value);
          }
        case If(id, t, b, o) =>
          SiteAnchorsTagged(name, Some(id), b);
          SiteAnchorsTagged(name, Some(id), o);
        case _ =>
      }
      SiteAnchorsTagged(name, anchor, ss[1..]);
    }
  }

  /** The recorded parents are the innermost `If`/`Return` of each
      self-call of the original body. */
  lemma RecordedParents(name: string, body: seq<Stmt>)
    ensures CT.Parents(Recorded(name, body)) == CT.SiteAnchorsSeq(name, None, body)
  {
    RecordedCalls(name, body);
    SiteAnchorsTagged(name, None, body);
  }

  /** Some decorator is the bare name `call_once`. */
  predicate Marked(fd: FunctionDef)
  {
    Name("call_once") in fd.decorators
  }

  /** `visit_FunctionDef`: an unmarked function is returned as it is; a
      marked `f` becomes the cache `f_CACHE = {}`, the wrapper `f` over that
      cache, and `f_aux`, which keeps the parameters and return annotation,
      drops every decorator and has the rewritten body. */
  function VisitFunctionDef(fd: FunctionDef): (r: seq<TopLevel>)
    ensures !Marked(fd) ==> r == [Def(fd)]
    ensures Marked(fd) ==>
      && |r| == 3 && r[0].CacheDecl? && r[1].MemoWrapper? && r[2].Def?
      && r[1].wrapperName == fd.name && r[1].cache == r[0].cacheName && r[1].aux == r[2].fd.name
      && r[2].fd.params == fd.params && r[2].fd.annotation == fd.annotation
      && r[2].fd.decorators == [] && r[2].fd.body == TransformBody(fd.body, fd.name)
      && r[0].cacheName == fd.name + "_CACHE" && r[2].fd.name == fd.name + "_aux"
      && fd.name != r[0].cacheName && fd.name != r[2].fd.name && r[0].cacheName != r[2].fd.name
  {
    if !Marked(fd) then [Def(fd)]
    else
      var aux := fd.name + "_aux";
      var cache := fd.name + "_CACHE";
      assert aux[|fd.name| + 1] == 'a' && cache[|fd.name| + 1] == 'C';
      var auxDef := FunctionDef(aux, fd.params, TransformBody(fd.body, fd.name), [], fd.annotation);
      [CacheDecl(cache), MemoWrapper(fd.name, cache, aux), Def(auxDef)]
  }

  /** Given the calls recorded for its body, the original function can be
      rebuilt, decorators aside, from what a marked function is turned
      into. `VisitFunctionDefInjective` drops the recorded calls. */
  lemma VisitFunctionDefRoundTrip(fd: FunctionDef)
    requires Marked(fd) && CT.FreeOfFresh(fd.name, StmtsNames(fd.body))
    ensures var r := VisitFunctionDef(fd);
      var lifted := Recorded(fd.name, fd.body);
      var body := RT.UntagStmts(CT.InlineStmts(AT.StripStmts(r[2].fd.body, AT.Targets(lifted)), lifted));
      FunctionDef(r[1].wrapperName, r[2].fd.params, body, fd.decorators, r[2].fd.annotation) == fd
  {
    TransformBodyRoundTrip(fd.name, fd.body);
  }

  /** Without top-level self-calls, what a marked function is turned into
      determines its name, parameters, annotation and body; only the
      decorators are lost, as `f_aux` carries none. */
  lemma VisitFunctionDefInjective(f1: FunctionDef, f2: FunctionDef)
    requires Marked(f1) && CT.FreeOfFresh(f1.name, StmtsNames(f1.body)) && TopLevelSelfCalls(f1.name, f1.body) == 0
    requires Marked(f2) && CT.FreeOfFresh(f2.name, StmtsNames(f2.body)) && TopLevelSelfCalls(f2.name, f2.body) == 0
    requires VisitFunctionDef(f1) == VisitFunctionDef(f2)
    ensures f1.name == f2.name && f1.params == f2.params && f1.annotation == f2.annotation
    ensures f1.body == f2.body
  {
    TransformBodyInjective(f1.name, f1.body, f2.body);
  }

  /** Which decorators besides `call_once` a marked function had makes no
      difference to the output. */
  lemma VisitFunctionDefDropsDecorators(fd: FunctionDef, ds: seq<Expr>)
    requires Marked(fd) && Name("call_once") in ds
    ensures VisitFunctionDef(fd.(decorators := ds)) == VisitFunctionDef(fd)
  {
  }

  function VisitTopLevel(t: TopLevel): seq<TopLevel>
  {
    match t
    case Def(fd) => VisitFunctionDef(fd)
    case _ => [t]
  }

  /** `CallOnceTransformer().visit(tree)` on the module body: each
      top-level item is visited in turn and a returned list is spliced in.
      Nothing below a function definition is visited. */
  function TransformModule(items: seq<TopLevel>): (r: seq<TopLevel>)
    ensures |r| == |items| + 2 * MarkedCount(items)
  {
    if |items| == 0 then [] else VisitTopLevel(items[0]) + TransformModule(items[1..])
  }

  predicate IsMarkedDef(t: TopLevel)
  {
    t.Def? && Marked(t.fd)
  }

  function MarkedCount(items: seq<TopLevel>): nat
  {
    if |items| == 0 then 0 else (if IsMarkedDef(items[0]) then 1 else 0) + MarkedCount(items[1..])
  }

  lemma {:induction false} MarkedCountAppend(a: seq<TopLevel>, b: seq<TopLevel>)
    ensures MarkedCount(a + b) == MarkedCount(a) + MarkedCount(b)
  {
    if |a| == 0 {
      assert a + b == b;
    } else {
      assert (a + b)[1..] == a[1..] + b;
      MarkedCountAppend(a[1..], b);
    }
  }

  /** A module without marked functions is left as it is. */
  lemma {:induction false} TransformModuleUnmarked(items: seq<TopLevel>)
    requires MarkedCount(items) == 0
    ensures TransformModule(items) == items
  {
    if |items| > 0 {
      TransformModuleUnmarked(items[1..]);
      assert items == [items[0]] + items[1..];
    }
  }

  /** Items are transformed one at a time and in place: the result for a
      module is the results for its parts, in order. */
  lemma {:induction false} TransformModuleAppend(a: seq<TopLevel>, b: seq<TopLevel>)
    ensures TransformModule(a + b) == TransformModule(a) + TransformModule(b)
  {
    if |a| == 0 {
      assert a + b == b;
    } else {
      assert (a + b)[0] == a[0] && (a + b)[1..] == a[1..] + b;
      TransformModuleAppend(a[1..], b);
    }
  }

  /** A single item: kept as it is unless it is a marked function, which
      becomes its three definitions. */
  lemma TransformModuleSingle(t: TopLevel)
    ensures !IsMarkedDef(t) ==> TransformModule([t]) == [t]
    ensures IsMarkedDef(t) ==> TransformModule([t]) == VisitFunctionDef(t.fd)
  {
    assert TransformModule([t]) == VisitTopLevel(t) + TransformModule([]);
  }

  /** An item that is not a marked function is kept, in place, between
      the transformed items before it and after it. */
  lemma TransformModuleKeeps(a: seq<TopLevel>, t: TopLevel, b: seq<TopLevel>)
    requires !IsMarkedDef(t)
    ensures TransformModule(a + [t] + b) == TransformModule(a) + [t] + TransformModule(b)
  {
    TransformModuleAppend(a + [t], b);
    TransformModuleAppend(a, [t]);
    TransformModuleSingle(t);
  }

  /** No marked function survives the transformation, so running it a
      second time changes nothing. */
  lemma {:induction false} TransformModuleIdempotent(items: seq<TopLevel>)
    ensures MarkedCount(TransformModule(items)) == 0
    ensures TransformModule(TransformModule(items)) == TransformModule(items)
  {
    if |items| > 0 {
      TransformModuleIdempotent(items[1..]);
      var head := VisitTopLevel(items[0]);
      MarkedCountAppend(head, TransformModule(items[1..]));
      if IsMarkedDef(items[0]) {
        assert !IsMarkedDef(head[2]) && head[1..][1..][1..] == [];
        assert MarkedCount(head[1..][1..]) == 0;
      } else {
        assert head == [items[0]] && head[1..] == [];
      }
    }
    TransformModuleUnmarked(TransformModule(items));
  }

  /** One call of the generated wrapper: the value returned, the cache
      afterwards, and how many times `aux` ran (0 or 1). */
  datatype WrapperCall<V> = WrapperCall(value: V, cache: map<Key, V>, auxCalls: nat)

  /** `c'` keeps every entry of `c`. */
  ghost predicate Extends<V>(c': map<Key, V>, c: map<Key, V>)
  {
    c.Keys <= c'.Keys && forall k :: k in c ==> c'[k] == c[k]
  }

  /** Calling the generated `def f(*args, **kwargs)`: build the key
      `(args, tuple(kwargs.items()))`; on a miss store `f_aux(*args,
      **kwargs)` under it; return `f_CACHE[key]`. `aux` stands for a run of
      the `_aux` function from a given cache: its value, and the cache it
      leaves behind, since its lifted assignments call `f` again and so
      fill `f_CACHE` with the keys of the recursive calls before `key` is
      stored. */
  function CallMemoWrapper<V>(cache: map<Key, V>, posargs: seq<int>, kwargs: Items,
                              aux: (seq<int>, Items, map<Key, V>) -> (V, map<Key, V>)): (r: WrapperCall<V>)
    ensures var key := MakeKey(posargs, kwargs);
      && key in r.cache && r.value == r.cache[key]
      && (key in cache <==> r.auxCalls == 0)
      && (key !in cache ==> r.auxCalls == 1)
      && (key in cache ==> r.cache == cache && r.value == cache[key])
      && (key !in cache ==> r.value == aux(posargs, kwargs, cache).0)
      && (key !in cache ==> r.cache.Keys == aux(posargs, kwargs, cache).1.Keys + {key})
      && (key !in cache ==> forall k :: k in aux(posargs, kwargs, cache).1 && k != key ==>
            r.cache[k] == aux(posargs, kwargs, cache).1[k])
      && (Extends(aux(posargs, kwargs, cache).1, cache) ==> Extends(r.cache, cache))
  {
    var key := MakeKey(posargs, kwargs);
    if key in cache then WrapperCall(cache[key], cache, 0)
    else
      var (v, afterAux) := aux(posargs, kwargs, cache);
      var cache' := afterAux[key := v];
      WrapperCall(cache'[key], cache', 1)
  }

  /** Calling the wrapper again with the same arguments does not run
      `aux` and returns the same value from an unchanged cache, whatever
      `aux` would now compute. */
  lemma MemoRepeatCall<V>(cache: map<Key, V>, posargs: seq<int>, kwargs: Items,
                          aux: (seq<int>, Items, map<Key, V>) -> (V, map<Key, V>),
                          aux': (seq<int>, Items, map<Key, V>) -> (V, map<Key, V>))
    ensures var first := CallMemoWrapper(cache, posargs, kwargs, aux);
      var second := CallMemoWrapper(first.cache, posargs, kwargs, aux');
      second == WrapperCall(first.value, first.cache, 0)
  {
  }
}
