/** The closed fragment of Python's syntax tree that the rewriter works on.
    Python compares recorded parents by object identity; here every `If` and
    `Return` carries an `id` standing for that identity (only those two kinds
    can ever be recorded as a parent). */
module PyAst {
  import opened Wrappers
  import opened Seqs

  datatype Lit = IntLit(i: int) | StrLit(s: string)

  /** Expressions. `Call.func` is any expression; fields are listed in
      Python's `_fields` order, which is the order a NodeTransformer visits. */
  datatype Expr =
    | Name(id: string)
    | Const(lit: Lit)
    | Call(func: Expr, args: seq<Expr>)
    | Tuple(elts: seq<Expr>)
    | BinOp(left: Expr, op: string, right: Expr)

  datatype Stmt =
    | Return(id: nat, retval: Option<Expr>)
    | If(id: nat, test: Expr, body: seq<Stmt>, orelse: seq<Stmt>)
    | Assign(target: string, value: Expr)
    | ExprStmt(value: Expr)

  /** `def name(params) -> annotation:` with its decorator expressions. */
  datatype FunctionDef = FunctionDef(
    name: string,
    params: seq<string>,
    body: seq<Stmt>,
    decorators: seq<Expr>,
    annotation: Option<Expr>)

  /** A module-level statement. `CacheDecl` is `name = {}` and `MemoWrapper`
      the generated `def name(*args, **kwargs)` that memoises through `cache`
      and calls `aux` on a miss. */
  datatype TopLevel =
    | Def(fd: FunctionDef)
    | CacheDecl(cacheName: string)
    | MemoWrapper(wrapperName: string, cache: string, aux: string)
    | Plain(stmt: Stmt)

  /** `node.func` is an `ast.Name` whose id is `name`. */
  predicate IsSelfCall(name: string, e: Expr)
  {
    e.Call? && e.func == Name(name)
  }

  /** Number of self-calls anywhere inside `e`, nested ones included. */
  function SelfCalls(name: string, e: Expr): nat
  {
    match e
    case Name(_) => 0
    case Const(_) => 0
    case Call(func, args) =>
      SelfCalls(name, func) + SelfCallsSeq(name, args) + (if func == Name(name) then 1 else 0)
    case Tuple(elts) => SelfCallsSeq(name, elts)
    case BinOp(l, _, r) => SelfCalls(name, l) + SelfCalls(name, r)
  }

  function SelfCallsSeq(name: string, es: seq<Expr>): nat
  {
    if |es| == 0 then 0 else SelfCalls(name, es[0]) + SelfCallsSeq(name, es[1..])
  }

  function SelfCallsStmt(name: string, s: Stmt): nat
  {
    match s
    case Return(_, v) => if v.Some? then SelfCalls(name, v.value) else 0
    case If(_, t, b, o) => SelfCalls(name, t) + SelfCallsStmts(name, b) + SelfCallsStmts(name, o)
    case Assign(_, e) => SelfCalls(name, e)
    case ExprStmt(e) => SelfCalls(name, e)
  }

  function SelfCallsStmts(name: string, ss: seq<Stmt>): nat
  {
    if |ss| == 0 then 0 else SelfCallsStmt(name, ss[0]) + SelfCallsStmts(name, ss[1..])
  }

  /** Every identifier read by a `Name` inside `e`. */
  function Names(e: Expr): set<string>
  {
    match e
    case Name(x) => {x}
    case Const(_) => {}
    case Call(func, args) => Names(func) + NamesSeq(args)
    case Tuple(elts) => NamesSeq(elts)
    case BinOp(l, _, r) => Names(l) + Names(r)
  }

  function NamesSeq(es: seq<Expr>): set<string>
  {
    if |es| == 0 then {} else Names(es[0]) + NamesSeq(es[1..])
  }

  /** Identifiers read or assigned anywhere in a statement. */
  function StmtNames(s: Stmt): set<string>
  {
    match s
    case Return(_, v) => if v.Some? then Names(v.value) else {}
    case If(_, t, b, o) => Names(t) + StmtsNames(b) + StmtsNames(o)
    case Assign(x, e) => {x} + Names(e)
    case ExprStmt(e) => Names(e)
  }

  function StmtsNames(ss: seq<Stmt>): set<string>
  {
    if |ss| == 0 then {} else StmtNames(ss[0]) + StmtsNames(ss[1..])
  }

  /** Variables assigned by `Assign` statements, nested ones included. */
  function AssignTargets(ss: seq<Stmt>): set<string>
  {
    if |ss| == 0 then {} else StmtAssignTargets(ss[0]) + AssignTargets(ss[1..])
  }

  function StmtAssignTargets(s: Stmt): set<string>
  {
    match s
    case If(_, _, b, o) => AssignTargets(b) + AssignTargets(o)
    case Assign(x, _) => {x}
    case _ => {}
  }

  lemma {:induction false} AssignTargetsAreNames(ss: seq<Stmt>)
    ensures AssignTargets(ss) <= StmtsNames(ss)
  {
    if |ss| > 0 {
      match ss[0] {
        case If(_, _, b, o) =>
          AssignTargetsAreNames(b);
          AssignTargetsAreNames(o);
        case _ =>
      }
      AssignTargetsAreNames(ss[1..]);
    }
  }

  /** The identities of the `If` and `Return` nodes of a statement list, in
      document order (a node before its children). */
  function AnchorIds(ss: seq<Stmt>): seq<nat>
  {
    if |ss| == 0 then [] else StmtAnchorIds(ss[0]) + AnchorIds(ss[1..])
  }

  function StmtAnchorIds(s: Stmt): seq<nat>
  {
    match s
    case Return(id, _) => [id]
    case If(id, _, b, o) => [id] + AnchorIds(b) + AnchorIds(o)
    case Assign(_, _) => []
    case ExprStmt(_) => []
  }


  /** No two `If`/`Return` nodes share an identity, as for a tree from `ast.parse`. */
  predicate UniqueIds(ss: seq<Stmt>)
  {
    Distinct(AnchorIds(ss))
  }

  function IdSet(ss: seq<Stmt>): set<nat>
  {
    set i | i in AnchorIds(ss)
  }

  /** Assignment statements, those nested in `If` branches included. */
  function CountAssigns(ss: seq<Stmt>): nat
  {
    if |ss| == 0 then 0 else CountAssignsStmt(ss[0]) + CountAssigns(ss[1..])
  }

  function CountAssignsStmt(s: Stmt): nat
  {
    match s
    case If(_, _, b, o) => CountAssigns(b) + CountAssigns(o)
    case Assign(_, _) => 1
    case _ => 0
  }

  lemma {:induction false} CountAssignsAppend(a: seq<Stmt>, b: seq<Stmt>)
    ensures CountAssigns(a + b) == CountAssigns(a) + CountAssigns(b)
  {
    if |a| == 0 {
      assert a + b == b;
    } else {
      assert (a + b)[1..] == a[1..] + b;
      CountAssignsAppend(a[1..], b);
    }
  }

  /** Self-calls in top-level `Assign`/`ExprStmt` statements of the list:
      those have no enclosing `If` or `Return` inside the function body. */
  function TopLevelSelfCalls(name: string, ss: seq<Stmt>): nat
  {
    if |ss| == 0 then 0
    else
      (match ss[0]
       case Assign(_, e) => SelfCalls(name, e)
       case ExprStmt(e) => SelfCalls(name, e)
       case _ => 0) + TopLevelSelfCalls(name, ss[1..])
  }
}
