# call_once in Dafny

`call_once` turns a recursive Python function into one that needs no deep
call stack. This project models its three parts and proves properties of them.

1. **The rewriter** in `call_once.py`, as written. It takes a function
   marked `@call_once` and runs three passes over the body:
   - `ReturnTransformer` tags every returned value as `("result", e)`.
   - `CallTransformer` replaces each self-call by a fresh variable
     `f_0, f_1, ...`, numbered in post-order. For each one it records the
     innermost enclosing `If` or `Return`.
   - `AssignmentsTransformer` inserts `f_k = f(...)` in front of that
     statement.

   `CallOnceTransformer` then replaces the function by three definitions: a
   cache `f_CACHE = {}`, a memoising wrapper `f`, and `f_aux` with the
   rewritten body. Python's syntax tree is replaced by a small closed
   datatype (`PyAst`). Object identity (`parent is node`) becomes an `id`
   carried by `If` and `Return` nodes.
2. **The trampoline driver** `call_once(fn, args, cache)` of the generated
   programs (`Driver`). The frontier is a dict used as an insertion-ordered
   set (`Frontier`); keys are `(posargs, tuple(kwargs.items()))` (`Keys`).
   The driver in `fib.call_once.py` steps every popped key. The one in
   `hackercup/a2.co.py` first discards keys already cached. The flag
   `skipCached` selects between them.
3. **The concrete step functions and their recursive references.** These are
   `fib_aux` against `fib` (`Fib`), and `min_left_aux`/`min_right_aux`
   against `min_left`, `min_right` and `solve` of the Snake Scales solution
   (`SnakeScales`). In `hackercup/a2.py`, `call_once` is the identity
   decorator, so the reference is the plain recursion. The end-to-end
   theorems `Fib.FibCallOnce` and `SnakeScales.SolveCallOnce` prove that
   running the driver gives the recursive result.

How `call_once.py` differs from the guard-emitting scheme the generated
files show (`fib.call_once.py:30-37`: each step function returns
`('call', key)` for a missing dependency, and the driver steps it):
- The rewriter in `call_once.py` emits no `('call', key)` dependency guards
  and no driver.
- Its wrapper is plain memoisation: it calls `f_aux` on a miss.
- The lifted assignments still call `f(...)` directly.
- The generated files `fib.call_once.py` and `hackercup/a2.co.py` come from
  a guard-emitting variant. The model follows each file as written.

Consequences of the code as written:
- The wrapper of `call_once.py` stores and returns whatever `f_aux` returns.
  That is a `("result", v)` tuple when `f_aux` ends in `return v`. When its
  body ends without a `return`, or with a bare `return`, it is `None`
  (call_once.py:8, 13). `CallOnceTransformer.CallMemoWrapper` is generic in
  that value.
- Each lifted assignment calls the wrapper `f` again, so `f_CACHE` receives
  the keys of the recursive calls before the wrapper stores its own key.
  `CallOnceTransformer.CallMemoWrapper` takes the cache that `f_aux` leaves
  behind as part of its result.
- A self-call in a top-level assignment or expression statement has no
  enclosing `If` or `Return`, so its recorded parent is `None`
  (call_once.py:44-48). No assignment is emitted for it (call_once.py:80-84),
  and `f_aux` reads a variable `f_k` that is never bound, which raises
  `NameError`. `CallOnceTransformer.TopLevelCallLost` shows two such bodies
  that differ in the call's argument and are rewritten to the same output.
- A self-call in a simple statement inside an `If` branch is recorded with
  the `If` as its parent. Its assignment `f_k = f(...)` is emitted in front of
  the whole `If`, so it runs whether or not the branch is taken
  (`CallOnceTransformer.BranchCallHoisted`). For example, suppose
  `min_left` of `hackercup/a2.py` were a top-level function. Then
  `min_left_0 = min_left(n - 1)` would run before the test `n == 0`.
  `min_left(0)` would then recurse through `-1, -2, ...`, which Python's
  negative indexing accepts. It would stop at `A[-len(A) - 1]` with an
  `IndexError`, or earlier at the recursion limit. In the same way,
  `min_right(len(A) - 1)` would call `min_right(len(A))`, which raises
  `IndexError`.
- Neither generated wrapper checks the cache before starting the driver. The
  non-skipping driver also steps an already-cached key again and rewrites
  its entry (`Driver.CallOnce`: `calls > 0`). Only the skipping driver
  answers a cached key with no step.

## Model

| member | source | states |
|---|---|---|
| Decimal.NatToString | call_once.py:35 | the counter in `f"{name}_{counter}"` is rendered as a non-empty string of decimal digits that starts with `0` only for the counter 0, so with no leading zeros |
| Decimal.ParseNatToString | call_once.py:35 | reading the rendered counter back gives the counter, so the rendering loses nothing |
| Decimal.NatToStringInjective | call_once.py:35 | distinct counters render to distinct strings |
| CallTransformer.FreshNameInjective | call_once.py:35-36 | `name_i` and `name_j` are the same variable only when `i == j`, so fresh names are pairwise distinct |
| ReturnTransformer.VisitStmts | call_once.py:7-13 | afterwards every `return` with a value, in nested `If` branches too, returns a 2-tuple whose first element is `"result"`; node identities and names used are unchanged |
| ReturnTransformer.UntagVisit | call_once.py:7-13 | removing the tag gives back the original statements: each value is kept, and a bare `return` is left unchanged |
| ReturnTransformer.SelfCallsTagged | call_once.py:9-11 | the tagged tuple contains exactly the self-calls of the returned value |
| ReturnTransformer.VisitKeepsCounts | call_once.py:7-13 | tagging adds or removes no self-call, no assignment, no top-level self-call and no assigned variable |
| CallTransformer.VisitExpr | call_once.py:31-42 | the record list only grows at its end, by exactly one entry per self-call in the expression, and the counter advances by the same number |
| CallTransformer.VisitExprs | call_once.py:31-42 | the same for a list of expressions, whose length is kept |
| CallTransformer.VisitExprClean | call_once.py:31-42 | no self-call remains in the rewritten expression, and an expression without self-calls comes back unchanged with an unchanged state |
| CallTransformer.VisitExprEntries | call_once.py:32-39 | every new entry is the self-call `name(args)` with already-rewritten arguments, recorded with the enclosing `If`/`Return` in force, and named after the counter value at recording time |
| CallTransformer.VisitStmts | call_once.py:25-42 | over statements: records grow by one per self-call, and the counter follows; node identities, assignment count and assigned variables are unchanged |
| CallTransformer.VisitStmtsClean | call_once.py:31-42 | no self-call remains anywhere in the rewritten statements |
| CallTransformer.VisitStmtsCalls | call_once.py:35-39 | entry `k` is named `name_k` and is a direct self-call whose arguments hold no self-call |
| CallTransformer.VisitStmtsParents | call_once.py:44-48 | the recorded parents equal the reference `SiteAnchorsSeq`: for each call, its innermost enclosing `If`/`Return`, or the outer anchor when there is none |
| CallTransformer.NestedSelfCall | call_once.py:32-41 | in `f(f(x))` the inner call is numbered first, and the outer recorded call's argument is the inner call's variable |
| CallTransformer.LookupFresh | call_once.py:35-39 | looking up `name_k` among the numbered entries finds entry `k` |
| CallTransformer.Inline | call_once.py:35-39 | the inverse of the call lifting: a variable `name_k` is replaced by its recorded call, itself inlined over the earlier entries; its property is stated by `CallTransformer.InlineVisitStmts` and `CallTransformer.InlineStmtsSameCalls` |
| CallTransformer.InlineVisitStmts | call_once.py:31-42 | substituting every recorded call back for its variable gives the original statements, when no `name_k` was already in use |
| AssignmentsTransformer.MatchesAssigns | call_once.py:80-92 | a node's matches are `name_k = <call>` for exactly the entries recorded with that node as parent, in recording order, checked against a separately written filter `AnchoredAt` |
| AssignmentsTransformer.Matches | call_once.py:80-92 | its contract only says the matches are assignments, at most one per entry; their contents and order are stated by `MatchesAssigns`, `MatchesMembers`, `MatchesAppend` and `MatchesCount` |
| AssignmentsTransformer.MatchesMembers | call_once.py:80-92 | a statement is among a node's matches exactly when it assigns some entry's call to that entry's variable and the entry's parent is the node |
| AssignmentsTransformer.MatchesAppend | call_once.py:80-82 | matches come out in recording order |
| AssignmentsTransformer.MatchesCount | call_once.py:80-92 | a node gets exactly one assignment per entry recorded with it as parent |
| AssignmentsTransformer.VisitStmtShape | call_once.py:75-94 | a `Return` becomes the assignments of the entries recorded with it, then the `Return` itself. An `If` becomes the same, then the `If` with both branches visited. Any other statement is kept alone and unchanged |
| AssignmentsTransformer.VisitStmt | call_once.py:75-94 | its contract only says the result is non-empty; where the inserted assignments go and what they hold is stated by `VisitStmtShape`, `StripVisitStmt` and `NoMatches` |
| AssignmentsTransformer.VisitStmts | call_once.py:105-111 | its contract only says no statement is lost; the flattening and the inserted assignments are stated by `VisitStmtsAppend`, `VisitStmtsSingle`, `AssignsToVisitStmts`, `VisitStmtsCount`, `StripVisitStmts` and `VisitStmtsUntouched` |
| AssignmentsTransformer.VisitStmtsAppend | call_once.py:105-111 | the statements are visited one by one and the results concatenated in order |
| AssignmentsTransformer.VisitStmtsSingle | call_once.py:105-111 | a one-statement list becomes exactly that statement's result |
| AssignmentsTransformer.AssignsToVisitStmts | call_once.py:75-94 | the assignments to the recorded variables anywhere in the output, branches included, are exactly `name_k = <call>` for the entries whose parent is a node of the list. This holds when the list assigns none of those variables itself |
| AssignmentsTransformer.CountAnchoredAll | call_once.py:80-84 | all entries are counted exactly when every recorded parent is a node of the list |
| AssignmentsTransformer.StripVisitStmt | call_once.py:75-94 | deleting the inserted assignments from one visited statement gives back that statement |
| AssignmentsTransformer.StripVisitStmts | call_once.py:105-111 | deleting the inserted assignments gives back the statement list, when it did not already assign a recorded variable |
| AssignmentsTransformer.VisitStmtsCount | call_once.py:80-94 | with distinct node identities, exactly one assignment is added per entry whose parent is a node of the list; entries with parent `None` add none |
| AssignmentsTransformer.VisitStmtsUntouched | call_once.py:83-84 | a list none of whose nodes is a recorded parent comes back unchanged |
| AssignmentsTransformer.NoMatches | call_once.py:80-84 | a node that no entry names as its parent gets no assignment |
| CallOnceTransformer.RecordedCalls | call_once.py:97-104 | `transform_body` records one entry per self-call of the body: numbered `name_0, name_1, ...`, each a direct self-call, with parents matching the reference anchors |
| CallOnceTransformer.TransformBody | call_once.py:97-112 | the three passes in order, with the assignments placed from the calls the second pass recorded; it carries no contract of its own, and its properties are stated by `TransformBodyRoundTrip`, `TransformBodyAssignments`, `TransformBodyInjective`, `TransformBodyAssignCount`, `TopLevelCallLost` and `BranchCallHoisted` |
| CallOnceTransformer.RecordedParents | call_once.py:44-48 | each recorded parent is the innermost `If`/`Return` around that call in the original body, or `None` |
| CallOnceTransformer.SiteAnchorsTagged | call_once.py:97-103 | tagging the returns moves no self-call to a different anchor |
| CallOnceTransformer.SiteAnchorsSeqCount | call_once.py:44-48 | the self-calls without an enclosing `If`/`Return` in a body are exactly those of its top-level assignments and expression statements |
| CallOnceTransformer.TransformBodyRoundTrip | call_once.py:97-112 | given the calls recorded for the input body, the rewrite can be undone: removing the inserted assignments, inlining the recorded calls and dropping the tags gives back the original body, when no `name_k` was already in use |
| CallOnceTransformer.TransformBodyAssignments | call_once.py:97-112 | with no self-call in a top-level simple statement, the assignments to the variables `name_k` anywhere in the output are exactly `name_k = <call>` for every recorded call. Every lifted call is assigned somewhere, and the body assigns none of those variables itself |
| CallOnceTransformer.TransformBodyAssignsTo | call_once.py:97-112 | the same for any set of variables that holds the recorded ones and none that the body assigns |
| CallOnceTransformer.TransformBodyInjective | call_once.py:97-112 | with no self-call in a top-level simple statement and no `name_k` in use, two bodies with the same output are equal, so the output alone determines the body |
| CallOnceTransformer.RecordingIncluded | call_once.py:35-39 | if each `name_k = <call>` of one numbered recording also comes from another, then the first recording has the same variables and calls as a prefix of the second |
| CallOnceTransformer.SameRecording | call_once.py:35-39 | two numbered recordings that give the same set of assignments have the same variables and calls, position by position |
| CallOnceTransformer.TopLevelCallLost | call_once.py:44-48 | `f(1)` and `f(2)` as top-level expression statements are both rewritten to a bare read of `f_0`, with no assignment. The output does not determine the body, and `f_0` is never bound |
| CallOnceTransformer.BranchCallHoisted | call_once.py:80-94 | a self-call in an expression statement of an `else` branch is assigned in front of the whole `If`, ahead of its test |
| CallTransformer.InlineStmtsSameCalls | call_once.py:35-39 | inlining depends only on the recorded variables and calls, not on the recorded parents |
| CallOnceTransformer.TransformBodyAssignCount | call_once.py:97-112 | the output has one more assignment per self-call inside an `If` or `Return`; a self-call in a top-level assignment or expression statement gets no assignment at all, because its parent is `None` |
| CallOnceTransformer.VisitFunctionDef | call_once.py:116-157 | an unmarked function stays as it is; a marked `f` becomes, in order, `f_CACHE`, the wrapper `f` over that cache calling `f_aux`, and `f_aux`. `f_aux` has the same parameters and return annotation, no decorators and the rewritten body. The names are `f + "_CACHE"` and `f + "_aux"`, distinct from each other and from `f` |
| CallOnceTransformer.VisitFunctionDefRoundTrip | call_once.py:123-142 | given the calls recorded for the input body, the original function can be rebuilt from the three definitions, apart from its decorators |
| CallOnceTransformer.VisitFunctionDefInjective | call_once.py:123-142 | with no self-call in a top-level simple statement and no `name_k` in use, two marked functions with the same output have the same name, parameters, annotation and body |
| CallOnceTransformer.VisitFunctionDefDropsDecorators | call_once.py:127-142 | the output does not depend on the decorator list beyond the `call_once` mark: two marked functions that differ only in their decorators give the same three definitions |
| CallOnceTransformer.TransformModule | call_once.py:115-121 | the module grows by exactly two items per marked function |
| CallOnceTransformer.TransformModuleAppend | call_once.py:115-121 | items are transformed one at a time, in place: the result for `a + b` is the result for `a` followed by the result for `b` |
| CallOnceTransformer.TransformModuleSingle | call_once.py:116-121 | a single item is kept unless it is a marked function, which becomes the three definitions of `VisitFunctionDef` |
| CallOnceTransformer.TransformModuleKeeps | call_once.py:118-121 | an item that is not a marked function stays in place between the transformed items before and after it |
| CallOnceTransformer.TransformModuleUnmarked | call_once.py:118-121 | a module with no marked function is left unchanged |
| CallOnceTransformer.TransformModuleIdempotent | call_once.py:128-141 | no marked function survives the transformation, so a second run changes nothing |
| CallOnceTransformer.CallMemoWrapper | call_once.py:145-153 | under key `(args, tuple(kwargs.items()))`: a hit runs no `aux`, returns the cached value and leaves the cache as it is; a miss runs `aux` exactly once, returns its value, and leaves the keys `aux` left behind plus `key`. Every entry `aux` left, other than `key`, keeps its value. The returned value is `cache[key]` afterwards, and existing entries survive whenever `aux` keeps them |
| CallOnceTransformer.MemoRepeatCall | call_once.py:148-152 | a repeated call with the same arguments does not call `aux` again and returns the same value from an unchanged cache |
| Keys.Insert | fib.call_once.py:13 | building a dict from items. A new name goes last with its value. An existing name keeps its position and takes the new value, and every other item is unchanged. Names stay distinct |
| Keys.DictFromDistinct | fib.call_once.py:13 | `dict(items)` of items with distinct names lists them unchanged |
| Keys.DictFrom | fib.call_once.py:13 | `dict(items)` never holds one name twice |
| Keys.KeyRoundTrip | fib.call_once.py:12-13 | the driver unpacks exactly the positional and keyword arguments from which the wrapper built the key (line 24) |
| Keys.MakeKey | call_once.py:149 | the key `(args, tuple(kwargs.items()))`; it carries no contract of its own, and `Keys.KeyRoundTrip` states that the driver recovers the arguments from it |
| Keys.Unpack | fib.call_once.py:12-13 | the positional arguments are passed on as they are, and the keyword arguments form a dict with no name twice; `Keys.KeyRoundTrip` states the round trip with `MakeKey` |
| Keys.BindRequestedKey | fib.call_once.py:30 | a requested key `((n,), ())` binds the parameter to `n`, and so does the keyword call `f(n=n)` |
| Keys.BindOne | fib.call_once.py:27 | binding to `def f(n)` succeeds with `v` only for the call forms `f(v)` and `f(n=v)`, and fails for every other argument list |
| Frontier.Push | fib.call_once.py:4-5 | `stack[k] = None` adds `k` and nothing else, keeps every earlier position, and keeps the keys distinct |
| Frontier.Pop | fib.call_once.py:7-8 | `popitem()` splits off the most recently inserted key |
| Frontier.PushPresent | fib.call_once.py:4-5 | pushing a key that is already present moves nothing |
| Frontier.PopPush | fib.call_once.py:4-8 | popping right after pushing a new key returns it and the earlier frontier, which is LIFO order |
| Frontier.PushPop | fib.call_once.py:14-15 | pushing the popped key back restores the frontier |
| Driver.AdvanceBookkeeping | hackercup/a2.co.py:14-24 | one pass of the loop keeps three facts: the cache holds only the initial keys plus the written ones, at most one step runs, and in the skipping version no entry is ever overwritten |
| Driver.AdvanceSound | fib.call_once.py:18-19 | a pass never stores a value other than the reference value |
| Driver.AdvanceProgress | fib.call_once.py:14-19 | for a well-founded step function, a pass keeps the frontier a chain of falling rank and strictly lowers a bounded potential |
| Driver.FirstStep | hackercup/a2.co.py:14-16 | on the first pass, the skipping driver discards a cached key; a raising step ends the run with the cache untouched |
| Driver.ArgsKept | fib.call_once.py:9-19 | the top-level key stays on the frontier until it is cached or a step raises |
| Driver.Advance | fib.call_once.py:10-19 | one pass of the loop body, including the skip of hackercup/a2.co.py:15-16; it carries no contract of its own, and its properties are stated by `Driver.AdvanceBookkeeping`, `Driver.AdvanceSound`, `Driver.AdvanceProgress` and `Driver.FirstStep` |
| Driver.Finish | fib.call_once.py:20 | `return cache[args]` after the loop, with the raising and out-of-fuel exits; it carries no contract of its own, and `Driver.CallOnce` states what it returns |
| Driver.CallOnce | fib.call_once.py:1-20 | both driver versions. Cache keys are only added. The skipping version (hackercup/a2.co.py:4-25) writes each entry once, answers a cached key with no step, and returns `cache[args]`. A raising first step raises. With a sound step the result is the reference value. With a well-founded step and enough fuel the run finishes |
| Fib.Fib | fib.py:3-6 | `fib(n) >= 0` for `n >= 0` |
| Fib.FibIter | fib.py:3-6 | an iterative computation with no recursion depth gives `fib(n)` |
| Fib.FibStepRequests | fib.call_once.py:27-38 | for `n >= 2`, `fib_aux` requests `n-1` first, then `n-2`, and returns their sum once both are cached |
| Fib.FibStep | fib.call_once.py:27-38 | `fib_aux`; it carries no contract of its own, and its properties are stated by `Fib.FibStepRequests`, `Fib.FibStepSound` and `Fib.FibWellFounded` |
| Fib.FibStepSound | fib.call_once.py:27-38 | over a cache holding `fib` values, `fib_aux` only returns `fib(n)` |
| Fib.FibWellFounded | fib.call_once.py:27-36 | `fib_aux` only requests missing keys of smaller argument, never below 0, and never raises on a key that binds |
| Fib.FibWrapper | fib.call_once.py:23-25 | the wrapper returns `fib(n)` for any key that binds to `n`, raises when the arguments do not bind, and keeps its cache holding `fib` values |
| Fib.FibCallOnce | fib.py:3-6 | end to end, the driver on `fib_aux` with a fresh cache computes the recursive `fib(n)` for every integer `n` |
| SnakeScales.PyIndex | hackercup/a2.co.py:37 | Python indexing is defined exactly for `-len(A) <= n < len(A)` |
| SnakeScales.MinLeft | hackercup/a2.py:17-24 | `min_left(n) <= A[n]` |
| SnakeScales.MinRight | hackercup/a2.py:27-34 | `min_right(n) <= A[n]` |
| SnakeScales.PyMinLeftValue | hackercup/a2.py:17-24 | the recursion, with Python's indexing and no recursion limit, gives `MinLeft` on indices and raises for every other `n`, negative ones included |
| SnakeScales.PyMinRightValue | hackercup/a2.py:27-34 | the recursion, with Python's indexing and no recursion limit, gives `MinRight` on indices, has a value for negative indices in range, and raises otherwise |
| SnakeScales.PyMinLeft | hackercup/a2.py:17-24 | `min_left` with Python's indexing; it carries no contract of its own, and `SnakeScales.PyMinLeftValue` states its values |
| SnakeScales.PyMinRight | hackercup/a2.py:27-34 | `min_right` with Python's indexing; it carries no contract of its own, and `SnakeScales.PyMinRightValue` states its values |
| SnakeScales.MinLeftCheapest | hackercup/a2.py:17-24 | `min_left(n)` is the cheapest climb to scale `n` from the ground at some `j <= n`. A climb costs the largest of `A[j]` and the height differences on the way. No climb is cheaper and one costs exactly that |
| SnakeScales.MinRightCheapest | hackercup/a2.py:27-34 | `min_right(n)` is the cheapest such climb from the ground at some `j >= n` |
| SnakeScales.SolveUpToMax | hackercup/a2.py:36-39 | after `m` rounds, `mn` is 0 or one of the first `m` values `min(min_left(i), min_right(i))`, and at least 0 and at least each of them |
| SnakeScales.SolveIsMax | hackercup/a2.py:36-41 | `solve` is the maximum of 0 and every `min(min_left(i), min_right(i))`, and 0 when `A` is empty |
| SnakeScales.Solve | hackercup/a2.py:36-41 | `solve`; it carries no contract of its own, and `SnakeScales.SolveIsMax` and `SnakeScales.SolveUpToMax` state its value |
| SnakeScales.MinLeftSound | hackercup/a2.co.py:36-47 | over a cache holding `min_left` values, `min_left_aux` only returns `min_left` values, for negative `n` too |
| SnakeScales.MinLeftAux | hackercup/a2.co.py:36-47 | `min_left_aux`; it carries no contract of its own, and its properties are stated by `SnakeScales.MinLeftSound`, `SnakeScales.MinLeftAuxOnIndex` and `SnakeScales.MinLeftWellFounded` |
| SnakeScales.MinRightSound | hackercup/a2.co.py:54-65 | the same for `min_right_aux` |
| SnakeScales.MinRightAux | hackercup/a2.co.py:54-65 | `min_right_aux`; it carries no contract of its own, and its properties are stated by `SnakeScales.MinRightSound`, `SnakeScales.MinRightAuxOnIndex` and `SnakeScales.MinRightWellFounded` |
| SnakeScales.MinLeftAuxOnIndex | hackercup/a2.co.py:36-47 | on an index, `min_left_aux` never raises and only requests index `n-1`, when `n > 0` and it is missing |
| SnakeScales.MinLeftWellFounded | hackercup/a2.co.py:36-47 | from index `i`, `min_left_aux` never raises and only requests missing keys of lower index within `0..i-1` |
| SnakeScales.MinRightAuxOnIndex | hackercup/a2.co.py:54-65 | on an index, `min_right_aux` never raises and only requests index `n+1`, when it is missing |
| SnakeScales.MinRightWellFounded | hackercup/a2.co.py:54-65 | from index `i`, `min_right_aux` only reaches indices `i..len(A)-1`, in falling distance to the end |
| SnakeScales.MinLeftWrapper | hackercup/a2.co.py:32-34 | the wrapper returns `min_left(n)` for an index `n`, answers a cached key directly from the cache, never changes an existing entry, and keeps the cache holding `min_left` values |
| SnakeScales.MinRightWrapper | hackercup/a2.co.py:50-52 | the same for `min_right` |
| SnakeScales.SolveCallOnce | hackercup/a2.co.py:27-70 | `solve`, which creates two fresh caches and runs both drivers for every index, computes the recursive `solve` of `hackercup/a2.py`, taken without its recursion limit |

## Left out

- `main()` is left out: reading stdin, `ast.parse`, `ast.fix_missing_locations`, `ast.unparse` and `print` are I/O and library calls (call_once.py:160-172). The rewriter works on the closed `PyAst` datatype.
- Parsing of the wrapper f-string is left out (call_once.py:145-154). Its result is modelled directly as the items `CacheDecl` and `MemoWrapper`.
- `NodeTransformerThatReturnsList.visit_list` (call_once.py:57-68) is left out: it is never invoked. Flattening happens in `transform_body` and in `NodeTransformer`'s handling of statement lists.
- Python syntax outside the closed fragment is left out: loops, `with`, `try`, nested `def`/`class`, keyword and starred arguments in calls, and attribute callees.
- Marked `def`s inside module-level compound statements (`if`, `for`, `with`, `try`) or class bodies are left out: `NodeTransformer.generic_visit` reaches and rewrites them, but the model's module is a flat list of top-level items. A `def` nested in another `def` is never reached, because `visit_FunctionDef` does not visit its children; so the marked `min_left`/`min_right` of `hackercup/a2.py`, nested in `solve`, are not rewritten by `call_once.py`.
- Python argument binding is not modelled in general. `Keys.BindOne` covers the one-parameter functions `fib(n)`, `min_left(n)` and `min_right(n)`. Argument values are integers.
- Exceptions are not distinguished. `Raise` and `Raised` stand for any exception from the step function (a `TypeError` from binding, an `IndexError` from indexing) and for the driver's final `KeyError`.
- Non-termination is modelled with fuel. `Driver.CallOnce` and the wrappers take a `fuel` bound, and `OutOfFuel` stands for the source's endless loop on cyclic requests. Termination is proved only for step functions that are well founded on a finite domain.
- The recursive calls inside `f_aux` that go back through the memoising wrapper are not modelled step by step. `CallOnceTransformer.CallMemoWrapper` takes a run of `f_aux` as a parameter: its value and the cache it leaves behind.
- Python's recursion limit is not modelled: `Fib.Fib`, `SnakeScales.PyMinLeft`, `SnakeScales.PyMinRight` and `SnakeScales.Solve` are the unbounded recursions, while `hackercup/a2.py` itself raises `RecursionError` on indices about 1000 deep.
- The step functions read their cache as an explicit parameter, not as a global or closure variable. Their bodies are pure, so the repeated side effects of re-entry do not arise.
- I/O and top-level effects are left out: `in_int`, `in_ints`, the `Case #` loop, and `print(fib(100000) % 1000)`. `solve` is modelled as a function of the heights `A`.
- SnakeScales.MinLeft: requires `0 <= n < len(A)`, the only arguments `solve` passes. Python's behaviour for every other `n` is `PyMinLeft`, and `PyMinLeftValue` relates the two.
- SnakeScales.MinRight: requires `0 <= n < len(A)`. `PyMinRight` covers every other `n`, and `PyMinRightValue` relates the two.
- CallOnceTransformer.TransformBodyRoundTrip: requires the body not to use a name `name_k` already. The source does not check for such a collision, and with one the rewrite cannot be undone. It rebuilds the body from the calls recorded for that body. A self-call in a top-level simple statement appears only in that recording (`TopLevelCallLost`). Without such calls, `TransformBodyInjective` shows that the output alone determines the body.
- CallOnceTransformer.VisitFunctionDefRoundTrip: rebuilds from the calls recorded for `fd.body` and from `fd.decorators`. `f_aux` carries no decorators, so the decorators besides `call_once` are lost (`VisitFunctionDefDropsDecorators`). The calls of top-level simple statements are lost too. `VisitFunctionDefInjective` recovers everything else from the output alone, when there are no such calls.
- CallOnceTransformer.TransformBodyInjective: requires no self-call in a top-level simple statement, because the output does not keep such a call (`TopLevelCallLost`). It also requires that no `name_k` is already in use.
- CallOnceTransformer.CallMemoWrapper: a run of `f_aux` that raises cannot be expressed, because `aux` always returns a value and a cache. In the source, a raising `f_aux` stores nothing under `key` and the exception propagates out of the wrapper. The entries stored by lifted calls that finished before the exception do stay in the cache.
- CallOnceTransformer.TransformBodyAssignCount: requires distinct node identities, which every tree from `ast.parse` has.
