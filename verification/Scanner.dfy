/** The template scanner (crates/i18n-scan/src/minijinja.rs): it walks a template's syntax tree and
    records a key for every call of the translation function. */
module Scanner {
  import opened Text
  import opened ScanKeys

  // ---------------------------------------------------------------- syntax trees

  datatype ConstValue = StringConst(text: string) | OtherConst

  datatype Expr =
    | Var(id: string)
    | Const(value: ConstValue)
    | Slice(expr: Expr, start: Option<Expr>, stop: Option<Expr>, step: Option<Expr>)
    | UnaryOp(expr: Expr)
    | BinOp(left: Expr, right: Expr)
    | Compare(expr: Expr, ops: seq<Expr>)
    | IfExpr(test: Expr, trueExpr: Expr, falseExpr: Option<Expr>)
    | Filter(input: Option<Expr>, args: seq<CallArg>)
    | Test(expr: Expr, args: seq<CallArg>)
    | GetAttr(expr: Expr)
    | GetItem(expr: Expr, subscript: Expr)
    | CallExpr(call: Call)
    | List(items: seq<Expr>)
    | Map(keys: seq<Expr>, values: seq<Expr>)

  datatype CallArg = Pos(expr: Expr) | Kwarg(name: string, expr: Expr) | PosSplat(expr: Expr) | KwargSplat(expr: Expr)

  datatype Call = Call(expr: Expr, args: seq<CallArg>, span: Span)

  datatype Macro = Macro(args: seq<Expr>, defaults: seq<Expr>, body: seq<Stmt>)

  datatype Stmt =
    | Template(children: seq<Stmt>)
    | EmitExpr(expr: Expr)
    | EmitRaw
    | ForLoop(target: Expr, iter: Expr, filter: Option<Expr>, body: seq<Stmt>, elseBody: seq<Stmt>)
    | IfCond(cond: Expr, trueBody: seq<Stmt>, falseBody: seq<Stmt>)
    | WithBlock(assignments: seq<Assignment>, body: seq<Stmt>)
    | SetStmt(target: Expr, expr: Expr)
    | SetBlock(target: Expr, filter: Option<Expr>, body: seq<Stmt>)
    | AutoEscape(enabled: Expr, body: seq<Stmt>)
    | FilterBlock(filterExpr: Expr, body: seq<Stmt>)
    | Block(body: seq<Stmt>)
    | Import(expr: Expr, name: Expr)
    | FromImport(expr: Expr, names: seq<ImportedName>)
    | Extends(name: Expr)
    | Include(name: Expr)
    | MacroStmt(macro: Macro)
    | CallBlock(call: Call, macroDecl: Macro)
    | Do(call: Call)

  datatype Assignment = Assignment(left: Expr, right: Expr)

  datatype ImportedName = ImportedName(name: Expr, alias: Option<Expr>)

  // ---------------------------------------------------------------- subterms

  /** Any node of a syntax tree. */
  datatype Term =
    | StmtTerm(stmt: Stmt)
    | ExprTerm(expr: Expr)
    | ArgTerm(arg: CallArg)
    | CallTerm(call: Call)
    | MacroTerm(macro: Macro)
    | AssignmentTerm(assignment: Assignment)
    | NameTerm(imported: ImportedName)

  function Optional(e: Option<Expr>): seq<Term> {
    if e.Some? then [ExprTerm(e.value)] else []
  }

  function Exprs(es: seq<Expr>): (r: seq<Term>)
    ensures |r| == |es| && forall i :: 0 <= i < |es| ==> r[i] == ExprTerm(es[i])
  {
    seq(|es|, i requires 0 <= i < |es| => ExprTerm(es[i]))
  }

  function Stmts(ss: seq<Stmt>): (r: seq<Term>)
    ensures |r| == |ss| && forall i :: 0 <= i < |ss| ==> r[i] == StmtTerm(ss[i])
  {
    seq(|ss|, i requires 0 <= i < |ss| => StmtTerm(ss[i]))
  }

  function Args(cs: seq<CallArg>): (r: seq<Term>)
    ensures |r| == |cs| && forall i :: 0 <= i < |cs| ==> r[i] == ArgTerm(cs[i])
  {
    seq(|cs|, i requires 0 <= i < |cs| => ArgTerm(cs[i]))
  }

  function Assignments(xs: seq<Assignment>): (r: seq<Term>)
    ensures |r| == |xs| && forall i :: 0 <= i < |xs| ==> r[i] == AssignmentTerm(xs[i])
  {
    seq(|xs|, i requires 0 <= i < |xs| => AssignmentTerm(xs[i]))
  }

  function Names(ns: seq<ImportedName>): (r: seq<Term>)
    ensures |r| == |ns| && forall i :: 0 <= i < |ns| ==> r[i] == NameTerm(ns[i])
  {
    seq(|ns|, i requires 0 <= i < |ns| => NameTerm(ns[i]))
  }

  /** The immediate subterms of a term, in the order in which they are visited. */
  function Children(t: Term): seq<Term> {
    match t
    case StmtTerm(s) => StmtChildren(s)
    case ExprTerm(e) => ExprChildren(e)
    case ArgTerm(a) => [ExprTerm(a.expr)]
    case CallTerm(c) => [ExprTerm(c.expr)] + Args(c.args)
    case MacroTerm(m) => Stmts(m.body) + Exprs(m.args) + Exprs(m.defaults)
    case AssignmentTerm(a) => [ExprTerm(a.left), ExprTerm(a.right)]
    case NameTerm(n) => [ExprTerm(n.name)] + Optional(n.alias)
  }

  function StmtChildren(s: Stmt): seq<Term> {
    match s
    case Template(children) => Stmts(children)
    case EmitExpr(e) => [ExprTerm(e)]
    case EmitRaw => []
    case ForLoop(target, iter, filter, body, elseBody) =>
      [ExprTerm(iter)] + Optional(filter) + [ExprTerm(target)] + Stmts(body) + Stmts(elseBody)
    case IfCond(cond, trueBody, falseBody) => [ExprTerm(cond)] + Stmts(trueBody) + Stmts(falseBody)
    case WithBlock(assignments, body) =>
      Stmts(body) + Assignments(assignments)
    case SetStmt(target, e) => [ExprTerm(target), ExprTerm(e)]
    case SetBlock(target, filter, body) => [ExprTerm(target)] + Stmts(body) + Optional(filter)
    case AutoEscape(enabled, body) => [ExprTerm(enabled)] + Stmts(body)
    case FilterBlock(filter, body) => [ExprTerm(filter)] + Stmts(body)
    case Block(body) => Stmts(body)
    case Import(e, name) => [ExprTerm(name), ExprTerm(e)]
    case FromImport(e, names) =>
      [ExprTerm(e)] + Names(names)
    case Extends(name) => [ExprTerm(name)]
    case Include(name) => [ExprTerm(name)]
    case MacroStmt(m) => [MacroTerm(m)]
    case CallBlock(call, m) => [CallTerm(call), MacroTerm(m)]
    case Do(call) => [CallTerm(call)]
  }

  function ExprChildren(e: Expr): seq<Term> {
    match e
    case Var(_) => []
    case Const(_) => []
    case Slice(x, start, stop, step) => [ExprTerm(x)] + Optional(start) + Optional(stop) + Optional(step)
    case UnaryOp(x) => [ExprTerm(x)]
    case BinOp(left, right) => [ExprTerm(left), ExprTerm(right)]
    case Compare(x, ops) => [ExprTerm(x)] + Exprs(ops)
    case IfExpr(test, trueExpr, falseExpr) => [ExprTerm(test), ExprTerm(trueExpr)] + Optional(falseExpr)
    case Filter(input, args) => Optional(input) + Args(args)
    case Test(x, args) => [ExprTerm(x)] + Args(args)
    case GetAttr(x) => [ExprTerm(x)]
    case GetItem(x, subscript) => [ExprTerm(x), ExprTerm(subscript)]
    case CallExpr(call) => [CallTerm(call)]
    case List(items) => Exprs(items)
    case Map(keys, values) => Exprs(keys) + Exprs(values)
  }

  // Sizes: the number of nodes, summed field by field.

  function SizeExpr(e: Expr): nat {
    match e
    case Var(_) => 1
    case Const(_) => 1
    case Slice(x, start, stop, step) => 1 + SizeExpr(x) + SizeOptional(start) + SizeOptional(stop) + SizeOptional(step)
    case UnaryOp(x) => 1 + SizeExpr(x)
    case BinOp(left, right) => 1 + SizeExpr(left) + SizeExpr(right)
    case Compare(x, ops) => 1 + SizeExpr(x) + SizeExprs(ops)
    case IfExpr(test, trueExpr, falseExpr) => 1 + SizeExpr(test) + SizeExpr(trueExpr) + SizeOptional(falseExpr)
    case Filter(input, args) => 1 + SizeOptional(input) + SizeArgs(args)
    case Test(x, args) => 1 + SizeExpr(x) + SizeArgs(args)
    case GetAttr(x) => 1 + SizeExpr(x)
    case GetItem(x, subscript) => 1 + SizeExpr(x) + SizeExpr(subscript)
    case CallExpr(call) => 1 + SizeCall(call)
    case List(items) => 1 + SizeExprs(items)
    case Map(keys, values) => 1 + SizeExprs(keys) + SizeExprs(values)
  }

  function SizeOptional(e: Option<Expr>): nat { if e.Some? then SizeExpr(e.value) else 0 }

  function SizeExprs(es: seq<Expr>): nat { if es == [] then 0 else SizeExpr(es[0]) + SizeExprs(es[1..]) }

  function SizeArg(a: CallArg): nat { 1 + SizeExpr(a.expr) }

  function SizeArgs(cs: seq<CallArg>): nat { if cs == [] then 0 else SizeArg(cs[0]) + SizeArgs(cs[1..]) }

  function SizeCall(c: Call): nat { 1 + SizeExpr(c.expr) + SizeArgs(c.args) }

  function SizeMacro(m: Macro): nat { 1 + SizeExprs(m.args) + SizeExprs(m.defaults) + SizeStmts(m.body) }

  function SizeStmts(ss: seq<Stmt>): nat { if ss == [] then 0 else SizeStmt(ss[0]) + SizeStmts(ss[1..]) }

  function SizeAssignments(xs: seq<Assignment>): nat {
    if xs == [] then 0 else 1 + SizeExpr(xs[0].left) + SizeExpr(xs[0].right) + SizeAssignments(xs[1..])
  }

  function SizeNames(ns: seq<ImportedName>): nat {
    if ns == [] then 0 else 1 + SizeExpr(ns[0].name) + SizeOptional(ns[0].alias) + SizeNames(ns[1..])
  }

  function SizeStmt(s: Stmt): nat {
    match s
    case Template(children) => 1 + SizeStmts(children)
    case EmitExpr(e) => 1 + SizeExpr(e)
    case EmitRaw => 1
    case ForLoop(target, iter, filter, body, elseBody) =>
      1 + SizeExpr(target) + SizeExpr(iter) + SizeOptional(filter) + SizeStmts(body) + SizeStmts(elseBody)
    case IfCond(cond, trueBody, falseBody) => 1 + SizeExpr(cond) + SizeStmts(trueBody) + SizeStmts(falseBody)
    case WithBlock(assignments, body) => 1 + SizeAssignments(assignments) + SizeStmts(body)
    case SetStmt(target, e) => 1 + SizeExpr(target) + SizeExpr(e)
    case SetBlock(target, filter, body) => 1 + SizeExpr(target) + SizeOptional(filter) + SizeStmts(body)
    case AutoEscape(enabled, body) => 1 + SizeExpr(enabled) + SizeStmts(body)
    case FilterBlock(filter, body) => 1 + SizeExpr(filter) + SizeStmts(body)
    case Block(body) => 1 + SizeStmts(body)
    case Import(e, name) => 1 + SizeExpr(e) + SizeExpr(name)
    case FromImport(e, names) => 1 + SizeExpr(e) + SizeNames(names)
    case Extends(name) => 1 + SizeExpr(name)
    case Include(name) => 1 + SizeExpr(name)
    case MacroStmt(m) => 1 + SizeMacro(m)
    case CallBlock(call, m) => 1 + SizeCall(call) + SizeMacro(m)
    case Do(call) => 1 + SizeCall(call)
  }

  function Size(t: Term): (n: nat)
    ensures n > 0
  {
    match t
    case StmtTerm(s) => SizeStmt(s)
    case ExprTerm(e) => SizeExpr(e)
    case ArgTerm(a) => SizeArg(a)
    case CallTerm(c) => SizeCall(c)
    case MacroTerm(m) => SizeMacro(m)
    case AssignmentTerm(a) => 1 + SizeExpr(a.left) + SizeExpr(a.right)
    case NameTerm(n) => 1 + SizeExpr(n.name) + SizeOptional(n.alias)
  }

  function SizeAll(ts: seq<Term>): nat { if ts == [] then 0 else Size(ts[0]) + SizeAll(ts[1..]) }

  lemma {:induction false} SizeAllAppend(a: seq<Term>, b: seq<Term>)
    ensures SizeAll(a + b) == SizeAll(a) + SizeAll(b)
  {
    if a == [] {
      assert a + b == b;
    } else {
      SizeAllAppend(a[1..], b);
      assert (a + b)[1..] == a[1..] + b;
    }
  }

  lemma SizeAllAppend3(a: seq<Term>, b: seq<Term>, c: seq<Term>)
    ensures SizeAll(a + b + c) == SizeAll(a) + SizeAll(b) + SizeAll(c)
  {
    SizeAllAppend(a, b);
    SizeAllAppend(a + b, c);
  }

  lemma {:induction false} SizeOfExprs(es: seq<Expr>)
    ensures SizeAll(Exprs(es)) == SizeExprs(es)
  {
    if es != [] {
      SizeOfExprs(es[1..]);
      assert Exprs(es)[1..] == Exprs(es[1..]);
    }
  }

  lemma {:induction false} SizeOfStmts(ss: seq<Stmt>)
    ensures SizeAll(Stmts(ss)) == SizeStmts(ss)
  {
    if ss != [] {
      SizeOfStmts(ss[1..]);
      assert Stmts(ss)[1..] == Stmts(ss[1..]);
    }
  }

  lemma {:induction false} SizeOfArgs(cs: seq<CallArg>)
    ensures SizeAll(Args(cs)) == SizeArgs(cs)
  {
    if cs != [] {
      SizeOfArgs(cs[1..]);
      assert Args(cs)[1..] == Args(cs[1..]);
    }
  }

  lemma {:induction false} SizeOfAssignments(xs: seq<Assignment>)
    ensures SizeAll(Assignments(xs)) == SizeAssignments(xs)
  {
    if xs != [] {
      SizeOfAssignments(xs[1..]);
      assert Assignments(xs)[1..] == Assignments(xs[1..]);
    }
  }

  lemma {:induction false} SizeOfNames(ns: seq<ImportedName>)
    ensures SizeAll(Names(ns)) == SizeNames(ns)
  {
    if ns != [] {
      SizeOfNames(ns[1..]);
      assert Names(ns)[1..] == Names(ns[1..]);
    }
  }

  lemma SizeOfSingles()
    ensures SizeAll([]) == 0
    ensures forall t :: SizeAll([t]) == Size(t)
    ensures forall t, u :: SizeAll([t, u]) == Size(t) + Size(u)
    ensures forall e :: SizeAll(Optional(e)) == SizeOptional(e)
  {
    forall t, u ensures SizeAll([t, u]) == Size(t) + Size(u) {
      SizeAllAppend([t], [u]);
      assert [t] + [u] == [t, u];
    }
  }

  lemma SizeOfExprChildren(e: Expr)
    ensures SizeAll(ExprChildren(e)) + 1 == SizeExpr(e)
  {
    SizeOfSingles();
    hide SizeAll, SizeExprs, SizeArgs, SizeCall, Exprs, Args;
    match e
    case Slice(x, start, stop, step) =>
      SizeAllAppend3([ExprTerm(x)], Optional(start), Optional(stop));
      SizeAllAppend([ExprTerm(x)] + Optional(start) + Optional(stop), Optional(step));
    case Compare(x, ops) => SizeAllAppend([ExprTerm(x)], Exprs(ops)); SizeOfExprs(ops);
    case IfExpr(test, trueExpr, falseExpr) => SizeAllAppend([ExprTerm(test), ExprTerm(trueExpr)], Optional(falseExpr));
    case Filter(input, args) => SizeAllAppend(Optional(input), Args(args)); SizeOfArgs(args);
    case Test(x, args) => SizeAllAppend([ExprTerm(x)], Args(args)); SizeOfArgs(args);
    case List(items) => SizeOfExprs(items);
    case Map(keys, values) => SizeAllAppend(Exprs(keys), Exprs(values)); SizeOfExprs(keys); SizeOfExprs(values);
    case _ =>
  }

  lemma SizeOfStmtChildren(s: Stmt)
    ensures SizeAll(StmtChildren(s)) + 1 == SizeStmt(s)
  {
    SizeOfSingles();
    hide SizeAll, SizeExpr, SizeStmts, SizeNames, SizeAssignments, SizeMacro, SizeCall, Stmts, Names, Assignments;
    match s
    case Template(children) => SizeOfStmts(children);
    case ForLoop(target, iter, filter, body, elseBody) =>
      SizeAllAppend3([ExprTerm(iter)], Optional(filter), [ExprTerm(target)]);
      SizeAllAppend3([ExprTerm(iter)] + Optional(filter) + [ExprTerm(target)], Stmts(body), Stmts(elseBody));
      SizeOfStmts(body);
      SizeOfStmts(elseBody);
    case IfCond(cond, trueBody, falseBody) =>
      SizeAllAppend3([ExprTerm(cond)], Stmts(trueBody), Stmts(falseBody));
      SizeOfStmts(trueBody);
      SizeOfStmts(falseBody);
    case WithBlock(assignments, body) =>
      SizeAllAppend(Stmts(body), Assignments(assignments));
      SizeOfStmts(body);
      SizeOfAssignments(assignments);
    case SetBlock(target, filter, body) =>
      SizeAllAppend3([ExprTerm(target)], Stmts(body), Optional(filter));
      SizeOfStmts(body);
    case AutoEscape(enabled, body) => SizeAllAppend([ExprTerm(enabled)], Stmts(body)); SizeOfStmts(body);
    case FilterBlock(filter, body) => SizeAllAppend([ExprTerm(filter)], Stmts(body)); SizeOfStmts(body);
    case Block(body) => SizeOfStmts(body);
    case FromImport(e, names) => SizeAllAppend([ExprTerm(e)], Names(names)); SizeOfNames(names);
    case _ =>
  }

  /** Nothing below a term is left out of its children or listed twice: their sizes add up to its own. */
  lemma ChildrenAddUp(t: Term)
    ensures SizeAll(Children(t)) + 1 == Size(t)
  {
    SizeOfSingles();
    hide SizeAll;
    match t
    case StmtTerm(s) => SizeOfStmtChildren(s);
    case ExprTerm(e) => SizeOfExprChildren(e);
    case ArgTerm(_) =>
    case CallTerm(c) => SizeAllAppend([ExprTerm(c.expr)], Args(c.args)); SizeOfArgs(c.args);
    case MacroTerm(m) =>
      SizeAllAppend3(Stmts(m.body), Exprs(m.args), Exprs(m.defaults));
      SizeOfStmts(m.body);
      SizeOfExprs(m.args);
      SizeOfExprs(m.defaults);
    case AssignmentTerm(_) =>
    case NameTerm(n) => SizeAllAppend([ExprTerm(n.name)], Optional(n.alias));
  }

  // ---------------------------------------------------------------- all calls of a tree

  /** Every call in a list of terms, at any depth, outer calls first. */
  function Calls(ts: seq<Term>): seq<Call>
    decreases SizeAll(ts)
  {
    if ts == [] then []
    else
      ChildrenAddUp(ts[0]);
      (if ts[0].CallTerm? then [ts[0].call] else []) + Calls(Children(ts[0])) + Calls(ts[1..])
  }

  /** A position in a list of terms: which term, then which child, and so on. */
  type Position = seq<nat>

  function TermAt(ts: seq<Term>, p: Position): Option<Term>
    decreases |p|
  {
    if p == [] || p[0] >= |ts| then None
    else if |p| == 1 then Some(ts[p[0]])
    else TermAt(Children(ts[p[0]]), p[1..])
  }

  predicate CallAt(ts: seq<Term>, p: Position) {
    TermAt(ts, p).Some? && TermAt(ts, p).value.CallTerm?
  }

  function Below(ps: seq<Position>): (r: seq<Position>)
    ensures |r| == |ps| && forall i :: 0 <= i < |ps| ==> r[i] == [0] + ps[i]
  {
    seq(|ps|, i requires 0 <= i < |ps| => [0] + ps[i])
  }

  function Next(p: Position): Position {
    if p == [] then [] else [p[0] + 1] + p[1..]
  }

  function Beside(ps: seq<Position>): (r: seq<Position>)
    ensures |r| == |ps| && forall i :: 0 <= i < |ps| ==> r[i] == Next(ps[i])
  {
    seq(|ps|, i requires 0 <= i < |ps| => Next(ps[i]))
  }

  /** The positions of the calls, in the order of `Calls`. */
  function CallPositions(ts: seq<Term>): seq<Position>
    decreases SizeAll(ts)
  {
    if ts == [] then []
    else
      ChildrenAddUp(ts[0]);
      (if ts[0].CallTerm? then [[0]] else []) + Below(CallPositions(Children(ts[0]))) + Beside(CallPositions(ts[1..]))
  }

  ghost predicate Located(ts: seq<Term>, ps: seq<Position>, calls: seq<Call>) {
    |ps| == |calls| && forall i :: 0 <= i < |ps| ==> ps[i] != [] && TermAt(ts, ps[i]) == Some(CallTerm(calls[i]))
  }

  ghost predicate NoRepeat(ps: seq<Position>) {
    forall i, j :: 0 <= i < j < |ps| ==> ps[i] != ps[j]
  }

  ghost predicate Pairs(ts: seq<Term>, ps: seq<Position>, calls: seq<Call>) {
    Located(ts, ps, calls) && NoRepeat(ps) && forall p :: CallAt(ts, p) ==> p in ps
  }

  lemma LocatedBelow(ts: seq<Term>, ps: seq<Position>, cs: seq<Call>)
    requires ts != [] && Located(Children(ts[0]), ps, cs) && NoRepeat(ps)
    ensures Located(ts, Below(ps), cs) && NoRepeat(Below(ps))
  {
    forall i | 0 <= i < |ps| ensures Below(ps)[i][1..] == ps[i] {
    }
  }

  lemma LocatedBeside(ts: seq<Term>, qs: seq<Position>, ds: seq<Call>)
    requires ts != [] && Located(ts[1..], qs, ds) && NoRepeat(qs)
    ensures Located(ts, Beside(qs), ds) && NoRepeat(Beside(qs))
  {
    hide Children;
    forall i | 0 <= i < |qs| ensures TermAt(ts, Beside(qs)[i]) == TermAt(ts[1..], qs[i]) {
      assert Beside(qs)[i][1..] == qs[i][1..];
    }
    forall i, j | 0 <= i < j < |qs| ensures Beside(qs)[i] != Beside(qs)[j] {
      assert qs[i] == [qs[i][0]] + qs[i][1..] && qs[j] == [qs[j][0]] + qs[j][1..];
      assert Beside(qs)[i][1..] == qs[i][1..] && Beside(qs)[j][1..] == qs[j][1..];
    }
  }

  lemma LocatedAppend(ts: seq<Term>, a: seq<Position>, x: seq<Call>, b: seq<Position>, y: seq<Call>)
    requires Located(ts, a, x) && Located(ts, b, y) && NoRepeat(a) && NoRepeat(b)
    requires forall i, j :: 0 <= i < |a| && 0 <= j < |b| ==> a[i] != b[j]
    ensures Located(ts, a + b, x + y) && NoRepeat(a + b)
  {
    hide TermAt;
  }

  /** The calls found are the calls there are: one for each position of the tree that holds a call,
      and no position twice. */
  lemma {:induction false} CallsAreAllCalls(ts: seq<Term>)
    ensures Pairs(ts, CallPositions(ts), Calls(ts))
    decreases SizeAll(ts)
  {
    if ts != [] {
      ChildrenAddUp(ts[0]);
      CallsAreAllCalls(Children(ts[0]));
      CallsAreAllCalls(ts[1..]);
      PairsCons(ts, CallPositions(Children(ts[0])), Calls(Children(ts[0])), CallPositions(ts[1..]), Calls(ts[1..]));
    }
  }

  lemma PairsCons(ts: seq<Term>, ps: seq<Position>, cs: seq<Call>, qs: seq<Position>, ds: seq<Call>)
    requires ts != [] && Pairs(Children(ts[0]), ps, cs) && Pairs(ts[1..], qs, ds)
    ensures Pairs(ts, (if ts[0].CallTerm? then [[0]] else []) + Below(ps) + Beside(qs),
                  (if ts[0].CallTerm? then [ts[0].call] else []) + cs + ds)
  {
    hide Children;
    var own, call := if ts[0].CallTerm? then [[0]] else [], if ts[0].CallTerm? then [ts[0].call] else [];
    assert Located(ts, own, call);
    LocatedBelow(ts, ps, cs);
    LocatedBeside(ts, qs, ds);
    LocatedAppend(ts, own, call, Below(ps), cs);
    assert forall p :: p in own + Below(ps) ==> p[0] == 0;
    assert forall q :: q in Beside(qs) ==> q[0] > 0;
    LocatedAppend(ts, own + Below(ps), call + cs, Beside(qs), ds);
    forall p | CallAt(ts, p) ensures p in own + Below(ps) + Beside(qs) {
      PositionFound(ts, ps, cs, qs, ds, p);
    }
  }

  lemma PositionFound(ts: seq<Term>, ps: seq<Position>, cs: seq<Call>, qs: seq<Position>, ds: seq<Call>, p: Position)
    requires ts != [] && Pairs(Children(ts[0]), ps, cs) && Pairs(ts[1..], qs, ds) && CallAt(ts, p)
    ensures p in (if ts[0].CallTerm? then [[0]] else []) + Below(ps) + Beside(qs)
  {
    if p[0] > 0 {
      FoundBeside(ts, qs, p);
    } else if |p| > 1 {
      FoundBelow(ts, ps, p);
    } else {
      assert p == [0];
    }
  }

  lemma FoundBeside(ts: seq<Term>, qs: seq<Position>, p: Position)
    requires ts != [] && (forall q :: CallAt(ts[1..], q) ==> q in qs) && CallAt(ts, p) && p[0] > 0
    ensures p in Beside(qs)
  {
    hide Children;
    var q := [p[0] - 1] + p[1..];
    assert q[1..] == p[1..];
    assert TermAt(ts[1..], q) == TermAt(ts, p);
    assert CallAt(ts[1..], q);
    var i :| 0 <= i < |qs| && qs[i] == q;
    assert Beside(qs)[i] == p;
  }

  lemma FoundBelow(ts: seq<Term>, ps: seq<Position>, p: Position)
    requires ts != [] && (forall q :: CallAt(Children(ts[0]), q) ==> q in ps) && CallAt(ts, p) && p[0] == 0 && |p| > 1
    ensures p in Below(ps)
  {
    hide Children;
    assert CallAt(Children(ts[0]), p[1..]);
    var i :| 0 <= i < |ps| && ps[i] == p[1..];
    assert Below(ps)[i] == p;
  }

  // ---------------------------------------------------------------- what is recorded

  predicate IsTranslation(func: string, c: Call) { c.expr == Var(func) }

  /** The first argument, if it is positional and a string constant. */
  function FirstText(c: Call): Option<string> {
    if c.args != [] && c.args[0].Pos? && c.args[0].expr.Const? && c.args[0].expr.value.StringConst?
    then Some(c.args[0].expr.value.text) else None
  }

  predicate HasCount(c: Call) {
    exists i :: 0 <= i < |c.args| && c.args[i].Kwarg? && c.args[i].name == "count"
  }

  function KeyOf(c: Call, file: Option<string>): Key
    requires FirstText(c).Some?
  {
    Key(if HasCount(c) then PluralKind else MessageKind, FirstText(c).value,
        if file.Some? then Some(Location(file.value, c.span)) else None)
  }

  /** Some call of the translation function has no literal key. */
  ghost predicate HasBadCall(func: string, calls: seq<Call>) {
    exists i :: 0 <= i < |calls| && IsTranslation(func, calls[i]) && FirstText(calls[i]).None?
  }

  /** The keys of the translation calls, in order, up to the first bad one. */
  function KeysOf(func: string, file: Option<string>, calls: seq<Call>): seq<Key> {
    if calls == [] then []
    else if !IsTranslation(func, calls[0]) then KeysOf(func, file, calls[1..])
    else if FirstText(calls[0]).None? then []
    else [KeyOf(calls[0], file)] + KeysOf(func, file, calls[1..])
  }

  lemma {:induction false} KeysOfAppend(func: string, file: Option<string>, a: seq<Call>, b: seq<Call>)
    ensures KeysOf(func, file, a + b)
         == KeysOf(func, file, a) + if HasBadCall(func, a) then [] else KeysOf(func, file, b)
    ensures HasBadCall(func, a + b) <==> HasBadCall(func, a) || HasBadCall(func, b)
  {
    hide HasBadCall, KeyOf, FirstText, IsTranslation;
    if a == [] {
      assert a + b == b;
      NoBadCall(func);
    } else {
      KeysOfAppend(func, file, a[1..], b);
      assert (a + b)[0] == a[0] && (a + b)[1..] == a[1..] + b;
      BadCallCons(func, a);
      BadCallCons(func, a + b);
      KeysOfCons(func, file, a);
      KeysOfCons(func, file, a + b);
      hide KeysOf;
      if IsTranslation(func, a[0]) && FirstText(a[0]).Some? {
        Regroup([KeyOf(a[0], file)], KeysOf(func, file, a[1..]), KeysOf(func, file, b));
      }
    }
  }

  lemma NoBadCall(func: string)
    ensures !HasBadCall(func, [])
  {
  }

  lemma Regroup(a: seq<Key>, b: seq<Key>, c: seq<Key>)
    ensures a + (b + c) == (a + b) + c
  {
  }

  lemma KeysOfCons(func: string, file: Option<string>, calls: seq<Call>)
    requires calls != []
    ensures KeysOf(func, file, calls)
         == if !IsTranslation(func, calls[0]) then KeysOf(func, file, calls[1..])
            else if FirstText(calls[0]).None? then []
            else [KeyOf(calls[0], file)] + KeysOf(func, file, calls[1..])
  {
    hide KeyOf, FirstText, IsTranslation;
  }

  lemma BadCallCons(func: string, calls: seq<Call>)
    requires calls != []
    ensures HasBadCall(func, calls)
       <==> (IsTranslation(func, calls[0]) && FirstText(calls[0]).None?) || HasBadCall(func, calls[1..])
  {
    assert forall i :: 0 <= i < |calls[1..]| ==> calls[1..][i] == calls[i + 1];
    if i :| 0 <= i < |calls| && IsTranslation(func, calls[i]) && FirstText(calls[i]).None? {
      assert i > 0 ==> calls[1..][i - 1] == calls[i];
    }
  }

  function Own(t: Term): seq<Call> { if t.CallTerm? then [t.call] else [] }

  lemma CallsCons(t: Term, rest: seq<Term>)
    ensures Calls([t] + rest) == Own(t) + Calls(Children(t)) + Calls(rest)
  {
    assert ([t] + rest)[1..] == rest;
  }

  lemma {:induction false} CallsAppend(a: seq<Term>, b: seq<Term>)
    ensures Calls(a + b) == Calls(a) + Calls(b)
  {
    hide Calls, Children, Own;
    if a == [] {
      assert a + b == b;
      NoCalls();
    } else {
      CallsAppend(a[1..], b);
      CallsCons(a[0], a[1..]);
      CallsCons(a[0], a[1..] + b);
      assert a + b == [a[0]] + (a[1..] + b) && a == [a[0]] + a[1..];
    }
  }

  lemma NoCalls()
    ensures Calls([]) == []
  {
  }

  /** The scan of `ts` took the recorded keys from `before` to `after` and succeeded or not. */
  ghost predicate Scanned(func: string, file: Option<string>, before: seq<Key>, after: seq<Key>, ok: bool,
                          ts: seq<Term>)
  {
    && ok == !HasBadCall(func, Calls(ts))
    && after == before + KeysOf(func, file, Calls(ts))
  }

  lemma ScannedThen(func: string, file: Option<string>, k0: seq<Key>, k1: seq<Key>, k2: seq<Key>, ok: bool,
                    a: seq<Term>, b: seq<Term>)
    requires Scanned(func, file, k0, k1, true, a) && Scanned(func, file, k1, k2, ok, b)
    ensures Scanned(func, file, k0, k2, ok, a + b)
  {
    hide Calls, KeysOf, HasBadCall;
    CallsAppend(a, b);
    KeysOfAppend(func, file, Calls(a), Calls(b));
  }

  lemma ScannedShort(func: string, file: Option<string>, k0: seq<Key>, k1: seq<Key>, a: seq<Term>, b: seq<Term>)
    requires Scanned(func, file, k0, k1, false, a)
    ensures Scanned(func, file, k0, k1, false, a + b)
  {
    hide Calls, KeysOf, HasBadCall;
    CallsAppend(a, b);
    KeysOfAppend(func, file, Calls(a), Calls(b));
  }

  // ---------------------------------------------------------------- the walk

  /** Where a visit takes place: among the terms `all`, the first `i` of which have been visited
      since the context held `before`. */
  datatype Site = Site(before: seq<Key>, all: seq<Term>, i: nat)

  ghost predicate Arriving(context: Context, site: Site, ts: seq<Term>)
    reads context
  {
    && site.i + |ts| <= |site.all| && site.all[site.i..site.i + |ts|] == ts
    && Scanned(context.func, context.currentFile, site.before, context.keys, true, site.all[..site.i])
  }

  /** After `n` more terms; a failure has settled the outcome for all of them. */
  ghost predicate Leaving(context: Context, site: Site, n: nat, ok: bool)
    requires site.i + n <= |site.all|
    reads context
  {
    Scanned(context.func, context.currentFile, site.before, context.keys, ok,
            if ok then site.all[..site.i + n] else site.all)
  }

  lemma Enter(context: Context, all: seq<Term>, ts: seq<Term>)
    requires |ts| <= |all| && all[0..|ts|] == ts
    ensures Arriving(context, Site(context.keys, all, 0), ts)
  {
    NothingScanned(context.func, context.currentFile, context.keys);
    assert all[..0] == [];
  }

  lemma Onward(context: Context, site: Site, n: nat, ts: seq<Term>)
    requires site.i + n + |ts| <= |site.all| && site.all[site.i + n..site.i + n + |ts|] == ts
    requires Leaving(context, site, n, true)
    ensures Arriving(context, Site(site.before, site.all, site.i + n), ts)
  {
  }

  ghost predicate InPlace(site: Site, ts: seq<Term>) {
    site.i + |ts| <= |site.all| && site.all[site.i..site.i + |ts|] == ts
  }

  lemma Start(context: Context, site: Site, ts: seq<Term>)
    requires Arriving(context, site, ts)
    ensures InPlace(site, ts) && Leaving(context, site, 0, true)
  {
  }

  lemma Element(context: Context, site: Site, ts: seq<Term>, j: nat)
    requires j < |ts| && InPlace(site, ts) && Leaving(context, site, j, true)
    ensures Arriving(context, Site(site.before, site.all, site.i + j), [ts[j]])
  {
    hide Scanned;
    assert site.all[site.i + j] == site.all[site.i..site.i + |ts|][j];
  }

  lemma Passed(context: Context, site: Site, j: nat, ok: bool)
    requires site.i + j + 1 <= |site.all| && Leaving(context, Site(site.before, site.all, site.i + j), 1, ok)
    ensures Leaving(context, site, j + 1, ok)
    ensures !ok ==> forall n :: 0 <= n <= |site.all| - site.i ==> Leaving(context, site, n, ok)
  {
  }

  lemma Done(context: Context, site: Site, n: nat, ok: bool)
    requires site.i + n <= |site.all| && (ok ==> site.i + n == |site.all|)
    requires Leaving(context, site, n, ok)
    ensures Scanned(context.func, context.currentFile, site.before, context.keys, ok, site.all)
  {
    assert site.all[..|site.all|] == site.all;
  }

  /** Visiting the children of a term is visiting the term. */
  lemma LeaveTerm(func: string, file: Option<string>, site: Site, k1: seq<Key>, k2: seq<Key>, ok: bool, t: Term)
    requires site.i < |site.all| && site.all[site.i] == t
    requires Scanned(func, file, site.before, k1, true, site.all[..site.i])
    requires Scanned(func, file, k1, k2, ok, [t])
    ensures Scanned(func, file, site.before, k2, ok, if ok then site.all[..site.i + 1] else site.all)
  {
    hide Scanned;
    ScannedThen(func, file, site.before, k1, k2, ok, site.all[..site.i], [t]);
    assert site.all[..site.i] + [t] == site.all[..site.i + 1];
    if !ok {
      ScannedShort(func, file, site.before, k2, site.all[..site.i + 1], site.all[site.i + 1..]);
      assert site.all[..site.i + 1] + site.all[site.i + 1..] == site.all;
    }
  }

  /** A term that is not a call is scanned with its children. */
  lemma ScannedTerm(func: string, file: Option<string>, k1: seq<Key>, k2: seq<Key>, ok: bool, t: Term)
    requires !t.CallTerm? && Scanned(func, file, k1, k2, ok, Children(t))
    ensures Scanned(func, file, k1, k2, ok, [t])
  {
    hide KeysOf, HasBadCall, Children;
    CallsCons(t, []);
    assert [t] + [] == [t];
    NoCalls();
    assert Calls([t]) == Calls(Children(t));
  }

  /** A call of the translation function without a literal key ends the scan there and then. */
  lemma ScannedBadCall(func: string, file: Option<string>, k: seq<Key>, call: Call)
    requires IsTranslation(func, call) && FirstText(call).None?
    ensures Scanned(func, file, k, k, false, [CallTerm(call)])
  {
    CallsCons(CallTerm(call), []);
    assert [CallTerm(call)] + [] == [CallTerm(call)];
    assert Calls([CallTerm(call)])[0] == call;
  }

  /** Any other call is recorded if it is a translation, then its parts are scanned. */
  lemma ScannedCall(func: string, file: Option<string>, k: seq<Key>, k1: seq<Key>, k2: seq<Key>, ok: bool, call: Call)
    requires IsTranslation(func, call) ==> FirstText(call).Some? && k1 == k + [KeyOf(call, file)]
    requires !IsTranslation(func, call) ==> k1 == k
    requires Scanned(func, file, k1, k2, ok, Children(CallTerm(call)))
    ensures Scanned(func, file, k, k2, ok, [CallTerm(call)])
  {
    hide Children;
    var parts := Calls(Children(CallTerm(call)));
    CallsCons(CallTerm(call), []);
    assert [CallTerm(call)] + [] == [CallTerm(call)];
    NoCalls();
    assert Calls([CallTerm(call)]) == [call] + parts;
    KeysOfAppend(func, file, [call], parts);
    assert [call][1..] == [];
    BadCallCons(func, [call]);
  }

  lemma NothingScanned(func: string, file: Option<string>, k: seq<Key>)
    ensures Scanned(func, file, k, k, true, [])
  {
  }

  lemma {:induction false} SizeOfElement(es: seq<Expr>, j: nat)
    requires j < |es|
    ensures SizeExpr(es[j]) <= SizeExprs(es)
  {
    if j > 0 { SizeOfElement(es[1..], j - 1); }
  }

  lemma {:induction false} SizeOfStmtElement(ss: seq<Stmt>, j: nat)
    requires j < |ss|
    ensures SizeStmt(ss[j]) <= SizeStmts(ss)
  {
    if j > 0 { SizeOfStmtElement(ss[1..], j - 1); }
  }

  lemma {:induction false} SizeOfArgElement(cs: seq<CallArg>, j: nat)
    requires j < |cs|
    ensures SizeArg(cs[j]) <= SizeArgs(cs)
  {
    if j > 0 { SizeOfArgElement(cs[1..], j - 1); }
  }

  lemma {:induction false} SizeOfAssignment(xs: seq<Assignment>, j: nat)
    requires j < |xs|
    ensures SizeExpr(xs[j].left) + SizeExpr(xs[j].right) < SizeAssignments(xs)
  {
    if j > 0 { SizeOfAssignment(xs[1..], j - 1); }
  }

  lemma {:induction false} SizeOfName(ns: seq<ImportedName>, j: nat)
    requires j < |ns|
    ensures SizeExpr(ns[j].name) + SizeOptional(ns[j].alias) < SizeNames(ns)
  {
    if j > 0 { SizeOfName(ns[1..], j - 1); }
  }

  lemma Parts(a: seq<Term>, b: seq<Term>, c: seq<Term>)
    ensures (a + b + c)[0..|a|] == a
    ensures (a + b + c)[|a|..|a| + |b|] == b
    ensures (a + b + c)[|a| + |b|..|a| + |b| + |c|] == c
  {
  }

  ghost predicate Cut3(all: seq<Term>, a: seq<Term>, b: seq<Term>, c: seq<Term>) {
    && |all| == |a| + |b| + |c| && all[0..|a|] == a
    && all[|a|..|a| + |b|] == b && all[|a| + |b|..|a| + |b| + |c|] == c
  }

  ghost predicate Cut4(all: seq<Term>, a: seq<Term>, b: seq<Term>, c: seq<Term>, d: seq<Term>) {
    && |all| == |a| + |b| + |c| + |d| && all[0..|a|] == a
    && all[|a|..|a| + |b|] == b && all[|a| + |b|..|a| + |b| + |c|] == c
    && all[|a| + |b| + |c|..|a| + |b| + |c| + |d|] == d
  }

  lemma PartsOfMacro(m: Macro)
    ensures Cut3(Children(MacroTerm(m)), Stmts(m.body), Exprs(m.args), Exprs(m.defaults))
    ensures SizeMacro(m) == 1 + SizeExprs(m.args) + SizeExprs(m.defaults) + SizeStmts(m.body)
  {
    hide Stmts, Exprs, SizeExprs, SizeStmts;
    Parts(Stmts(m.body), Exprs(m.args), Exprs(m.defaults));
  }

  lemma PartsOfIfCond(stmt: Stmt)
    requires stmt.IfCond?
    ensures Cut3(Children(StmtTerm(stmt)), [ExprTerm(stmt.cond)], Stmts(stmt.trueBody), Stmts(stmt.falseBody))
    ensures SizeStmt(stmt) == 1 + SizeExpr(stmt.cond) + SizeStmts(stmt.trueBody) + SizeStmts(stmt.falseBody)
  {
    hide Stmts, SizeExpr, SizeStmts;
    Parts([ExprTerm(stmt.cond)], Stmts(stmt.trueBody), Stmts(stmt.falseBody));
  }

  lemma PartsOfSetBlock(stmt: Stmt)
    requires stmt.SetBlock?
    ensures Cut3(Children(StmtTerm(stmt)), [ExprTerm(stmt.target)], Stmts(stmt.body), Optional(stmt.filter))
    ensures SizeStmt(stmt) == 1 + SizeExpr(stmt.target) + SizeOptional(stmt.filter) + SizeStmts(stmt.body)
  {
    hide Stmts, Optional, SizeExpr, SizeStmts, SizeOptional;
    Parts([ExprTerm(stmt.target)], Stmts(stmt.body), Optional(stmt.filter));
  }

  lemma PartsOfSlice(e: Expr)
    requires e.Slice?
    ensures Cut4(Children(ExprTerm(e)), [ExprTerm(e.expr)], Optional(e.start), Optional(e.stop), Optional(e.step))
    ensures SizeExpr(e) == 1 + SizeExpr(e.expr) + SizeOptional(e.start) + SizeOptional(e.stop) + SizeOptional(e.step)
  {
    hide Optional, SizeOptional;
    var all := [ExprTerm(e.expr)] + Optional(e.start) + Optional(e.stop) + Optional(e.step);
    MoreParts([ExprTerm(e.expr)], Optional(e.start), Optional(e.stop), Optional(e.step), []);
    assert all + [] == all;
  }

  lemma MoreParts(a: seq<Term>, b: seq<Term>, c: seq<Term>, d: seq<Term>, e: seq<Term>)
    ensures var all := a + b + c + d + e;
      && all[0..|a|] == a
      && all[|a|..|a| + |b|] == b
      && all[|a| + |b|..|a| + |b| + |c|] == c
      && all[|a| + |b| + |c|..|a| + |b| + |c| + |d|] == d
      && all[|a| + |b| + |c| + |d|..|a| + |b| + |c| + |d| + |e|] == e
  {
    Parts(a + b + c, d, e);
    Parts(a, b, c);
    var all, head := a + b + c + d + e, a + b + c;
    assert forall i, j :: 0 <= i <= j <= |head| ==> all[i..j] == head[i..j];
  }

  method FindInExpr(context: Context, expr: Expr, ghost site: Site) returns (ok: bool)
    requires Arriving(context, site, [ExprTerm(expr)])
    modifies context`keys
    ensures Leaving(context, site, 1, ok)
    decreases SizeExpr(expr), 1
  {
    hide Scanned, Children;
    ghost var t, k1 := ExprTerm(expr), context.keys;
    ok := FindInExprChildren(context, expr);
    ScannedTerm(context.func, context.currentFile, k1, context.keys, ok, t);
    assert site.all[site.i] == site.all[site.i..site.i + 1][0];
    LeaveTerm(context.func, context.currentFile, site, k1, context.keys, ok, t);
  }

  method FindInExprChildren(context: Context, expr: Expr) returns (ok: bool)
    modifies context`keys
    ensures Scanned(context.func, context.currentFile, old(context.keys), context.keys, ok, Children(ExprTerm(expr)))
    decreases SizeExpr(expr), 0
  {
    NothingScanned(context.func, context.currentFile, context.keys);
    ok := true;
    assert expr.Var? || expr.Const? ==> Children(ExprTerm(expr)) == [];
    hide Scanned, Children;
    match expr {
      case Var(_) =>
      case Const(_) =>
      case Slice(_, _, _, _) =>
        ok := FindInSlice(context, expr);
      case Compare(_, _) =>
        ok := FindInCompare(context, expr);
      case Filter(_, _) =>
        ok := FindInFilter(context, expr);
      case Test(_, _) =>
        ok := FindInTest(context, expr);
      case CallExpr(_) =>
        ok := FindInCallExpr(context, expr);
      case List(_) =>
        ok := FindInList(context, expr);
      case Map(_, _) =>
        ok := FindInMap(context, expr);
      case _ =>
        ok := FindInOperands(context, expr);
    }
  }

  method FindInCallExpr(context: Context, expr: Expr) returns (ok: bool)
    requires expr.CallExpr?
    modifies context`keys
    ensures Scanned(context.func, context.currentFile, old(context.keys), context.keys, ok, Children(ExprTerm(expr)))
    decreases SizeExpr(expr), 0, 0
  {
    ghost var k, all := context.keys, Children(ExprTerm(expr));
    NothingScanned(context.func, context.currentFile, k);
    hide Scanned;
    ok := FindInCall(context, expr.call, Site(k, all, 0));
    assert all[..|all|] == all;
  }

  method FindInList(context: Context, expr: Expr) returns (ok: bool)
    requires expr.List?
    modifies context`keys
    ensures Scanned(context.func, context.currentFile, old(context.keys), context.keys, ok, Children(ExprTerm(expr)))
    decreases SizeExpr(expr), 0, 0
  {
    ghost var k, all := context.keys, Children(ExprTerm(expr));
    NothingScanned(context.func, context.currentFile, k);
    hide Scanned, Exprs;
    ok := FindInExprs(context, expr.items, Site(k, all, 0));
    assert all[..|all|] == all;
  }

  method FindInMap(context: Context, expr: Expr) returns (ok: bool)
    requires expr.Map?
    modifies context`keys
    ensures Scanned(context.func, context.currentFile, old(context.keys), context.keys, ok, Children(ExprTerm(expr)))
    decreases SizeExpr(expr), 0, 0
  {
    ghost var k := context.keys;
    ghost var all := Exprs(expr.keys) + Exprs(expr.values);
    assert Children(ExprTerm(expr)) == all;
    assert SizeExpr(expr) == 1 + SizeExprs(expr.keys) + SizeExprs(expr.values);
    Parts(Exprs(expr.keys), Exprs(expr.values), []);
    assert all + [] == all;
    hide Scanned, Arriving, Leaving, Children, Exprs, SizeExpr, SizeExprs;
    Enter(context, all, Exprs(expr.keys));
    ok := FindInExprs(context, expr.keys, Site(k, all, 0));
    if !ok { Done(context, Site(k, all, 0), |expr.keys|, ok); return; }
    Onward(context, Site(k, all, 0), |expr.keys|, Exprs(expr.values));
    ok := FindInExprs(context, expr.values, Site(k, all, |expr.keys|));
    Done(context, Site(k, all, |expr.keys|), |expr.values|, ok);
  }

  method FindInCompare(context: Context, expr: Expr) returns (ok: bool)
    requires expr.Compare?
    modifies context`keys
    ensures Scanned(context.func, context.currentFile, old(context.keys), context.keys, ok, Children(ExprTerm(expr)))
    decreases SizeExpr(expr), 0, 0
  {
    ghost var k, head := context.keys, [ExprTerm(expr.expr)];
    ghost var all := head + Exprs(expr.ops);
    assert Children(ExprTerm(expr)) == all;
    assert SizeExpr(expr) == 1 + SizeExpr(expr.expr) + SizeExprs(expr.ops);
    Parts(head, Exprs(expr.ops), []);
    assert all + [] == all;
    hide Scanned, Arriving, Leaving, Children, Exprs, SizeExpr, SizeExprs;
    Enter(context, all, head);
    ok := FindInExpr(context, expr.expr, Site(k, all, 0));
    if !ok { Done(context, Site(k, all, 0), |head|, ok); return; }
    Onward(context, Site(k, all, 0), |head|, Exprs(expr.ops));
    ok := FindInExprs(context, expr.ops, Site(k, all, |head|));
    Done(context, Site(k, all, |head|), |expr.ops|, ok);
  }

  method FindInFilter(context: Context, expr: Expr) returns (ok: bool)
    requires expr.Filter?
    modifies context`keys
    ensures Scanned(context.func, context.currentFile, old(context.keys), context.keys, ok, Children(ExprTerm(expr)))
    decreases SizeExpr(expr), 0, 0
  {
    ghost var k, head := context.keys, Optional(expr.input);
    ghost var all := head + Args(expr.args);
    assert Children(ExprTerm(expr)) == all;
    assert SizeExpr(expr) == 1 + SizeOptional(expr.input) + SizeArgs(expr.args);
    Parts(head, Args(expr.args), []);
    assert all + [] == all;
    hide Scanned, Arriving, Leaving, Children, Args, Optional, SizeOptional, SizeExpr, SizeArgs;
    Enter(context, all, head);
    ok := FindInOptionalExpr(context, expr.input, Site(k, all, 0));
    if !ok { Done(context, Site(k, all, 0), |head|, ok); return; }
    Onward(context, Site(k, all, 0), |head|, Args(expr.args));
    ok := FindInCallArgs(context, expr.args, Site(k, all, |head|));
    Done(context, Site(k, all, |head|), |expr.args|, ok);
  }

  method FindInTest(context: Context, expr: Expr) returns (ok: bool)
    requires expr.Test?
    modifies context`keys
    ensures Scanned(context.func, context.currentFile, old(context.keys), context.keys, ok, Children(ExprTerm(expr)))
    decreases SizeExpr(expr), 0, 0
  {
    ghost var k, head := context.keys, [ExprTerm(expr.expr)];
    ghost var all := head + Args(expr.args);
    assert Children(ExprTerm(expr)) == all;
    assert SizeExpr(expr) == 1 + SizeExpr(expr.expr) + SizeArgs(expr.args);
    Parts(head, Args(expr.args), []);
    assert all + [] == all;
    hide Scanned, Arriving, Leaving, Children, Args, SizeExpr, SizeArgs;
    Enter(context, all, head);
    ok := FindInExpr(context, expr.expr, Site(k, all, 0));
    if !ok { Done(context, Site(k, all, 0), |head|, ok); return; }
    Onward(context, Site(k, all, 0), |head|, Args(expr.args));
    ok := FindInCallArgs(context, expr.args, Site(k, all, |head|));
    Done(context, Site(k, all, |head|), |expr.args|, ok);
  }

  predicate HasOperands(e: Expr) { e.UnaryOp? || e.BinOp? || e.IfExpr? || e.GetAttr? || e.GetItem? }

  /** The expressions with a fixed number of operands. */
  method FindInOperands(context: Context, expr: Expr) returns (ok: bool)
    requires HasOperands(expr)
    modifies context`keys
    ensures Scanned(context.func, context.currentFile, old(context.keys), context.keys, ok, Children(ExprTerm(expr)))
    decreases SizeExpr(expr), 0, 0
  {
    ghost var k := context.keys;
    ghost var all := Children(ExprTerm(expr));
    NothingScanned(context.func, context.currentFile, k);
    hide Scanned, Stmts, Exprs, Args, Assignments, Names;
    match expr {
      case UnaryOp(x) =>
        ok := FindInExpr(context, x, Site(k, all, 0));
      case BinOp(left, right) =>
        ok := FindInExpr(context, left, Site(k, all, 0));
        if ok { ok := FindInExpr(context, right, Site(k, all, 1)); }
      case IfExpr(test, trueExpr, falseExpr) =>
        ok := FindInExpr(context, test, Site(k, all, 0));
        if ok { ok := FindInExpr(context, trueExpr, Site(k, all, 1)); }
        if ok { ok := FindInOptionalExpr(context, falseExpr, Site(k, all, 2)); }
      case GetAttr(x) =>
        ok := FindInExpr(context, x, Site(k, all, 0));
      case GetItem(x, subscript) =>
        ok := FindInExpr(context, x, Site(k, all, 0));
        if ok { ok := FindInExpr(context, subscript, Site(k, all, 1)); }
    }
    assert all[..|all|] == all;
  }

  method FindInSlice(context: Context, expr: Expr) returns (ok: bool)
    requires expr.Slice?
    modifies context`keys
    ensures Scanned(context.func, context.currentFile, old(context.keys), context.keys, ok, Children(ExprTerm(expr)))
    decreases SizeExpr(expr), 0, 0
  {
    hide Scanned, Arriving, Leaving, Children, Optional, SizeExpr, SizeOptional;
    PartsOfSlice(expr);
    ghost var k, all := context.keys, Children(ExprTerm(expr));
    ghost var start, stop, step := Optional(expr.start), Optional(expr.stop), Optional(expr.step);
    ghost var i1, i2 := 1 + |start|, 1 + |start| + |stop|;
    Enter(context, all, [ExprTerm(expr.expr)]);
    ok := FindInExpr(context, expr.expr, Site(k, all, 0));
    if !ok { Done(context, Site(k, all, 0), 1, ok); return; }
    Onward(context, Site(k, all, 0), 1, start);
    ok := FindInOptionalExpr(context, expr.start, Site(k, all, 1));
    if !ok { Done(context, Site(k, all, 1), |start|, ok); return; }
    Onward(context, Site(k, all, 1), |start|, stop);
    ok := FindInOptionalExpr(context, expr.stop, Site(k, all, i1));
    if !ok { Done(context, Site(k, all, i1), |stop|, ok); return; }
    Onward(context, Site(k, all, i1), |stop|, step);
    ok := FindInOptionalExpr(context, expr.step, Site(k, all, i2));
    Done(context, Site(k, all, i2), |step|, ok);
  }

  method FindInOptionalExpr(context: Context, expr: Option<Expr>, ghost site: Site) returns (ok: bool)
    requires Arriving(context, site, Optional(expr))
    modifies context`keys
    ensures Leaving(context, site, |Optional(expr)|, ok)
    decreases SizeOptional(expr), 2
  {
    hide Scanned, Stmts, Exprs, Args, Assignments, Names;
    ok := true;
    if expr.Some? {
      ok := FindInExpr(context, expr.value, site);
    }
  }

  method FindInExprs(context: Context, exprs: seq<Expr>, ghost site: Site) returns (ok: bool)
    requires Arriving(context, site, Exprs(exprs))
    modifies context`keys
    ensures Leaving(context, site, |exprs|, ok)
    decreases SizeExprs(exprs), 2
  {
    hide Scanned, Arriving, Leaving, InPlace, Exprs, SizeExprs;
    Start(context, site, Exprs(exprs));
    ok := true;
    var j := 0;
    while j < |exprs|
      invariant 0 <= j <= |exprs| && site.i + |exprs| <= |site.all|
      invariant Leaving(context, site, j, true)
    {
      SizeOfElement(exprs, j);
      Element(context, site, Exprs(exprs), j);
      ok := FindInExpr(context, exprs[j], Site(site.before, site.all, site.i + j));
      Passed(context, site, j, ok);
      if !ok { return; }
      j := j + 1;
    }
  }

  method FindInCallArg(context: Context, arg: CallArg, ghost site: Site) returns (ok: bool)
    requires Arriving(context, site, [ArgTerm(arg)])
    modifies context`keys
    ensures Leaving(context, site, 1, ok)
    decreases SizeArg(arg), 1
  {
    ghost var t, k1 := ArgTerm(arg), context.keys;
    ghost var all := Children(t);
    NothingScanned(context.func, context.currentFile, k1);
    hide Scanned, Stmts, Exprs, Args, Assignments, Names;
    ok := FindInExpr(context, arg.expr, Site(k1, all, 0));
    assert all[..1] == all;
    ScannedTerm(context.func, context.currentFile, k1, context.keys, ok, t);
    assert site.all[site.i] == site.all[site.i..site.i + 1][0];
    LeaveTerm(context.func, context.currentFile, site, k1, context.keys, ok, t);
  }

  method FindInCallArgs(context: Context, args: seq<CallArg>, ghost site: Site) returns (ok: bool)
    requires Arriving(context, site, Args(args))
    modifies context`keys
    ensures Leaving(context, site, |args|, ok)
    decreases SizeArgs(args), 2
  {
    hide Scanned, Arriving, Leaving, InPlace, Args, SizeArgs;
    Start(context, site, Args(args));
    ok := true;
    var j := 0;
    while j < |args|
      invariant 0 <= j <= |args| && site.i + |args| <= |site.all|
      invariant Leaving(context, site, j, true)
    {
      SizeOfArgElement(args, j);
      Element(context, site, Args(args), j);
      ok := FindInCallArg(context, args[j], Site(site.before, site.all, site.i + j));
      Passed(context, site, j, ok);
      if !ok { return; }
      j := j + 1;
    }
  }

  method FindInCall(context: Context, call: Call, ghost site: Site) returns (ok: bool)
    requires Arriving(context, site, [CallTerm(call)])
    modifies context`keys
    ensures Leaving(context, site, 1, ok)
    decreases SizeCall(call), 1
  {
    hide Scanned, Children;
    ghost var t, k := CallTerm(call), context.keys;
    assert site.all[site.i] == site.all[site.i..site.i + 1][0];
    if call.expr.Var? && call.expr.id == context.func {
      var text := FirstText(call);
      if text.None? {
        ScannedBadCall(context.func, context.currentFile, k, call);
        LeaveTerm(context.func, context.currentFile, site, k, k, false, t);
        return false;
      }
      var key := Key(if HasCount(call) then PluralKind else MessageKind, text.value, None);
      context.Record(context.SetKeyLocation(key, call.span));
    }
    ghost var k1 := context.keys;
    ok := FindInCallParts(context, call);
    ScannedCall(context.func, context.currentFile, k, k1, context.keys, ok, call);
    LeaveTerm(context.func, context.currentFile, site, k, context.keys, ok, t);
  }

  method FindInCallParts(context: Context, call: Call) returns (ok: bool)
    modifies context`keys
    ensures Scanned(context.func, context.currentFile, old(context.keys), context.keys, ok, Children(CallTerm(call)))
    decreases SizeCall(call), 0
  {
    ghost var k := context.keys;
    ghost var all := Children(CallTerm(call));
    NothingScanned(context.func, context.currentFile, k);
    hide Scanned, Stmts, Exprs, Args, Assignments, Names;
    ok := FindInExpr(context, call.expr, Site(k, all, 0));
    if ok { ok := FindInCallArgs(context, call.args, Site(k, all, 1)); }
    assert all[..|all|] == all;
  }

  method FindInMacro(context: Context, macro: Macro, ghost site: Site) returns (ok: bool)
    requires Arriving(context, site, [MacroTerm(macro)])
    modifies context`keys
    ensures Leaving(context, site, 1, ok)
    decreases SizeMacro(macro), 1
  {
    hide Scanned, Children;
    ghost var t, k1 := MacroTerm(macro), context.keys;
    ok := FindInMacroParts(context, macro);
    ScannedTerm(context.func, context.currentFile, k1, context.keys, ok, t);
    assert site.all[site.i] == site.all[site.i..site.i + 1][0];
    LeaveTerm(context.func, context.currentFile, site, k1, context.keys, ok, t);
  }

  method FindInMacroParts(context: Context, macro: Macro) returns (ok: bool)
    modifies context`keys
    ensures Scanned(context.func, context.currentFile, old(context.keys), context.keys, ok, Children(MacroTerm(macro)))
    decreases SizeMacro(macro), 0
  {
    hide Scanned, Arriving, Leaving, Children, Stmts, Exprs, SizeMacro, SizeExprs, SizeStmts;
    PartsOfMacro(macro);
    ghost var k, all := context.keys, Children(MacroTerm(macro));
    ghost var i1, i2 := |macro.body|, |macro.body| + |macro.args|;
    Enter(context, all, Stmts(macro.body));
    ok := FindInStmts(context, macro.body, Site(k, all, 0));
    if !ok { Done(context, Site(k, all, 0), i1, ok); return; }
    Onward(context, Site(k, all, 0), i1, Exprs(macro.args));
    ok := FindInExprs(context, macro.args, Site(k, all, i1));
    if !ok { Done(context, Site(k, all, i1), |macro.args|, ok); return; }
    Onward(context, Site(k, all, i1), |macro.args|, Exprs(macro.defaults));
    ok := FindInExprs(context, macro.defaults, Site(k, all, i2));
    Done(context, Site(k, all, i2), |macro.defaults|, ok);
  }

  /** The loop over the pairs of a `with` block. */
  method FindInAssignments(context: Context, assignments: seq<Assignment>, ghost site: Site) returns (ok: bool)
    requires Arriving(context, site, Assignments(assignments))
    modifies context`keys
    ensures Leaving(context, site, |assignments|, ok)
    decreases SizeAssignments(assignments), 2
  {
    hide Scanned, Arriving, Leaving, InPlace, Assignments, SizeAssignments;
    Start(context, site, Assignments(assignments));
    ok := true;
    var j := 0;
    while j < |assignments|
      invariant 0 <= j <= |assignments| && site.i + |assignments| <= |site.all|
      invariant Leaving(context, site, j, true)
    {
      SizeOfAssignment(assignments, j);
      Element(context, site, Assignments(assignments), j);
      ok := FindInAssignment(context, assignments[j], Site(site.before, site.all, site.i + j));
      Passed(context, site, j, ok);
      if !ok { return; }
      j := j + 1;
    }
  }

  method FindInAssignment(context: Context, assignment: Assignment, ghost site: Site) returns (ok: bool)
    requires Arriving(context, site, [AssignmentTerm(assignment)])
    modifies context`keys
    ensures Leaving(context, site, 1, ok)
    decreases SizeExpr(assignment.left) + SizeExpr(assignment.right), 2
  {
    ghost var t, k1 := AssignmentTerm(assignment), context.keys;
    ghost var all := Children(t);
    NothingScanned(context.func, context.currentFile, k1);
    assert site.all[site.i] == site.all[site.i..site.i + 1][0];
    assert all == [ExprTerm(assignment.left), ExprTerm(assignment.right)];
    hide Scanned, SizeExpr, Children;
    ok := FindInExpr(context, assignment.left, Site(k1, all, 0));
    if ok { ok := FindInExpr(context, assignment.right, Site(k1, all, 1)); }
    assert all[..2] == all;
    ScannedTerm(context.func, context.currentFile, k1, context.keys, ok, t);
    LeaveTerm(context.func, context.currentFile, site, k1, context.keys, ok, t);
  }

  /** The loop over the names of a `from ... import`. */
  method FindInNames(context: Context, names: seq<ImportedName>, ghost site: Site) returns (ok: bool)
    requires Arriving(context, site, Names(names))
    modifies context`keys
    ensures Leaving(context, site, |names|, ok)
    decreases SizeNames(names), 2
  {
    hide Scanned, Arriving, Leaving, InPlace, Names, SizeNames;
    Start(context, site, Names(names));
    ok := true;
    var j := 0;
    while j < |names|
      invariant 0 <= j <= |names| && site.i + |names| <= |site.all|
      invariant Leaving(context, site, j, true)
    {
      SizeOfName(names, j);
      Element(context, site, Names(names), j);
      ok := FindInName(context, names[j], Site(site.before, site.all, site.i + j));
      Passed(context, site, j, ok);
      if !ok { return; }
      j := j + 1;
    }
  }

  method FindInName(context: Context, imported: ImportedName, ghost site: Site) returns (ok: bool)
    requires Arriving(context, site, [NameTerm(imported)])
    modifies context`keys
    ensures Leaving(context, site, 1, ok)
    decreases SizeExpr(imported.name) + SizeOptional(imported.alias), 3
  {
    ghost var t, k1 := NameTerm(imported), context.keys;
    ghost var all := [ExprTerm(imported.name)] + Optional(imported.alias);
    assert Children(t) == all;
    NothingScanned(context.func, context.currentFile, k1);
    assert site.all[site.i] == site.all[site.i..site.i + 1][0];
    Parts([ExprTerm(imported.name)], Optional(imported.alias), []);
    assert all + [] == all;
    hide Scanned, Children, Optional, SizeExpr, SizeOptional;
    ok := FindInExpr(context, imported.name, Site(k1, all, 0));
    if ok { ok := FindInOptionalExpr(context, imported.alias, Site(k1, all, 1)); }
    assert all[..|all|] == all;
    ScannedTerm(context.func, context.currentFile, k1, context.keys, ok, t);
    LeaveTerm(context.func, context.currentFile, site, k1, context.keys, ok, t);
  }

  method FindInStmts(context: Context, stmts: seq<Stmt>, ghost site: Site) returns (ok: bool)
    requires Arriving(context, site, Stmts(stmts))
    modifies context`keys
    ensures Leaving(context, site, |stmts|, ok)
    decreases SizeStmts(stmts), 2
  {
    hide Scanned, Arriving, Leaving, InPlace, Stmts, SizeStmts;
    Start(context, site, Stmts(stmts));
    ok := true;
    var j := 0;
    while j < |stmts|
      invariant 0 <= j <= |stmts| && site.i + |stmts| <= |site.all|
      invariant Leaving(context, site, j, true)
    {
      SizeOfStmtElement(stmts, j);
      Element(context, site, Stmts(stmts), j);
      ok := FindInStmt(context, stmts[j], Site(site.before, site.all, site.i + j));
      Passed(context, site, j, ok);
      if !ok { return; }
      j := j + 1;
    }
  }

  method FindInStmt(context: Context, stmt: Stmt, ghost site: Site) returns (ok: bool)
    requires Arriving(context, site, [StmtTerm(stmt)])
    modifies context`keys
    ensures Leaving(context, site, 1, ok)
    decreases SizeStmt(stmt), 1
  {
    hide Scanned, Children;
    ghost var t, k1 := StmtTerm(stmt), context.keys;
    ok := FindInStmtChildren(context, stmt);
    ScannedTerm(context.func, context.currentFile, k1, context.keys, ok, t);
    assert site.all[site.i] == site.all[site.i..site.i + 1][0];
    LeaveTerm(context.func, context.currentFile, site, k1, context.keys, ok, t);
  }

  method FindInStmtChildren(context: Context, stmt: Stmt) returns (ok: bool)
    modifies context`keys
    ensures Scanned(context.func, context.currentFile, old(context.keys), context.keys, ok, Children(StmtTerm(stmt)))
    decreases SizeStmt(stmt), 0
  {
    NothingScanned(context.func, context.currentFile, context.keys);
    ok := true;
    assert stmt.EmitRaw? ==> Children(StmtTerm(stmt)) == [];
    hide Scanned, Children;
    match stmt {
      case EmitRaw =>
      case ForLoop(_, _, _, _, _) =>
        ok := FindInForLoop(context, stmt);
      case Template(_) =>
        ok := FindInBody(context, stmt);
      case Block(_) =>
        ok := FindInBody(context, stmt);
      case EmitExpr(_) =>
        ok := FindInHeaded(context, stmt);
      case AutoEscape(_, _) =>
        ok := FindInHeaded(context, stmt);
      case FilterBlock(_, _) =>
        ok := FindInHeaded(context, stmt);
      case IfCond(_, _, _) =>
        ok := FindInIfCond(context, stmt);
      case WithBlock(_, _) =>
        ok := FindInWithBlock(context, stmt);
      case SetBlock(_, _, _) =>
        ok := FindInSetBlock(context, stmt);
      case MacroStmt(_) =>
        ok := FindInCallingStmt(context, stmt);
      case CallBlock(_, _) =>
        ok := FindInCallingStmt(context, stmt);
      case Do(_) =>
        ok := FindInCallingStmt(context, stmt);
      case _ =>
        ok := FindInSimpleStmt(context, stmt);
    }
  }

  /** Statements that are nothing but a body. */
  method FindInBody(context: Context, stmt: Stmt) returns (ok: bool)
    requires stmt.Template? || stmt.Block?
    modifies context`keys
    ensures Scanned(context.func, context.currentFile, old(context.keys), context.keys, ok, Children(StmtTerm(stmt)))
    decreases SizeStmt(stmt), 0, 0
  {
    ghost var k, all := context.keys, Children(StmtTerm(stmt));
    NothingScanned(context.func, context.currentFile, k);
    hide Scanned, Stmts;
    ok := FindInStmts(context, if stmt.Template? then stmt.children else stmt.body, Site(k, all, 0));
    assert all[..|all|] == all;
  }

  /** Statements that are an expression and perhaps a body. */
  method FindInHeaded(context: Context, stmt: Stmt) returns (ok: bool)
    requires stmt.EmitExpr? || stmt.AutoEscape? || stmt.FilterBlock?
    modifies context`keys
    ensures Scanned(context.func, context.currentFile, old(context.keys), context.keys, ok, Children(StmtTerm(stmt)))
    decreases SizeStmt(stmt), 0, 0
  {
    ghost var k, all := context.keys, Children(StmtTerm(stmt));
    NothingScanned(context.func, context.currentFile, k);
    hide Scanned, Stmts;
    var head := if stmt.EmitExpr? then stmt.expr else if stmt.AutoEscape? then stmt.enabled else stmt.filterExpr;
    ok := FindInExpr(context, head, Site(k, all, 0));
    if ok && !stmt.EmitExpr? { ok := FindInStmts(context, stmt.body, Site(k, all, 1)); }
    assert all[..|all|] == all;
  }

  method FindInIfCond(context: Context, stmt: Stmt) returns (ok: bool)
    requires stmt.IfCond?
    modifies context`keys
    ensures Scanned(context.func, context.currentFile, old(context.keys), context.keys, ok, Children(StmtTerm(stmt)))
    decreases SizeStmt(stmt), 0, 0
  {
    hide Scanned, Arriving, Leaving, Children, Stmts, SizeStmt, SizeStmts, SizeExpr;
    PartsOfIfCond(stmt);
    ghost var k, all := context.keys, Children(StmtTerm(stmt));
    Enter(context, all, [ExprTerm(stmt.cond)]);
    ok := FindInExpr(context, stmt.cond, Site(k, all, 0));
    if !ok { Done(context, Site(k, all, 0), 1, ok); return; }
    Onward(context, Site(k, all, 0), 1, Stmts(stmt.trueBody));
    ok := FindInStmts(context, stmt.trueBody, Site(k, all, 1));
    if !ok { Done(context, Site(k, all, 1), |stmt.trueBody|, ok); return; }
    Onward(context, Site(k, all, 1), |stmt.trueBody|, Stmts(stmt.falseBody));
    ok := FindInStmts(context, stmt.falseBody, Site(k, all, 1 + |stmt.trueBody|));
    Done(context, Site(k, all, 1 + |stmt.trueBody|), |stmt.falseBody|, ok);
  }

  method FindInWithBlock(context: Context, stmt: Stmt) returns (ok: bool)
    requires stmt.WithBlock?
    modifies context`keys
    ensures Scanned(context.func, context.currentFile, old(context.keys), context.keys, ok, Children(StmtTerm(stmt)))
    decreases SizeStmt(stmt), 0, 0
  {
    ghost var k := context.keys;
    ghost var all := Stmts(stmt.body) + Assignments(stmt.assignments) + [];
    assert Children(StmtTerm(stmt)) == all;
    NothingScanned(context.func, context.currentFile, k);
    Parts(Stmts(stmt.body), Assignments(stmt.assignments), []);
    assert SizeStmt(stmt) == 1 + SizeAssignments(stmt.assignments) + SizeStmts(stmt.body);
    hide Scanned, Children, Stmts, Assignments, SizeStmt, SizeStmts, SizeExpr, SizeAssignments;
    ok := FindInStmts(context, stmt.body, Site(k, all, 0));
    if ok { ok := FindInAssignments(context, stmt.assignments, Site(k, all, |stmt.body|)); }
    assert all[..|all|] == all;
  }

  method FindInSetBlock(context: Context, stmt: Stmt) returns (ok: bool)
    requires stmt.SetBlock?
    modifies context`keys
    ensures Scanned(context.func, context.currentFile, old(context.keys), context.keys, ok, Children(StmtTerm(stmt)))
    decreases SizeStmt(stmt), 0, 0
  {
    hide Scanned, Arriving, Leaving, Children, Stmts, Optional, SizeStmt, SizeStmts, SizeExpr, SizeOptional;
    PartsOfSetBlock(stmt);
    ghost var k, all := context.keys, Children(StmtTerm(stmt));
    Enter(context, all, [ExprTerm(stmt.target)]);
    ok := FindInExpr(context, stmt.target, Site(k, all, 0));
    if !ok { Done(context, Site(k, all, 0), 1, ok); return; }
    Onward(context, Site(k, all, 0), 1, Stmts(stmt.body));
    ok := FindInStmts(context, stmt.body, Site(k, all, 1));
    if !ok { Done(context, Site(k, all, 1), |stmt.body|, ok); return; }
    Onward(context, Site(k, all, 1), |stmt.body|, Optional(stmt.filter));
    ok := FindInOptionalExpr(context, stmt.filter, Site(k, all, 1 + |stmt.body|));
    Done(context, Site(k, all, 1 + |stmt.body|), |Optional(stmt.filter)|, ok);
  }

  predicate IsSimple(s: Stmt) { s.SetStmt? || s.Import? || s.FromImport? || s.Extends? || s.Include? }

  /** The statements made of expressions. */
  method FindInSimpleStmt(context: Context, stmt: Stmt) returns (ok: bool)
    requires IsSimple(stmt)
    modifies context`keys
    ensures Scanned(context.func, context.currentFile, old(context.keys), context.keys, ok, Children(StmtTerm(stmt)))
    decreases SizeStmt(stmt), 0, 0
  {
    ghost var k := context.keys;
    ghost var all := Children(StmtTerm(stmt));
    NothingScanned(context.func, context.currentFile, k);
    hide Scanned, Names;
    match stmt {
      case SetStmt(target, e) =>
        ok := FindInExpr(context, target, Site(k, all, 0));
        if ok { ok := FindInExpr(context, e, Site(k, all, 1)); }
      case Import(e, name) =>
        ok := FindInExpr(context, name, Site(k, all, 0));
        if ok { ok := FindInExpr(context, e, Site(k, all, 1)); }
      case FromImport(e, names) =>
        ok := FindInExpr(context, e, Site(k, all, 0));
        if ok { ok := FindInNames(context, names, Site(k, all, 1)); }
      case Extends(name) =>
        ok := FindInExpr(context, name, Site(k, all, 0));
      case Include(name) =>
        ok := FindInExpr(context, name, Site(k, all, 0));
    }
    assert all[..|all|] == all;
  }

  predicate IsCalling(s: Stmt) { s.MacroStmt? || s.CallBlock? || s.Do? }

  /** The statements made of calls and macros. */
  method FindInCallingStmt(context: Context, stmt: Stmt) returns (ok: bool)
    requires IsCalling(stmt)
    modifies context`keys
    ensures Scanned(context.func, context.currentFile, old(context.keys), context.keys, ok, Children(StmtTerm(stmt)))
    decreases SizeStmt(stmt), 0, 0
  {
    ghost var k := context.keys;
    ghost var all := Children(StmtTerm(stmt));
    NothingScanned(context.func, context.currentFile, k);
    hide Scanned;
    match stmt {
      case MacroStmt(m) =>
        ok := FindInMacro(context, m, Site(k, all, 0));
      case CallBlock(call, m) =>
        ok := FindInCall(context, call, Site(k, all, 0));
        if ok { ok := FindInMacro(context, m, Site(k, all, 1)); }
      case Do(call) =>
        ok := FindInCall(context, call, Site(k, all, 0));
    }
    assert all[..|all|] == all;
  }

  ghost predicate ForLoopParts(stmt: Stmt, all: seq<Term>)
    requires stmt.ForLoop?
  {
    var i1, i2 := 1 + |Optional(stmt.filter)|, 2 + |Optional(stmt.filter)| + |stmt.body|;
    && |all| == i2 + |stmt.elseBody|
    && all[0..1] == [ExprTerm(stmt.iter)]
    && all[1..i1] == Optional(stmt.filter)
    && all[i1..i1 + 1] == [ExprTerm(stmt.target)]
    && all[i1 + 1..i2] == Stmts(stmt.body)
    && all[i2..i2 + |stmt.elseBody|] == Stmts(stmt.elseBody)
  }

  lemma PartsOfForLoop(stmt: Stmt)
    requires stmt.ForLoop?
    ensures ForLoopParts(stmt, Children(StmtTerm(stmt)))
    ensures SizeStmt(stmt) == 1 + SizeExpr(stmt.target) + SizeExpr(stmt.iter) + SizeOptional(stmt.filter)
                              + SizeStmts(stmt.body) + SizeStmts(stmt.elseBody)
  {
    hide Stmts, Optional;
    MoreParts([ExprTerm(stmt.iter)], Optional(stmt.filter), [ExprTerm(stmt.target)], Stmts(stmt.body),
              Stmts(stmt.elseBody));
  }

  method FindInForLoop(context: Context, stmt: Stmt) returns (ok: bool)
    requires stmt.ForLoop?
    modifies context`keys
    ensures Scanned(context.func, context.currentFile, old(context.keys), context.keys, ok, Children(StmtTerm(stmt)))
    decreases SizeStmt(stmt), 0, 0
  {
    hide Scanned, Arriving, Leaving, Children, Stmts, Optional, SizeStmt, SizeStmts, SizeExpr, SizeOptional;
    PartsOfForLoop(stmt);
    ghost var k, all := context.keys, Children(StmtTerm(stmt));
    ghost var filter, body, elseBody := Optional(stmt.filter), Stmts(stmt.body), Stmts(stmt.elseBody);
    ghost var i1, i2 := 1 + |filter|, 2 + |filter| + |stmt.body|;
    Enter(context, all, [ExprTerm(stmt.iter)]);
    ok := FindInExpr(context, stmt.iter, Site(k, all, 0));
    if !ok { Done(context, Site(k, all, 0), 1, ok); return; }
    Onward(context, Site(k, all, 0), 1, filter);
    ok := FindInOptionalExpr(context, stmt.filter, Site(k, all, 1));
    if !ok { Done(context, Site(k, all, 1), |filter|, ok); return; }
    Onward(context, Site(k, all, 1), |filter|, [ExprTerm(stmt.target)]);
    ok := FindInExpr(context, stmt.target, Site(k, all, i1));
    if !ok { Done(context, Site(k, all, i1), 1, ok); return; }
    Onward(context, Site(k, all, i1), 1, body);
    ok := FindInStmts(context, stmt.body, Site(k, all, i1 + 1));
    if !ok { Done(context, Site(k, all, i1 + 1), |stmt.body|, ok); return; }
    Onward(context, Site(k, all, i1 + 1), |stmt.body|, elseBody);
    ok := FindInStmts(context, stmt.elseBody, Site(k, all, i2));
    Done(context, Site(k, all, i2), |stmt.elseBody|, ok);
  }

  /** Scanning a whole template. */
  method ScanTemplate(context: Context, template: Stmt) returns (ok: bool)
    modifies context`keys
    ensures Scanned(context.func, context.currentFile, old(context.keys), context.keys, ok, [StmtTerm(template)])
    ensures ok <==> AllSpelt(context.func, [StmtTerm(template)])
    ensures ok ==> Exact(context.func, context.currentFile, old(context.keys), context.keys, [StmtTerm(template)])
  {
    NothingScanned(context.func, context.currentFile, context.keys);
    hide Scanned, Stmts, Exprs, Args, Assignments, Names, AllSpelt, Exact;
    ghost var all := [StmtTerm(template)];
    ok := FindInStmt(context, template, Site(context.keys, all, 0));
    assert all[..1] == all;
    ScanIsExact(context.func, context.currentFile, old(context.keys), context.keys, ok, all);
  }

  predicate TranslationAt(func: string, ts: seq<Term>, p: Position) {
    CallAt(ts, p) && TermAt(ts, p).value.call.expr == Var(func)
  }

  /** The first argument of the call is positional and this text. */
  predicate Spells(c: Call, text: string) { c.args != [] && c.args[0] == Pos(Const(StringConst(text))) }

  /** The positions of the translation calls among the given ones, in order. */
  function Translations(func: string, ts: seq<Term>, ps: seq<Position>): (r: seq<Position>)
    ensures forall p :: p in r <==> p in ps && TranslationAt(func, ts, p)
  {
    if ps == [] then []
    else (if TranslationAt(func, ts, ps[0]) then [ps[0]] else []) + Translations(func, ts, ps[1..])
  }

  /** `key` is what is to be recorded for the call at position `p`: the text of its first argument, a
      plural if and only if some keyword argument is called "count", and where it stands in the file. */
  ghost predicate KeyAt(ts: seq<Term>, p: Position, file: Option<string>, key: Key) {
    && CallAt(ts, p)
    && var c := TermAt(ts, p).value.call;
      && Spells(c, key.name)
      && (key.kind == PluralKind <==> exists j :: 0 <= j < |c.args| && c.args[j].Kwarg? && c.args[j].name == "count")
      && key.location == (if file.Some? then Some(Location(file.value, c.span)) else None)
  }

  /** Beside `before`, the keys are those of the calls of the translation function, one for each. */
  ghost predicate Exact(func: string, file: Option<string>, before: seq<Key>, after: seq<Key>, ts: seq<Term>) {
    exists ps ::
      && NoRepeat(ps)
      && (forall p :: p in ps <==> TranslationAt(func, ts, p))
      && |after| == |before| + |ps| && after[..|before|] == before
      && forall i :: 0 <= i < |ps| ==> KeyAt(ts, ps[i], file, after[|before| + i])
  }

  /** Every call of the translation function has a literal key. */
  ghost predicate AllSpelt(func: string, ts: seq<Term>) {
    forall p :: TranslationAt(func, ts, p) ==> exists text :: Spells(TermAt(ts, p).value.call, text)
  }

  /** The scan is complete and exact. It succeeds if and only if every call of the translation
      function, at whatever depth, has a literal key; and then it records the key of each such call
      once, as a plural if and only if a `count` keyword is present. */
  lemma ScanIsExact(func: string, file: Option<string>, before: seq<Key>, after: seq<Key>, ok: bool, ts: seq<Term>)
    requires Scanned(func, file, before, after, ok, ts)
    ensures ok <==> AllSpelt(func, ts)
    ensures ok ==> Exact(func, file, before, after, ts)
  {
    hide TermAt, CallPositions, Calls, KeysOf, HasBadCall, Located, NoRepeat, FirstText, Translations, KeyAt, AllSpelt;
    var all, calls := CallPositions(ts), Calls(ts);
    CallsAreAllCalls(ts);
    BadCallSomewhere(func, ts, all, calls);
    if ok {
      var ps := Translations(func, ts, all);
      KeysAtPositions(func, file, ts, all, calls);
      assert forall p :: TranslationAt(func, ts, p) ==> p in all;
      assert forall p :: p in ps <==> TranslationAt(func, ts, p);
    }
  }

  lemma FirstTextSpells(c: Call)
    ensures FirstText(c).Some? ==> Spells(c, FirstText(c).value)
    ensures forall text :: Spells(c, text) ==> FirstText(c) == Some(text)
  {
  }

  lemma BadCallSomewhere(func: string, ts: seq<Term>, all: seq<Position>, calls: seq<Call>)
    requires Pairs(ts, all, calls)
    ensures !HasBadCall(func, calls) <==> AllSpelt(func, ts)
  {
    hide TermAt, FirstText, Spells;
    if HasBadCall(func, calls) {
      var i :| 0 <= i < |calls| && IsTranslation(func, calls[i]) && FirstText(calls[i]).None?;
      assert TranslationAt(func, ts, all[i]);
      FirstTextSpells(calls[i]);
    } else {
      forall p | TranslationAt(func, ts, p) ensures exists text :: Spells(TermAt(ts, p).value.call, text) {
        assert p in all;
        var i :| 0 <= i < |all| && all[i] == p;
        assert TermAt(ts, all[i]) == Some(CallTerm(calls[i]));
        FirstTextSpells(calls[i]);
        assert Spells(calls[i], FirstText(calls[i]).value);
      }
    }
  }

  lemma {:induction false} KeysAtPositions(func: string, file: Option<string>, ts: seq<Term>, ps: seq<Position>,
                                           calls: seq<Call>)
    requires Located(ts, ps, calls) && NoRepeat(ps) && !HasBadCall(func, calls)
    ensures var qs := Translations(func, ts, ps);
      && NoRepeat(qs) && |KeysOf(func, file, calls)| == |qs|
      && forall i :: 0 <= i < |qs| ==>
           KeyAt(ts, qs[i], file, KeysOf(func, file, calls)[i])
  {
    hide TermAt, HasBadCall, FirstText, KeyOf, KeyAt;
    if ps != [] {
      assert Located(ts, ps[1..], calls[1..]);
      BadCallCons(func, calls);
      KeysAtPositions(func, file, ts, ps[1..], calls[1..]);
      FirstKey(func, file, ts, ps[0], calls[0]);
      assert ps[0] !in ps[1..];
    }
  }

  lemma FirstKey(func: string, file: Option<string>, ts: seq<Term>, p: Position, call: Call)
    requires p != [] && TermAt(ts, p) == Some(CallTerm(call))
    requires IsTranslation(func, call) ==> FirstText(call).Some?
    ensures TranslationAt(func, ts, p) <==> IsTranslation(func, call)
    ensures IsTranslation(func, call) ==> KeyAt(ts, p, file, KeyOf(call, file))
  {
    hide TermAt, FirstText;
    FirstTextSpells(call);
  }
}
