/**
 The filter for calls in constantly false branches (src/drivers/libraries/Irql.qll:1021-1048),
 and an interpreter of structured C that it is sound for.

 The interpreter covers assignments, compound assignments, increments, reads and writes through
 pointers, address-of, loops, early exits, declarations inside loops, and (recursive) calls.
 Variables are identified per function; each object of the program is one memory cell.
 */
module DeadBranch {
  import opened Wrappers

  datatype Var = Auto(id: nat) | Static(id: nat) | Param(id: nat) | Global(id: nat)

  datatype Op = Plus | Minus | Or | And | Equal | Less

  datatype Expr =
    | Lit(n: int)
    | Access(v: Var)
    | AddressOf(v: Var)
    | Deref(e: Expr)
    | Binary(op: Op, a: Expr, b: Expr)
    | Assign(v: Var, e: Expr)
    | Compound(v: Var, op: Op, e: Expr)
    | Crement(v: Var, delta: int)
    | Store(target: Expr, e: Expr)
    | Call(site: nat, callee: nat, args: Args)

  datatype Args = NoArgs | Arg(e: Expr, rest: Args)

  datatype Stmt =
    | Skip
    | Eval(e: Expr)
    | Declare(v: Var, init: Option<Expr>)
    | Seq(a: Stmt, b: Stmt)
    | Block(s: Stmt)
    | If(cond: Expr, thn: Stmt, els: Stmt)
    | While(cond: Expr, body: Stmt)
    | Break
    | Return(e: Expr)

  datatype Function = Function(params: seq<nat>, body: Stmt)

  datatype Program = Program(functions: map<nat, Function>, globals: map<Var, nat>)

  // ----- the filter -----

  /** The value of a compile-time constant. */
  function ConstValue(e: Expr): Option<int> {
    match e
    case Lit(n) => Some(n)
    case Binary(op, a, b) =>
      var x, y := ConstValue(a), ConstValue(b);
      if x.Some? && y.Some? then Some(Apply(op, x.value, y.value)) else None
    case _ => None
  }

  /** Some assignment, compound assignment or increment has `v` as target, or `v` has its address taken. */
  predicate Mutates(e: Expr, v: Var) {
    match e
    case Lit(_) => false
    case Access(_) => false
    case AddressOf(w) => w == v
    case Deref(e) => Mutates(e, v)
    case Binary(_, a, b) => Mutates(a, v) || Mutates(b, v)
    case Assign(w, e) => w == v || Mutates(e, v)
    case Compound(w, _, e) => w == v || Mutates(e, v)
    case Crement(w, _) => w == v
    case Store(t, e) => Mutates(t, v) || Mutates(e, v)
    case Call(_, _, args) => ArgsMutate(args, v)
  }

  predicate ArgsMutate(args: Args, v: Var) {
    match args
    case NoArgs => false
    case Arg(e, rest) => Mutates(e, v) || ArgsMutate(rest, v)
  }

  predicate BodyMutates(s: Stmt, v: Var) {
    match s
    case Skip => false
    case Break => false
    case Eval(e) => Mutates(e, v)
    case Declare(_, init) => init.Some? && Mutates(init.value, v)
    case Seq(a, b) => BodyMutates(a, v) || BodyMutates(b, v)
    case Block(s) => BodyMutates(s, v)
    case If(c, t, e) => Mutates(c, v) || BodyMutates(t, v) || BodyMutates(e, v)
    case While(c, b) => Mutates(c, v) || BodyMutates(b, v)
    case Return(e) => Mutates(e, v)
  }

  /** Every declaration of `v` initialises it with a constant 0. */
  predicate ZeroInitialised(s: Stmt, v: Var) {
    match s
    case Declare(w, init) => w == v ==> init.Some? && ConstValue(init.value) == Some(0)
    case Seq(a, b) => ZeroInitialised(a, v) && ZeroInitialised(b, v)
    case Block(s) => ZeroInitialised(s, v)
    case If(_, t, e) => ZeroInitialised(t, v) && ZeroInitialised(e, v)
    case While(_, b) => ZeroInitialised(b, v)
    case _ => true
  }

  predicate Declares(s: Stmt, v: Var) {
    match s
    case Declare(w, _) => w == v
    case Seq(a, b) => Declares(a, v) || Declares(b, v)
    case Block(s) => Declares(s, v)
    case If(_, t, e) => Declares(t, v) || Declares(e, v)
    case While(_, b) => Declares(b, v)
    case _ => false
  }

  /** A non-static local variable that starts as 0 and is never changed. */
  predicate StaysFalse(body: Stmt, v: Var) {
    v.Auto? && Declares(body, v) && ZeroInitialised(body, v) && !BodyMutates(body, v)
  }

  predicate ConstantFalse(body: Stmt, cond: Expr) {
    ConstValue(cond) == Some(0) || (cond.Access? && StaysFalse(body, cond.v))
  }

  /** How often each call site occurs. */
  function Sites(e: Expr): multiset<nat> {
    match e
    case Lit(_) => multiset{}
    case Access(_) => multiset{}
    case AddressOf(_) => multiset{}
    case Crement(_, _) => multiset{}
    case Deref(e) => Sites(e)
    case Binary(_, a, b) => Sites(a) + Sites(b)
    case Assign(_, e) => Sites(e)
    case Compound(_, _, e) => Sites(e)
    case Store(t, e) => Sites(t) + Sites(e)
    case Call(site, _, args) => multiset{site} + ArgSites(args)
  }

  function ArgSites(args: Args): multiset<nat> {
    match args
    case NoArgs => multiset{}
    case Arg(e, rest) => Sites(e) + ArgSites(rest)
  }

  function BodySites(s: Stmt): multiset<nat> {
    match s
    case Skip => multiset{}
    case Break => multiset{}
    case Eval(e) => Sites(e)
    case Declare(_, init) => if init.Some? then Sites(init.value) else multiset{}
    case Seq(a, b) => BodySites(a) + BodySites(b)
    case Block(s) => BodySites(s)
    case If(c, t, e) => Sites(c) + BodySites(t) + BodySites(e)
    case While(c, b) => Sites(c) + BodySites(b)
    case Return(e) => Sites(e)
  }

  /** Call `site` lies in the then-branch of a constantly false `if` within `s`, a part of `body`. */
  predicate InFalseBranch(body: Stmt, s: Stmt, site: nat) {
    match s
    case Seq(a, b) => InFalseBranch(body, a, site) || InFalseBranch(body, b, site)
    case Block(s) => InFalseBranch(body, s, site)
    case If(c, t, e) =>
      || (ConstantFalse(body, c) && site in BodySites(t))
      || InFalseBranch(body, t, site) || InFalseBranch(body, e, site)
    case While(_, b) => InFalseBranch(body, b, site)
    case _ => false
  }

  predicate IsInConstantFalseBranch(p: Program, site: nat) {
    exists f :: f in p.functions && InFalseBranch(p.functions[f].body, p.functions[f].body, site)
  }

  // ----- the interpreter -----

  datatype Value = Int(n: int) | Ptr(cell: nat)

  /** What a function without a body does when it is called: its result and what it writes. */
  datatype Response = Response(result: Value, writes: map<nat, Value>)

  /** `input` feeds whatever the program cannot determine; `trace` lists the calls executed. */
  datatype State = State(mem: map<nat, Value>, env: map<Var, nat>, next: nat, input: seq<Response>, trace: seq<nat>)

  /** `ok` is false when the run stops here: out of fuel or input, or undefined behaviour. */
  datatype Out = Out(st: State, v: Value, ok: bool)

  datatype Outs = Outs(st: State, vs: seq<Value>, ok: bool)

  datatype Flow = Next | Broke | Returned(v: Value) | Stopped

  datatype After = After(st: State, flow: Flow)

  function Apply(op: Op, x: int, y: int): int {
    match op
    case Plus => x + y
    case Minus => x - y
    case Or => if x != 0 || y != 0 then 1 else 0
    case And => if x != 0 && y != 0 then 1 else 0
    case Equal => if x == y then 1 else 0
    case Less => if x < y then 1 else 0
  }

  predicate Truth(v: Value) { v != Int(0) }

  function Stop(s: State): Out { Out(s, Int(0), false) }

  function CellOf(p: Program, s: State, v: Var): Option<nat> {
    if v in s.env then Some(s.env[v])
    else if v in p.globals && (v.Global? || v.Static?) then Some(p.globals[v])
    else None
  }

  function ReadVar(p: Program, s: State, v: Var): Out {
    var c := CellOf(p, s, v);
    if c.Some? && c.value in s.mem then Out(s, s.mem[c.value], true) else Stop(s)
  }

  function WriteVar(p: Program, s: State, v: Var, val: Value): Out {
    var c := CellOf(p, s, v);
    if c.Some? then Out(s.(mem := s.mem[c.value := val]), val, true) else Stop(s)
  }

  function Update(p: Program, v: Var, r: Out): Out {
    if r.ok then WriteVar(p, r.st, v, r.v) else r
  }

  function Allocate(s: State, v: Var, val: Value): State {
    s.(mem := s.mem[s.next := val], env := s.env[v := s.next], next := s.next + 1)
  }

  function Bind(s: State, params: seq<nat>, vals: seq<Value>): State
    decreases |params|
  {
    if params == [] then s
    else Bind(Allocate(s, Param(params[0]), if vals == [] then Int(0) else vals[0]),
              params[1..], if vals == [] then [] else vals[1..])
  }

  /** The cells that some pointer reaches: an argument, a pointer in memory, or the address of a global. */
  function Exposed(p: Program, s: State, vals: seq<Value>): set<nat> {
    (set a | a in s.mem && s.mem[a].Ptr? :: s.mem[a].cell)
    + (set v | v in p.globals :: p.globals[v])
    + (set v | v in vals && v.Ptr? :: v.cell)
  }

  predicate Possible(exposed: set<nat>, v: Value) { v.Ptr? ==> v.cell in exposed }

  /** A call of a function without a body: it writes to exposed cells, and returns, integers and exposed addresses. */
  function External(p: Program, s: State, vals: seq<Value>): Out {
    if s.input == [] then Stop(s)
    else
      var r, exposed := s.input[0], Exposed(p, s, vals);
      var written := map a | a in r.writes && a in exposed && Possible(exposed, r.writes[a]) :: r.writes[a];
      var result := if Possible(exposed, r.result) then r.result else Int(0);
      Out(s.(mem := s.mem + written, input := s.input[1..]), result, true)
  }

  /** The value of a variable declared without initialiser. */
  function Undefined(s: State): Out {
    if s.input == [] then Stop(s)
    else Out(s.(input := s.input[1..]), if s.input[0].result.Int? then s.input[0].result else Int(0), true)
  }

  /**
   An object is one cell, so stepping a pointer stays in its object; what comparing and subtracting
   addresses yields is left to the input.
   */
  function Operate(s: State, op: Op, x: Value, y: Value): Out {
    if x.Int? && y.Int? then Out(s, Int(Apply(op, x.n, y.n)), true)
    else if op == And then Out(s, Int(if Truth(x) && Truth(y) then 1 else 0), true)
    else if op == Or then Out(s, Int(if Truth(x) || Truth(y) then 1 else 0), true)
    else if op in {Plus, Minus} && x.Ptr? != y.Ptr? then Out(s, if x.Ptr? then x else y, true)
    else if op == Equal && Int(0) in {x, y} then Out(s, Int(0), true)
    else Undefined(s)
  }

  /** The left operand alone decides, so that the right one is not evaluated. */
  predicate Decides(op: Op, x: Value) { (op == And && !Truth(x)) || (op == Or && Truth(x)) }

  function EvalExpr(p: Program, fuel: nat, e: Expr, s: State): Out
    decreases fuel, 1, e, 1
  {
    match e
    case Lit(n) => Out(s, Int(n), true)
    case Access(v) => ReadVar(p, s, v)
    case AddressOf(v) =>
      var c := CellOf(p, s, v);
      if c.Some? then Out(s, Ptr(c.value), true) else Stop(s)
    case Deref(e) =>
      var r := EvalExpr(p, fuel, e, s);
      if r.ok && r.v.Ptr? && r.v.cell in r.st.mem then Out(r.st, r.st.mem[r.v.cell], true) else Stop(r.st)
    case Binary(op, a, b) =>
      var x := EvalExpr(p, fuel, a, s);
      if !x.ok then x
      else if Decides(op, x.v) then Out(x.st, Int(if op == And then 0 else 1), true)
      else
        var y := EvalExpr(p, fuel, b, x.st);
        if y.ok then Operate(y.st, op, x.v, y.v) else y
    case Assign(v, e) =>
      var r := EvalExpr(p, fuel, e, s);
      if r.ok then WriteVar(p, r.st, v, r.v) else r
    case Compound(v, op, e) =>
      var r := EvalExpr(p, fuel, e, s);
      if !r.ok then r
      else
        var was := ReadVar(p, r.st, v);
        if was.ok then Update(p, v, Operate(r.st, op, was.v, r.v)) else was
    case Crement(v, delta) =>
      var was := ReadVar(p, s, v);
      if was.ok then Update(p, v, Operate(s, Plus, was.v, Int(delta))) else was
    case Store(t, e) =>
      var r := EvalExpr(p, fuel, t, s);
      if !r.ok then r
      else
        var w := EvalExpr(p, fuel, e, r.st);
        if w.ok && r.v.Ptr? && r.v.cell in w.st.mem
        then Out(w.st.(mem := w.st.mem[r.v.cell := w.v]), w.v, true)
        else Stop(w.st)
    case Call(site, callee, args) =>
      var r := EvalArgs(p, fuel, args, s);
      if r.ok then RunCall(p, fuel, callee, r.vs, r.st.(trace := r.st.trace + [site])) else Stop(r.st)
  }

  function EvalArgs(p: Program, fuel: nat, args: Args, s: State): Outs
    decreases fuel, 1, args, 1
  {
    match args
    case NoArgs => Outs(s, [], true)
    case Arg(e, rest) =>
      var r := EvalExpr(p, fuel, e, s);
      if !r.ok then Outs(r.st, [], false)
      else
        var rs := EvalArgs(p, fuel, rest, r.st);
        Outs(rs.st, [r.v] + rs.vs, rs.ok)
  }

  function RunCall(p: Program, fuel: nat, callee: nat, vals: seq<Value>, s: State): Out
    decreases fuel, 0
  {
    if callee !in p.functions then External(p, s, vals)
    else if fuel == 0 then Stop(s)
    else
      var f := p.functions[callee];
      var r := Exec(p, fuel - 1, f.body, Bind(s.(env := map[]), f.params, vals));
      Out(r.st.(env := s.env), if r.flow.Returned? then r.flow.v else Int(0), r.flow != Stopped)
  }

  function Exec(p: Program, fuel: nat, c: Stmt, s: State): After
    decreases fuel, 1, c, 1
  {
    match c
    case Skip => After(s, Next)
    case Break => After(s, Broke)
    case Eval(e) =>
      var r := EvalExpr(p, fuel, e, s);
      After(r.st, if r.ok then Next else Stopped)
    case Declare(v, init) =>
      if !v.Auto? then After(s, Next)
      else
        var r := if init.Some? then EvalExpr(p, fuel, init.value, s) else Undefined(s);
        if r.ok then After(Allocate(r.st, v, r.v), Next) else After(r.st, Stopped)
    case Seq(a, b) =>
      var r := Exec(p, fuel, a, s);
      if r.flow == Next then Exec(p, fuel, b, r.st) else r
    case Block(c) =>
      var r := Exec(p, fuel, c, s);
      After(r.st.(env := s.env), r.flow)
    case If(c, t, e) =>
      var r := EvalExpr(p, fuel, c, s);
      if !r.ok then After(r.st, Stopped)
      else if Truth(r.v) then Exec(p, fuel, t, r.st)
      else Exec(p, fuel, e, r.st)
    case While(c, b) => RunLoop(p, fuel, c, b, s)
    case Return(e) =>
      var r := EvalExpr(p, fuel, e, s);
      After(r.st, if r.ok then Returned(r.v) else Stopped)
  }

  function RunLoop(p: Program, fuel: nat, c: Expr, b: Stmt, s: State): After
    decreases fuel, 1, While(c, b), 0
  {
    var r := EvalExpr(p, fuel, c, s);
    if !r.ok then After(r.st, Stopped)
    else if !Truth(r.v) then After(r.st, Next)
    else
      var q := Exec(p, fuel, b, r.st);
      var out := After(q.st.(env := s.env), q.flow);
      if q.flow == Broke then out.(flow := Next)
      else if q.flow != Next then out
      else if fuel == 0 then out.(flow := Stopped)
      else RunLoop(p, fuel - 1, c, b, out.st)
  }

  /** A run of the program: any first function and arguments, any input, any contents of memory. */
  ghost predicate Initial(p: Program, s: State) {
    && s.env == map[] && s.trace == []
    && (forall a :: a in s.mem ==> a < s.next && SafeValue({}, s.next, s.mem[a]))
    && (forall v :: v in p.globals ==> p.globals[v] < s.next)
  }

  // ----- soundness -----

  /** Call `site` lies in `s` outside the then-branches of constantly false `if`s. */
  predicate Live(body: Stmt, s: Stmt, site: nat) {
    match s
    case Seq(a, b) => Live(body, a, site) || Live(body, b, site)
    case Block(s) => Live(body, s, site)
    case If(c, t, e) => site in Sites(c) || (!ConstantFalse(body, c) && Live(body, t, site)) || Live(body, e, site)
    case While(c, b) => site in Sites(c) || Live(body, b, site)
    case _ => site in BodySites(s)
  }

  predicate LiveIn(p: Program, site: nat) {
    exists f :: f in p.functions && Live(p.functions[f].body, p.functions[f].body, site)
  }

  /** Every call site occurs once in the program. */
  ghost predicate DistinctSites(p: Program) {
    && (forall f, site :: f in p.functions ==> BodySites(p.functions[f].body)[site] <= 1)
    && (forall f, g, site :: f in p.functions && g in p.functions
          && site in BodySites(p.functions[f].body) && site in BodySites(p.functions[g].body)
          ==> f == g)
  }

  /** `zeros` are cells that hold 0 and that no pointer reaches. */
  ghost predicate Safe(p: Program, zeros: set<nat>, s: State) {
    && (forall a :: a in zeros ==> a < s.next && a in s.mem && s.mem[a] == Int(0))
    && (forall a :: a in s.mem ==> SafeValue(zeros, s.next, s.mem[a]))
    && (forall v :: v in p.globals ==> p.globals[v] < s.next && p.globals[v] !in zeros)
    && (forall x :: x in s.trace ==> LiveIn(p, x))
  }

  ghost predicate SafeValue(zeros: set<nat>, next: nat, v: Value) {
    v.Ptr? ==> v.cell < next && v.cell !in zeros
  }

  /** The cells of the frame's unchanging variables, and only they, are among `zeros`. */
  ghost predicate SafeFrame(body: Stmt, zeros: set<nat>, s: State) {
    forall v :: v in s.env ==> s.env[v] < s.next && (s.env[v] in zeros <==> StaysFalse(body, v))
  }

  ghost predicate ExprIn(p: Program, body: Stmt, e: Expr) {
    && (forall v :: StaysFalse(body, v) ==> !Mutates(e, v))
    && (forall x :: x in Sites(e) ==> LiveIn(p, x))
  }

  ghost predicate ArgsIn(p: Program, body: Stmt, args: Args) {
    && (forall v :: StaysFalse(body, v) ==> !ArgsMutate(args, v))
    && (forall x :: x in ArgSites(args) ==> LiveIn(p, x))
  }

  ghost predicate StmtIn(p: Program, body: Stmt, c: Stmt) {
    && (forall v :: StaysFalse(body, v) ==> !BodyMutates(c, v) && ZeroInitialised(c, v))
    && (forall x :: Live(body, c, x) ==> LiveIn(p, x))
  }

  /** What evaluation keeps: the zeros, the frame and the bound on addresses. */
  ghost predicate Keeps(p: Program, zeros: set<nat>, s: State, t: State) {
    Safe(p, zeros, t) && t.env == s.env && t.next >= s.next
  }

  lemma WriteKeeps(p: Program, body: Stmt, zeros: set<nat>, s: State, v: Var, val: Value)
    requires Safe(p, zeros, s) && SafeFrame(body, zeros, s) && SafeValue(zeros, s.next, val)
    requires !StaysFalse(body, v)
    ensures Keeps(p, zeros, s, WriteVar(p, s, v, val).st)
    ensures WriteVar(p, s, v, val).ok ==> WriteVar(p, s, v, val).v == val
  {
  }

  lemma ReadSafe(p: Program, zeros: set<nat>, s: State, v: Var)
    requires Safe(p, zeros, s)
    ensures ReadVar(p, s, v).st == s && SafeValue(zeros, s.next, ReadVar(p, s, v).v)
  {
  }

  lemma {:induction false} EvalSafe(p: Program, fuel: nat, e: Expr, body: Stmt, zeros: set<nat>, s: State)
    requires Safe(p, zeros, s) && SafeFrame(body, zeros, s) && ExprIn(p, body, e)
    ensures Keeps(p, zeros, s, EvalExpr(p, fuel, e, s).st)
    ensures SafeValue(zeros, EvalExpr(p, fuel, e, s).st.next, EvalExpr(p, fuel, e, s).v)
    decreases fuel, 1, e, 1
  {
    match e {
      case Lit(_) =>
      case Access(v) => ReadSafe(p, zeros, s, v);
      case AddressOf(v) =>
        assert !StaysFalse(body, v);
      case Deref(e1) =>
        EvalSafe(p, fuel, e1, body, zeros, s);
      case Binary(_, _, _) => EvalBinarySafe(p, fuel, e, body, zeros, s);
      case Assign(_, _) => EvalUpdateSafe(p, fuel, e, body, zeros, s);
      case Compound(_, _, _) => EvalUpdateSafe(p, fuel, e, body, zeros, s);
      case Crement(_, _) => EvalUpdateSafe(p, fuel, e, body, zeros, s);
      case Store(t, e1) => EvalStoreSafe(p, fuel, t, e1, body, zeros, s);
      case Call(site, callee, args) => EvalCallSafe(p, fuel, site, callee, args, body, zeros, s);
    }
  }

  lemma OperateSafe(p: Program, zeros: set<nat>, s: State, op: Op, x: Value, y: Value)
    requires Safe(p, zeros, s) && SafeValue(zeros, s.next, x) && SafeValue(zeros, s.next, y)
    ensures Keeps(p, zeros, s, Operate(s, op, x, y).st)
    ensures SafeValue(zeros, s.next, Operate(s, op, x, y).v) && Operate(s, op, x, y).st.next == s.next
  {
  }

  lemma UpdateSafe(p: Program, body: Stmt, zeros: set<nat>, s: State, v: Var, op: Op, x: Value, y: Value)
    requires Safe(p, zeros, s) && SafeFrame(body, zeros, s) && !StaysFalse(body, v)
    requires SafeValue(zeros, s.next, x) && SafeValue(zeros, s.next, y)
    ensures var r := Update(p, v, Operate(s, op, x, y)); Keeps(p, zeros, s, r.st) && SafeValue(zeros, r.st.next, r.v)
  {
    OperateSafe(p, zeros, s, op, x, y);
    var r := Operate(s, op, x, y);
    WriteKeeps(p, body, zeros, r.st, v, r.v);
  }

  lemma {:induction false} EvalBinarySafe(p: Program, fuel: nat, e: Expr, body: Stmt, zeros: set<nat>, s: State)
    requires Safe(p, zeros, s) && SafeFrame(body, zeros, s) && ExprIn(p, body, e) && e.Binary?
    ensures var r := EvalExpr(p, fuel, e, s); Keeps(p, zeros, s, r.st) && SafeValue(zeros, r.st.next, r.v)
    decreases fuel, 1, e, 0
  {
    BinaryParts(p, body, e);
    EvalSafe(p, fuel, e.a, body, zeros, s);
    var x := EvalExpr(p, fuel, e.a, s);
    if x.ok && !Decides(e.op, x.v) {
      EvalSafe(p, fuel, e.b, body, zeros, x.st);
      var y := EvalExpr(p, fuel, e.b, x.st);
      if y.ok {
        OperateSafe(p, zeros, y.st, e.op, x.v, y.v);
      }
    }
  }

  lemma BinaryParts(p: Program, body: Stmt, e: Expr)
    requires e.Binary? && ExprIn(p, body, e)
    ensures ExprIn(p, body, e.a) && ExprIn(p, body, e.b)
  {
    forall v | StaysFalse(body, v)
      ensures !Mutates(e.a, v) && !Mutates(e.b, v)
    {
      assert !Mutates(e, v);
    }
    forall x
      ensures x in Sites(e.a) || x in Sites(e.b) ==> LiveIn(p, x)
    {
      assert x in Sites(e) ==> LiveIn(p, x);
    }
  }

  /** Assignments of all sorts go to variables that are allowed to change. */
  lemma {:induction false} EvalUpdateSafe(p: Program, fuel: nat, e: Expr, body: Stmt, zeros: set<nat>, s: State)
    requires Safe(p, zeros, s) && SafeFrame(body, zeros, s) && ExprIn(p, body, e)
    requires e.Assign? || e.Compound? || e.Crement?
    ensures var r := EvalExpr(p, fuel, e, s); Keeps(p, zeros, s, r.st) && SafeValue(zeros, r.st.next, r.v)
    decreases fuel, 1, e, 0
  {
    assert !StaysFalse(body, e.v);
    match e {
      case Assign(v, e1) =>
        EvalSafe(p, fuel, e1, body, zeros, s);
        var r := EvalExpr(p, fuel, e1, s);
        WriteKeeps(p, body, zeros, r.st, v, r.v);
      case Compound(v, op, e1) =>
        EvalSafe(p, fuel, e1, body, zeros, s);
        var r := EvalExpr(p, fuel, e1, s);
        ReadSafe(p, zeros, r.st, v);
        if r.ok {
          UpdateSafe(p, body, zeros, r.st, v, op, ReadVar(p, r.st, v).v, r.v);
        }
      case Crement(v, delta) =>
        ReadSafe(p, zeros, s, v);
        UpdateSafe(p, body, zeros, s, v, Plus, ReadVar(p, s, v).v, Int(delta));
    }
  }

  lemma StoreParts(p: Program, body: Stmt, t: Expr, e: Expr)
    requires ExprIn(p, body, Store(t, e))
    ensures ExprIn(p, body, t) && ExprIn(p, body, e)
  {
    forall v | StaysFalse(body, v)
      ensures !Mutates(t, v) && !Mutates(e, v)
    {
      assert !Mutates(Store(t, e), v);
    }
    forall x
      ensures x in Sites(t) || x in Sites(e) ==> LiveIn(p, x)
    {
      assert x in Sites(Store(t, e)) ==> LiveIn(p, x);
    }
  }

  lemma {:induction false} EvalStoreSafe(p: Program, fuel: nat, t: Expr, e: Expr, body: Stmt, zeros: set<nat>, s: State)
    requires Safe(p, zeros, s) && SafeFrame(body, zeros, s) && ExprIn(p, body, Store(t, e))
    ensures var r := EvalExpr(p, fuel, Store(t, e), s); Keeps(p, zeros, s, r.st) && SafeValue(zeros, r.st.next, r.v)
    decreases fuel, 1, Store(t, e), 0
  {
    StoreParts(p, body, t, e);
    EvalSafe(p, fuel, t, body, zeros, s);
    EvalSafe(p, fuel, e, body, zeros, EvalExpr(p, fuel, t, s).st);
  }

  lemma {:induction false} EvalCallSafe(p: Program, fuel: nat, site: nat, callee: nat, args: Args, body: Stmt,
                                        zeros: set<nat>, s: State)
    requires Safe(p, zeros, s) && SafeFrame(body, zeros, s) && ExprIn(p, body, Call(site, callee, args))
    ensures var r := EvalExpr(p, fuel, Call(site, callee, args), s);
            Keeps(p, zeros, s, r.st) && SafeValue(zeros, r.st.next, r.v)
    decreases fuel, 1, Call(site, callee, args), 0
  {
    assert site in Sites(Call(site, callee, args));
    ArgsSafe(p, fuel, args, body, zeros, s);
    var r := EvalArgs(p, fuel, args, s);
    if r.ok {
      var called := r.st.(trace := r.st.trace + [site]);
      assert Safe(p, zeros, called);
      CallSafe(p, fuel, callee, r.vs, zeros, called);
    }
  }

  lemma {:induction false} ArgsSafe(p: Program, fuel: nat, args: Args, body: Stmt, zeros: set<nat>, s: State)
    requires Safe(p, zeros, s) && SafeFrame(body, zeros, s) && ArgsIn(p, body, args)
    ensures Keeps(p, zeros, s, EvalArgs(p, fuel, args, s).st)
    ensures forall v :: v in EvalArgs(p, fuel, args, s).vs ==> SafeValue(zeros, EvalArgs(p, fuel, args, s).st.next, v)
    decreases fuel, 1, args, 1
  {
    match args {
      case NoArgs =>
      case Arg(e, rest) =>
        EvalSafe(p, fuel, e, body, zeros, s);
        var r := EvalExpr(p, fuel, e, s);
        if r.ok {
          ArgsSafe(p, fuel, rest, body, zeros, r.st);
        }
    }
  }

  /** Binding parameters adds no zeros: a parameter is not a local variable. */
  lemma {:induction false} BindSafe(p: Program, body: Stmt, zeros: set<nat>, s: State, params: seq<nat>,
                                    vals: seq<Value>)
    requires Safe(p, zeros, s) && SafeFrame(body, zeros, s)
    requires forall v :: v in vals ==> SafeValue(zeros, s.next, v)
    ensures Safe(p, zeros, Bind(s, params, vals)) && SafeFrame(body, zeros, Bind(s, params, vals))
    ensures Bind(s, params, vals).next >= s.next
    decreases |params|
  {
    if params != [] {
      var val := if vals == [] then Int(0) else vals[0];
      var t := Allocate(s, Param(params[0]), val);
      assert vals != [] ==> vals[0] in vals && forall v :: v in vals[1..] ==> v in vals;
      BindSafe(p, body, zeros, t, params[1..], if vals == [] then [] else vals[1..]);
    }
  }

  /** No zero is exposed, so a function without a body leaves the zeros alone. */
  lemma ExternalSafe(p: Program, vals: seq<Value>, zeros: set<nat>, s: State)
    requires Safe(p, zeros, s)
    requires forall v :: v in vals ==> SafeValue(zeros, s.next, v)
    ensures Keeps(p, zeros, s, External(p, s, vals).st)
    ensures SafeValue(zeros, External(p, s, vals).st.next, External(p, s, vals).v)
  {
    assert forall a :: a in Exposed(p, s, vals) ==> a < s.next && a !in zeros;
  }

  lemma {:induction false} CallSafe(p: Program, fuel: nat, callee: nat, vals: seq<Value>, zeros: set<nat>, s: State)
    requires Safe(p, zeros, s)
    requires forall v :: v in vals ==> SafeValue(zeros, s.next, v)
    ensures Keeps(p, zeros, s, RunCall(p, fuel, callee, vals, s).st)
    ensures SafeValue(zeros, RunCall(p, fuel, callee, vals, s).st.next, RunCall(p, fuel, callee, vals, s).v)
    decreases fuel, 0
  {
    if callee !in p.functions {
      ExternalSafe(p, vals, zeros, s);
    } else if fuel > 0 {
      var f := p.functions[callee];
      var t := s.(env := map[]);
      BindSafe(p, f.body, zeros, t, f.params, vals);
      assert StmtIn(p, f.body, f.body);
      var more := ExecSafe(p, fuel - 1, f.body, f.body, zeros, Bind(t, f.params, vals));
    }
  }

  /** A constantly false condition evaluates to 0 if at all. */
  lemma FalseCondition(p: Program, fuel: nat, c: Expr, body: Stmt, zeros: set<nat>, s: State)
    requires Safe(p, zeros, s) && SafeFrame(body, zeros, s) && ConstantFalse(body, c)
    ensures EvalExpr(p, fuel, c, s).ok ==> EvalExpr(p, fuel, c, s).v == Int(0)
  {
    if ConstValue(c) == Some(0) {
      ConstEvaluates(p, fuel, c, s);
    }
  }

  lemma {:induction false} ConstEvaluates(p: Program, fuel: nat, c: Expr, s: State)
    requires ConstValue(c).Some?
    ensures EvalExpr(p, fuel, c, s) == Out(s, Int(ConstValue(c).value), true)
    decreases c
  {
    if c.Binary? {
      ConstEvaluates(p, fuel, c.a, s);
      ConstEvaluates(p, fuel, c.b, s);
    }
  }

  /** A declaration of an unchanging variable adds its cell to the zeros. */
  lemma DeclareSafe(p: Program, body: Stmt, zeros: set<nat>, s: State, v: Var, val: Value) returns (more: set<nat>)
    requires Safe(p, zeros, s) && SafeFrame(body, zeros, s) && SafeValue(zeros, s.next, val)
    requires StaysFalse(body, v) ==> val == Int(0)
    ensures zeros <= more && Safe(p, more, Allocate(s, v, val)) && SafeFrame(body, more, Allocate(s, v, val))
  {
    more := if StaysFalse(body, v) then zeros + {s.next} else zeros;
  }

  lemma FewerZeros(p: Program, zeros: set<nat>, more: set<nat>, s: State)
    requires zeros <= more && Safe(p, more, s)
    ensures Safe(p, zeros, s)
  {
  }

  /** What execution keeps, where `more` are the zeros afterwards. */
  ghost predicate ExecKeeps(p: Program, body: Stmt, zeros: set<nat>, more: set<nat>, s: State, r: After) {
    && zeros <= more
    && Safe(p, more, r.st) && SafeFrame(body, more, r.st)
    && r.st.next >= s.next
    && (r.flow.Returned? ==> SafeValue(more, r.st.next, r.flow.v))
  }

  lemma {:induction false} ExecSafe(p: Program, fuel: nat, c: Stmt, body: Stmt, zeros: set<nat>, s: State)
    returns (more: set<nat>)
    requires Safe(p, zeros, s) && SafeFrame(body, zeros, s) && StmtIn(p, body, c)
    ensures ExecKeeps(p, body, zeros, more, s, Exec(p, fuel, c, s))
    decreases fuel, 1, c, 1
  {
    more := zeros;
    match c {
      case Skip =>
      case Break =>
      case Eval(e) => EvalSafe(p, fuel, e, body, zeros, s);
      case Declare(_, _) => more := ExecDeclareSafe(p, fuel, c, body, zeros, s);
      case Seq(a, b) =>
        more := ExecSafe(p, fuel, a, body, zeros, s);
        var r := Exec(p, fuel, a, s);
        if r.flow == Next {
          more := ExecSafe(p, fuel, b, body, more, r.st);
        }
      case Block(c1) =>
        var inner := ExecSafe(p, fuel, c1, body, zeros, s);
        LeaveScope(p, body, zeros, inner, s, s, Exec(p, fuel, c1, s));
      case If(_, _, _) => more := ExecIfSafe(p, fuel, c, body, zeros, s);
      case While(cond, b) => LoopSafe(p, fuel, cond, b, body, zeros, s);
      case Return(e) => EvalSafe(p, fuel, e, body, zeros, s);
    }
  }

  lemma {:induction false} ExecDeclareSafe(p: Program, fuel: nat, c: Stmt, body: Stmt, zeros: set<nat>, s: State)
    returns (more: set<nat>)
    requires Safe(p, zeros, s) && SafeFrame(body, zeros, s) && StmtIn(p, body, c) && c.Declare?
    ensures ExecKeeps(p, body, zeros, more, s, Exec(p, fuel, c, s))
    decreases fuel, 1, c, 0
  {
    more := zeros;
    if c.v.Auto? {
      var r := if c.init.Some? then EvalExpr(p, fuel, c.init.value, s) else Undefined(s);
      if c.init.Some? {
        EvalSafe(p, fuel, c.init.value, body, zeros, s);
        if StaysFalse(body, c.v) {
          ConstEvaluates(p, fuel, c.init.value, s);
        }
      }
      if r.ok {
        more := DeclareSafe(p, body, zeros, r.st, c.v, r.v);
      }
    }
  }

  lemma {:induction false} ExecIfSafe(p: Program, fuel: nat, c: Stmt, body: Stmt, zeros: set<nat>, s: State)
    returns (more: set<nat>)
    requires Safe(p, zeros, s) && SafeFrame(body, zeros, s) && StmtIn(p, body, c) && c.If?
    ensures ExecKeeps(p, body, zeros, more, s, Exec(p, fuel, c, s))
    decreases fuel, 1, c, 0
  {
    more := zeros;
    EvalSafe(p, fuel, c.cond, body, zeros, s);
    var r := EvalExpr(p, fuel, c.cond, s);
    if ConstantFalse(body, c.cond) {
      FalseCondition(p, fuel, c.cond, body, zeros, s);
    }
    if r.ok && Truth(r.v) {
      more := ExecSafe(p, fuel, c.thn, body, zeros, r.st);
    } else if r.ok {
      more := ExecSafe(p, fuel, c.els, body, zeros, r.st);
    }
  }

  /** Leaving a block brings back the frame from before it, whose zeros are still zeros. */
  lemma LeaveScope(p: Program, body: Stmt, zeros: set<nat>, inner: set<nat>, before: State, start: State, r: After)
    requires SafeFrame(body, zeros, before) && start.env == before.env && start.next >= before.next
    requires ExecKeeps(p, body, zeros, inner, start, r)
    ensures ExecKeeps(p, body, zeros, zeros, before, r.(st := r.st.(env := before.env)))
  {
    FewerZeros(p, zeros, inner, r.st);
  }

  lemma {:induction false} LoopSafe(p: Program, fuel: nat, cond: Expr, b: Stmt, body: Stmt, zeros: set<nat>, s: State)
    requires Safe(p, zeros, s) && SafeFrame(body, zeros, s) && StmtIn(p, body, While(cond, b))
    ensures ExecKeeps(p, body, zeros, zeros, s, RunLoop(p, fuel, cond, b, s))
    decreases fuel, 1, While(cond, b), 0
  {
    LoopParts(p, cond, b, body);
    EvalSafe(p, fuel, cond, body, zeros, s);
    var r := EvalExpr(p, fuel, cond, s);
    if r.ok && Truth(r.v) {
      var inner := ExecSafe(p, fuel, b, body, zeros, r.st);
      var q := Exec(p, fuel, b, r.st);
      LeaveScope(p, body, zeros, inner, s, r.st, q);
      if q.flow == Next && fuel > 0 {
        LoopSafe(p, fuel - 1, cond, b, body, zeros, q.st.(env := s.env));
      }
    }
  }

  lemma LoopParts(p: Program, cond: Expr, b: Stmt, body: Stmt)
    requires StmtIn(p, body, While(cond, b))
    ensures ExprIn(p, body, cond) && StmtIn(p, body, b)
  {
    forall v | StaysFalse(body, v)
      ensures !Mutates(cond, v) && !BodyMutates(b, v) && ZeroInitialised(b, v)
    {
      assert !BodyMutates(While(cond, b), v) && ZeroInitialised(While(cond, b), v);
    }
    forall x
      ensures x in Sites(cond) || Live(body, b, x) ==> LiveIn(p, x)
    {
      assert Live(body, While(cond, b), x) ==> LiveIn(p, x);
    }
  }

  lemma {:induction false} LiveIsSite(body: Stmt, s: Stmt, site: nat)
    ensures Live(body, s, site) || InFalseBranch(body, s, site) ==> site in BodySites(s)
  {
    match s {
      case Seq(a, b) => LiveIsSite(body, a, site); LiveIsSite(body, b, site);
      case Block(c) => LiveIsSite(body, c, site);
      case If(_, t, e) => LiveIsSite(body, t, site); LiveIsSite(body, e, site);
      case While(_, b) => LiveIsSite(body, b, site);
      case _ =>
    }
  }

  /** A site that occurs once is not both live and in a constantly false branch. */
  lemma {:induction false} FalseBranchIsNotLive(body: Stmt, s: Stmt, site: nat)
    requires BodySites(s)[site] <= 1 && InFalseBranch(body, s, site)
    ensures !Live(body, s, site)
  {
    match s {
      case Seq(a, b) =>
        LiveIsSite(body, a, site);
        LiveIsSite(body, b, site);
        if InFalseBranch(body, a, site) {
          FalseBranchIsNotLive(body, a, site);
        } else {
          FalseBranchIsNotLive(body, b, site);
        }
      case Block(c) => FalseBranchIsNotLive(body, c, site);
      case If(c, t, e) =>
        LiveIsSite(body, t, site);
        LiveIsSite(body, e, site);
        if InFalseBranch(body, t, site) { FalseBranchIsNotLive(body, t, site); }
        else if InFalseBranch(body, e, site) { FalseBranchIsNotLive(body, e, site); }
      case While(_, b) =>
        LiveIsSite(body, b, site);
        FalseBranchIsNotLive(body, b, site);
    }
  }

  /** Main theorem: no run ever executes a call that the filter suppresses. */
  lemma SuppressedCallsNeverRun(p: Program, fuel: nat, start: nat, vals: seq<Value>, s: State, site: nat)
    requires DistinctSites(p) && Initial(p, s)
    requires forall v :: v in vals ==> SafeValue({}, s.next, v)
    requires IsInConstantFalseBranch(p, site)
    ensures site !in RunCall(p, fuel, start, vals, s).st.trace
  {
    CallSafe(p, fuel, start, vals, {}, s);
    var f :| f in p.functions && InFalseBranch(p.functions[f].body, p.functions[f].body, site);
    FalseBranchIsNotLive(p.functions[f].body, p.functions[f].body, site);
    LiveIsSite(p.functions[f].body, p.functions[f].body, site);
    if LiveIn(p, site) {
      var g :| g in p.functions && Live(p.functions[g].body, p.functions[g].body, site);
      LiveIsSite(p.functions[g].body, p.functions[g].body, site);
    }
  }

  // ----- what the filter suppresses -----

  /** The expressions within an expression, and within a list of arguments. */
  function SubExprs(e: Expr): set<Expr> {
    {e} + match e {
      case Deref(e1) => SubExprs(e1)
      case Binary(_, a, b) => SubExprs(a) + SubExprs(b)
      case Assign(_, e1) => SubExprs(e1)
      case Compound(_, _, e1) => SubExprs(e1)
      case Store(t, e1) => SubExprs(t) + SubExprs(e1)
      case Call(_, _, args) => ArgExprs(args)
      case _ => {}
    }
  }

  function ArgExprs(args: Args): set<Expr> {
    match args
    case NoArgs => {}
    case Arg(e, rest) => SubExprs(e) + ArgExprs(rest)
  }

  /** The statements within a statement. */
  function SubStmts(s: Stmt): set<Stmt> {
    {s} + match s {
      case Seq(a, b) => SubStmts(a) + SubStmts(b)
      case Block(c) => SubStmts(c)
      case If(_, t, e) => SubStmts(t) + SubStmts(e)
      case While(_, b) => SubStmts(b)
      case _ => {}
    }
  }

  /** The expressions that a statement evaluates itself, rather than one within it. */
  function OwnExprs(s: Stmt): set<Expr> {
    match s
    case Eval(e) => SubExprs(e)
    case Declare(_, init) => if init.Some? then SubExprs(init.value) else {}
    case If(c, _, _) => SubExprs(c)
    case While(c, _) => SubExprs(c)
    case Return(e) => SubExprs(e)
    case _ => {}
  }

  ghost predicate Within(e: Expr, s: Stmt) { exists c :: c in SubStmts(s) && e in OwnExprs(c) }

  /** It assigns or steps `v`, or takes its address. */
  predicate Changes(e: Expr, v: Var) {
    e == AddressOf(v) || ((e.Assign? || e.Compound? || e.Crement?) && e.v == v)
  }

  predicate IsCallAt(e: Expr, site: nat) { e.Call? && e.site == site }

  /** Built from literals, and 0 whatever the program and its state. */
  ghost predicate ConstantlyZero(e: Expr) {
    && (forall x :: x in SubExprs(e) ==> x.Lit? || x.Binary?)
    && forall p, fuel, s :: EvalExpr(p, fuel, e, s) == Out(s, Int(0), true)
  }

  /** A local variable that every declaration sets to a constant 0 and nothing changes. */
  ghost predicate UnchangingZero(body: Stmt, v: Var) {
    && v.Auto?
    && (exists c :: c in SubStmts(body) && c.Declare? && c.v == v)
    && (forall c :: c in SubStmts(body) && c.Declare? && c.v == v ==> c.init.Some? && ConstantlyZero(c.init.value))
    && (forall e :: Within(e, body) ==> !Changes(e, v))
  }

  ghost predicate DeadCondition(body: Stmt, c: Expr) {
    ConstantlyZero(c) || (c.Access? && UnchangingZero(body, c.v))
  }

  /** Some `if` within `s` has a dead condition and holds the call in its then-branch. */
  ghost predicate HeldByDeadIf(body: Stmt, s: Stmt, site: nat) {
    exists c :: c in SubStmts(s) && HoldsDead(body, c, site)
  }

  ghost predicate HoldsDead(body: Stmt, c: Stmt, site: nat) {
    c.If? && DeadCondition(body, c.cond) && exists e :: Within(e, c.thn) && IsCallAt(e, site)
  }

  lemma {:induction false} MutatesIff(e: Expr, v: Var)
    ensures Mutates(e, v) <==> exists x :: x in SubExprs(e) && Changes(x, v)
  {
    match e {
      case Deref(e1) => MutatesIff(e1, v);
      case Binary(_, a, b) => MutatesIff(a, v); MutatesIff(b, v);
      case Assign(_, e1) => MutatesIff(e1, v);
      case Compound(_, _, e1) => MutatesIff(e1, v);
      case Store(t, e1) => MutatesIff(t, v); MutatesIff(e1, v);
      case Call(_, _, args) => ArgsMutateIff(args, v);
      case _ =>
    }
    if Changes(e, v) {
      assert e in SubExprs(e);
    }
  }

  lemma {:induction false} ArgsMutateIff(args: Args, v: Var)
    ensures ArgsMutate(args, v) <==> exists x :: x in ArgExprs(args) && Changes(x, v)
  {
    match args {
      case NoArgs =>
      case Arg(e, rest) => MutatesIff(e, v); ArgsMutateIff(rest, v);
    }
  }

  lemma {:induction false} SitesIff(e: Expr, site: nat)
    ensures site in Sites(e) <==> exists x :: x in SubExprs(e) && IsCallAt(x, site)
  {
    match e {
      case Deref(e1) => SitesIff(e1, site);
      case Binary(_, a, b) => SitesIff(a, site); SitesIff(b, site);
      case Assign(_, e1) => SitesIff(e1, site);
      case Compound(_, _, e1) => SitesIff(e1, site);
      case Store(t, e1) => SitesIff(t, site); SitesIff(e1, site);
      case Call(_, _, args) => ArgSitesIff(args, site);
      case _ =>
    }
    if IsCallAt(e, site) {
      assert e in SubExprs(e);
    }
  }

  lemma {:induction false} ArgSitesIff(args: Args, site: nat)
    ensures site in ArgSites(args) <==> exists x :: x in ArgExprs(args) && IsCallAt(x, site)
  {
    match args {
      case NoArgs =>
      case Arg(e, rest) => SitesIff(e, site); ArgSitesIff(rest, site);
    }
  }

  function Parts(s: Stmt): set<Stmt> {
    match s
    case Seq(a, b) => {a, b}
    case Block(c) => {c}
    case If(_, t, e) => {t, e}
    case While(_, b) => {b}
    case _ => {}
  }

  /** What lies within a statement lies in its own expressions or within a part. */
  lemma WithinParts(s: Stmt, e: Expr)
    ensures Within(e, s) <==> e in OwnExprs(s) || exists c :: c in Parts(s) && Within(e, c)
  {
    assert s in SubStmts(s);
    assert forall c :: c in SubStmts(s) <==> c == s || exists d :: d in Parts(s) && c in SubStmts(d);
  }

  ghost predicate ChangedWithin(s: Stmt, v: Var) { exists e :: Within(e, s) && Changes(e, v) }

  ghost predicate CallWithin(s: Stmt, site: nat) { exists e :: Within(e, s) && IsCallAt(e, site) }

  lemma ChangedStep(s: Stmt, v: Var)
    ensures ChangedWithin(s, v) <==>
            (exists e :: e in OwnExprs(s) && Changes(e, v)) || exists c :: c in Parts(s) && ChangedWithin(c, v)
  {
    forall e | Changes(e, v)
      ensures Within(e, s) <==> e in OwnExprs(s) || exists c :: c in Parts(s) && Within(e, c)
    {
      WithinParts(s, e);
    }
  }

  lemma CallStep(s: Stmt, site: nat)
    ensures CallWithin(s, site) <==>
            (exists e :: e in OwnExprs(s) && IsCallAt(e, site)) || exists c :: c in Parts(s) && CallWithin(c, site)
  {
    forall e | IsCallAt(e, site)
      ensures Within(e, s) <==> e in OwnExprs(s) || exists c :: c in Parts(s) && Within(e, c)
    {
      WithinParts(s, e);
    }
  }

  lemma {:induction false} BodyMutatesIff(s: Stmt, v: Var)
    ensures BodyMutates(s, v) <==> ChangedWithin(s, v)
  {
    ChangedStep(s, v);
    match s {
      case Eval(e) => MutatesIff(e, v);
      case Declare(_, init) => if init.Some? { MutatesIff(init.value, v); }
      case Seq(a, b) => BodyMutatesIff(a, v); BodyMutatesIff(b, v);
      case Block(c) => BodyMutatesIff(c, v);
      case If(c, t, e) => MutatesIff(c, v); BodyMutatesIff(t, v); BodyMutatesIff(e, v);
      case While(c, b) => MutatesIff(c, v); BodyMutatesIff(b, v);
      case Return(e) => MutatesIff(e, v);
      case _ =>
    }
  }

  lemma {:induction false} BodySitesIff(s: Stmt, site: nat)
    ensures site in BodySites(s) <==> CallWithin(s, site)
  {
    CallStep(s, site);
    match s {
      case Eval(e) => SitesIff(e, site);
      case Declare(_, init) => if init.Some? { SitesIff(init.value, site); }
      case Seq(a, b) => BodySitesIff(a, site); BodySitesIff(b, site);
      case Block(c) => BodySitesIff(c, site);
      case If(c, t, e) => SitesIff(c, site); BodySitesIff(t, site); BodySitesIff(e, site);
      case While(c, b) => SitesIff(c, site); BodySitesIff(b, site);
      case Return(e) => SitesIff(e, site);
      case _ =>
    }
  }

  /** Comparisons and logical operators yield 1 or 0. */
  lemma TruthValues(op: Op, x: int, y: int)
    requires op in {Or, And, Equal, Less}
    ensures Apply(op, x, y) in {0, 1}
    ensures Apply(Equal, x, y) != 0 <==> x == y
    ensures Apply(Less, x, y) != 0 <==> x < y
    ensures Apply(Or, x, y) == 0 <==> x == 0 && y == 0
    ensures Apply(And, x, y) == 0 <==> x == 0 || y == 0
  {
  }

  /** A constant is built from literals and has the same value in every state. */
  lemma {:induction false} ConstantIff(e: Expr)
    ensures ConstValue(e).Some? <==> forall x :: x in SubExprs(e) ==> x.Lit? || x.Binary?
  {
    assert e in SubExprs(e);
    match e {
      case Binary(_, a, b) =>
        ConstantIff(a);
        ConstantIff(b);
        assert SubExprs(e) == {e} + (SubExprs(a) + SubExprs(b));
      case _ =>
    }
  }

  lemma ConstantlyZeroIff(e: Expr)
    ensures ConstValue(e) == Some(0) <==> ConstantlyZero(e)
  {
    ConstantIff(e);
    if ConstValue(e).Some? {
      forall p, fuel, s
        ensures EvalExpr(p, fuel, e, s) == Out(s, Int(ConstValue(e).value), true)
      {
        ConstEvaluates(p, fuel, e, s);
      }
      var p, s := Program(map[], map[]), State(map[], map[], 0, [], []);
      assert EvalExpr(p, 0, e, s) == Out(s, Int(ConstValue(e).value), true);
    }
  }

  ghost predicate DeclaredWithin(s: Stmt, v: Var) { exists c :: c in SubStmts(s) && c.Declare? && c.v == v }

  ghost predicate ZeroWithin(s: Stmt, v: Var) {
    forall c :: c in SubStmts(s) && c.Declare? && c.v == v ==> c.init.Some? && ConstantlyZero(c.init.value)
  }

  lemma {:induction false} DeclaresIff(s: Stmt, v: Var)
    ensures Declares(s, v) <==> DeclaredWithin(s, v)
    ensures ZeroInitialised(s, v) <==> ZeroWithin(s, v)
  {
    assert s in SubStmts(s);
    match s {
      case Declare(_, init) => if init.Some? { ConstantlyZeroIff(init.value); }
      case Seq(a, b) => DeclaresIff(a, v); DeclaresIff(b, v);
      case Block(c) => DeclaresIff(c, v);
      case If(_, t, e) => DeclaresIff(t, v); DeclaresIff(e, v);
      case While(_, b) => DeclaresIff(b, v);
      case _ =>
    }
  }

  lemma DeadConditionIff(body: Stmt, c: Expr)
    ensures ConstantFalse(body, c) <==> DeadCondition(body, c)
  {
    ConstantlyZeroIff(c);
    if c.Access? {
      DeclaresIff(body, c.v);
      BodyMutatesIff(body, c.v);
    }
  }

  lemma {:induction false} HeldIff(body: Stmt, s: Stmt, site: nat)
    ensures InFalseBranch(body, s, site) <==> HeldByDeadIf(body, s, site)
  {
    assert s in SubStmts(s);
    match s {
      case Seq(a, b) => HeldIff(body, a, site); HeldIff(body, b, site);
      case Block(c) => HeldIff(body, c, site);
      case If(c, t, e) =>
        DeadConditionIff(body, c);
        BodySitesIff(t, site);
        assert HoldsDead(body, s, site) <==> ConstantFalse(body, c) && CallWithin(t, site);
        HeldIff(body, t, site);
        HeldIff(body, e, site);
      case While(_, b) => HeldIff(body, b, site);
      case _ =>
    }
  }

  /**
   The filter suppresses a call exactly when, in some function, an `if` at any depth holds it in its
   then-branch and tests either a constant 0 or a local variable that every declaration sets to a
   constant 0 and nothing in the function assigns, steps or takes the address of.
   */
  lemma SuppressedIffHeldByDeadIf(p: Program, site: nat)
    ensures IsInConstantFalseBranch(p, site) <==>
            exists f :: f in p.functions && HeldByDeadIf(p.functions[f].body, p.functions[f].body, site)
  {
    forall f | f in p.functions
      ensures InFalseBranch(p.functions[f].body, p.functions[f].body, site) <==>
              HeldByDeadIf(p.functions[f].body, p.functions[f].body, site)
    {
      HeldIff(p.functions[f].body, p.functions[f].body, site);
    }
  }

  // ----- the documented pattern -----

  /** `T v = init; m; if (v) { call }`, where the called function has no body. */
  function Pattern(v: Var, init: Expr, m: Expr): Stmt {
    Seq(Declare(v, Some(init)), Seq(Eval(m), If(Access(v), Eval(Call(1, 1, NoArgs)), Skip)))
  }

  function PatternProgram(v: Var, init: Expr, m: Expr, globals: map<Var, nat>): Program {
    Program(map[0 := Function([], Pattern(v, init, m))], globals)
  }

  /**
   In the pattern the call is suppressed exactly when `init` is a constant 0, `v` is an automatic
   variable and `m` neither assigns, steps nor takes the address of `v`.
   */
  lemma PatternIsSuppressedIff(v: Var, init: Expr, m: Expr)
    ensures InFalseBranch(Pattern(v, init, m), Pattern(v, init, m), 1) <==>
            v.Auto? && ConstValue(init) == Some(0) && !Mutates(init, v) && !Mutates(m, v)
  {
    var site, callee := 1, 1;
    var call := Eval(Call(site, callee, NoArgs));
    var test := If(Access(v), call, Skip);
    var tail := Seq(Eval(m), test);
    var body := Seq(Declare(v, Some(init)), tail);
    assert Sites(Call(site, callee, NoArgs)) == multiset{site};
    assert BodySites(call)[site] == 1;
    assert !Mutates(Call(site, callee, NoArgs), v) && !Mutates(Access(v), v);
    assert !BodyMutates(call, v) && !BodyMutates(Skip, v);
    assert !BodyMutates(test, v);
    assert BodyMutates(tail, v) == Mutates(m, v);
    assert ZeroInitialised(call, v) && ZeroInitialised(Skip, v) && ZeroInitialised(Eval(m), v);
    assert ZeroInitialised(test, v);
    assert ZeroInitialised(tail, v);
    assert !InFalseBranch(body, call, site) && !InFalseBranch(body, Skip, site) && !InFalseBranch(body, Eval(m), site);
    assert InFalseBranch(body, test, site) == ConstantFalse(body, Access(v));
    assert InFalseBranch(body, tail, site) == InFalseBranch(body, test, site);
    assert !InFalseBranch(body, Declare(v, Some(init)), site);
    assert Declares(body, v) by { assert Declares(Declare(v, Some(init)), v); }
    assert ZeroInitialised(body, v) == ZeroInitialised(Declare(v, Some(init)), v);
    assert BodyMutates(body, v) == (BodyMutates(Declare(v, Some(init)), v) || BodyMutates(tail, v));
    assert InFalseBranch(body, body, site) == InFalseBranch(body, tail, site);
  }

  lemma TestRuns(p: Program, v: Var, s: State)
    requires 1 !in p.functions && ReadVar(p, s, v).ok && Truth(ReadVar(p, s, v).v)
    ensures 1 in Exec(p, 0, If(Access(v), Eval(Call(1, 1, NoArgs)), Skip), s).st.trace
  {
    var call := Eval(Call(1, 1, NoArgs));
    assert EvalArgs(p, 0, NoArgs, s) == Outs(s, [], true);
    assert 1 in Exec(p, 0, call, s).st.trace;
    assert Exec(p, 0, If(Access(v), call, Skip), s) == Exec(p, 0, call, s);
  }

  lemma SeqRuns(p: Program, a: Stmt, b: Stmt, s: State)
    requires Exec(p, 0, a, s).flow == Next
    ensures Exec(p, 0, Seq(a, b), s) == Exec(p, 0, b, Exec(p, 0, a, s).st)
  {
  }

  /** The call runs when `v` holds something true after `m`. */
  lemma PatternRuns(v: Var, init: Expr, m: Expr, globals: map<Var, nat>, s: State)
    requires s.env == map[]
    requires var p := PatternProgram(v, init, m, globals);
             var d := Exec(p, 0, Declare(v, Some(init)), s);
             var e := EvalExpr(p, 0, m, d.st);
             d.flow == Next && e.ok && ReadVar(p, e.st, v).ok && Truth(ReadVar(p, e.st, v).v)
    ensures 1 in RunCall(PatternProgram(v, init, m, globals), 1, 0, [], s).st.trace
  {
    var p := PatternProgram(v, init, m, globals);
    var d := Exec(p, 0, Declare(v, Some(init)), s);
    var e := EvalExpr(p, 0, m, d.st);
    var test := If(Access(v), Eval(Call(1, 1, NoArgs)), Skip);
    TestRuns(p, v, e.st);
    assert Exec(p, 0, Eval(m), d.st) == After(e.st, Next);
    SeqRuns(p, Eval(m), test, d.st);
    SeqRuns(p, Declare(v, Some(init)), Seq(Eval(m), test), s);
    assert Exec(p, 0, Pattern(v, init, m), s) == Exec(p, 0, test, e.st);
    CallOfBody(p, s);
  }

  lemma CallOfBody(p: Program, s: State)
    requires s.env == map[] && 0 in p.functions && p.functions[0].params == []
    ensures RunCall(p, 1, 0, [], s).st.trace == Exec(p, 0, p.functions[0].body, s).st.trace
  {
    assert Bind(s.(env := map[]), [], []) == s;
  }

  /** Some run of the pattern, from some memory, executes the call. */
  ghost predicate CanRun(v: Var, init: Expr, m: Expr) {
    exists globals, s :: Initial(PatternProgram(v, init, m, globals), s)
      && 1 in RunCall(PatternProgram(v, init, m, globals), 1, 0, [], s).st.trace
  }

  /**
   None of the conditions can be dropped: when just one fails, because `v` is static, starts as 1,
   is assigned, stepped, or written through its address, some run executes the call.
   */
  lemma EachConditionIsNeeded()
    ensures CanRun(Static(0), Lit(0), Lit(0)) && CanRun(Auto(0), Lit(1), Lit(0))
    ensures CanRun(Auto(0), Lit(0), Assign(Auto(0), Lit(1))) && CanRun(Auto(0), Lit(0), Crement(Auto(0), 1))
    ensures CanRun(Auto(0), Lit(0), Store(AddressOf(Auto(0)), Lit(1)))
  {
    var s := State(map[0 := Int(1)], map[], 1, [], []);
    var none: map<Var, nat> := map[];
    PatternRuns(Static(0), Lit(0), Lit(0), map[Static(0) := 0], s);
    PatternRuns(Auto(0), Lit(1), Lit(0), none, s);
    assert Initial(PatternProgram(Static(0), Lit(0), Lit(0), map[Static(0) := 0]), s);
    assert Initial(PatternProgram(Auto(0), Lit(1), Lit(0), none), s);
    MutationRuns(Assign(Auto(0), Lit(1)), s);
    MutationRuns(Crement(Auto(0), 1), s);
    MutationRuns(Store(AddressOf(Auto(0)), Lit(1)), s);
  }

  lemma MutationRuns(m: Expr, s: State)
    requires s == State(map[0 := Int(1)], map[], 1, [], [])
    requires m in {Assign(Auto(0), Lit(1)), Crement(Auto(0), 1), Store(AddressOf(Auto(0)), Lit(1))}
    ensures CanRun(Auto(0), Lit(0), m)
  {
    var none: map<Var, nat> := map[];
    var p := PatternProgram(Auto(0), Lit(0), m, none);
    var d := Exec(p, 0, Declare(Auto(0), Some(Lit(0))), s);
    assert d.flow == Next && d.st == Allocate(s, Auto(0), Int(0));
    var e := EvalExpr(p, 0, m, d.st);
    if m.Store? {
      assert EvalExpr(p, 0, AddressOf(Auto(0)), d.st) == Out(d.st, Ptr(1), true);
      assert EvalExpr(p, 0, Lit(1), d.st) == Out(d.st, Int(1), true);
    }
    assert e.ok && ReadVar(p, e.st, Auto(0)).ok && ReadVar(p, e.st, Auto(0)).v == Int(1);
    PatternRuns(Auto(0), Lit(0), m, none, s);
    assert Initial(p, s);
  }
}
