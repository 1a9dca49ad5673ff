/** Parse trees over integers and local variables (src/trees.h), and what they mean.

    An absent subtree (a null pointer in the parser) is `Empty`. */
module ParseTree {
  import opened Bytecode

  datatype BinaryOp = Add | Subtract | Multiply | Eq | Ne | Le | Lt | Ge | Gt

  datatype UnaryOp = Not | Negate

  datatype Expr =
    | Number(n: Int32)                              // NODE_NUMBER
    | Local(x: Byte)                                // NODE_OPCODE_1, F_LOCAL
    | Binary(op: BinaryOp, l: Expr, r: Expr)        // NODE_BINARY_OP
    | Unary(uop: UnaryOp, e: Expr)                  // NODE_UNARY_OP
    | Assign(x: Byte, e: Expr)                      // NODE_BINARY_OP, F_ASSIGN to F_LOCAL_LVALUE
    | LandLor(isAnd: bool, chain: Chain, r: Expr)   // NODE_LAND_LOR
    | Cond(c: Expr, a: Expr, b: Expr)               // NODE_IF as ?:

  /** The left operand of && or ||: NODE_BRANCH_LINK nodes are the inner operators of a chain. */
  datatype Chain = First(e: Expr) | Link(l: Chain, r: Expr)

  datatype Test =
    | CondLocal(x: Byte, y: Byte)     // F_LOOP_COND_LOCAL
    | CondNumber(x: Byte, n: Int32)   // F_LOOP_COND_NUMBER
    | WhileDec(x: Byte)               // F_WHILE_DEC
    | General(e: Expr)

  datatype Stmt =
    | Empty
    | Pop(e: Expr)                                  // F_POP_VALUE
    | AssignVoid(x: Byte, e: Expr)                  // F_VOID_ASSIGN_LOCAL
    | Increment(x: Byte)                            // F_LOOP_INCR
    | Two(s1: Stmt, s2: Stmt)                       // NODE_TWO_VALUES
    | If(c: Expr, t: Stmt, f: Stmt)                 // NODE_IF
    | Loop(testFirst: bool, block: Stmt, inc: Stmt, test: Test)
    | Break
    | Continue

  // ---------- Meaning ----------

  function Apply(op: BinaryOp, a: int, b: int): int {
    match op
    case Add => a + b
    case Subtract => a - b
    case Multiply => a * b
    case Eq => Truth(a == b)
    case Ne => Truth(a != b)
    case Le => Truth(a <= b)
    case Lt => Truth(a < b)
    case Ge => Truth(a >= b)
    case Gt => Truth(a > b)
  }

  /** Does value v decide && (isAnd) or || on its own? */
  predicate Decides(isAnd: bool, v: int) {
    (v == 0) == isAnd
  }

  function Eval(e: Expr, fr: Frame): (int, Frame)
    decreases e
  {
    match e
    case Number(n) => (n, fr)
    case Local(x) => (fr[x], fr)
    case Binary(op, l, r) =>
      var (a, fa) := Eval(l, fr);
      var (b, fb) := Eval(r, fa);
      (Apply(op, a, b), fb)
    case Unary(uop, e1) =>
      var (a, fa) := Eval(e1, fr);
      (if uop.Not? then Truth(a == 0) else -a, fa)
    case Assign(x, e1) =>
      var (a, fa) := Eval(e1, fr);
      (a, fa[x := a])
    case LandLor(isAnd, chain, r) =>
      var (a, fa) := EvalChain(isAnd, chain, fr);
      if Decides(isAnd, a) then (a, fa) else Eval(r, fa)
    case Cond(c, a, b) =>
      var (v, fv) := Eval(c, fr);
      if v != 0 then Eval(a, fv) else Eval(b, fv)
  }

  function EvalChain(isAnd: bool, chain: Chain, fr: Frame): (int, Frame)
    decreases chain
  {
    match chain
    case First(e) => Eval(e, fr)
    case Link(l, r) =>
      var (a, fa) := EvalChain(isAnd, l, fr);
      if Decides(isAnd, a) then (a, fa) else Eval(r, fa)
  }

  function EvalTest(t: Test, fr: Frame): (bool, Frame) {
    match t
    case CondLocal(x, y) => (fr[x] < fr[y], fr)
    case CondNumber(x, n) => (fr[x] < n, fr)
    case WhileDec(x) => (fr[x] != 0, fr[x := fr[x] - 1])
    case General(e) =>
      var (v, f) := Eval(e, fr);
      (v != 0, f)
  }

  datatype Outcome = Done(fr: Frame) | Broke(fr: Frame) | Continued(fr: Frame) | Timeout

  /** Runs a statement; `fuel` bounds the number of rounds of each loop. */
  function Exec(s: Stmt, fr: Frame, fuel: nat): Outcome
    decreases fuel, s, 1
  {
    match s
    case Empty => Done(fr)
    case Pop(e) => Done(Eval(e, fr).1)
    case AssignVoid(x, e) =>
      var (v, f) := Eval(e, fr);
      Done(f[x := v])
    case Increment(x) => Done(fr[x := fr[x] + 1])
    case Two(s1, s2) =>
      var o := Exec(s1, fr, fuel);
      if o.Done? then Exec(s2, o.fr, fuel) else o
    case If(c, t, f) =>
      var (v, fv) := Eval(c, fr);
      if v != 0 then Exec(t, fv, fuel) else Exec(f, fv, fuel)
    case Loop(testFirst, _, _, test) =>
      if testFirst then
        var (go, f) := EvalTest(test, fr);
        if go then Rounds(s, f, fuel) else Done(f)
      else
        Rounds(s, fr, fuel)
    case Break => Broke(fr)
    case Continue => Continued(fr)
  }

  /** The rounds of a loop: block, increment, test, and again while the test holds. */
  function Rounds(s: Stmt, fr: Frame, fuel: nat): Outcome
    requires s.Loop?
    decreases fuel, s, 0
  {
    if fuel == 0 then Timeout
    else
      var o := Exec(s.block, fr, fuel);
      if o.Timeout? then Timeout
      else if o.Broke? then Done(o.fr)
      else
        var o2 := Exec(s.inc, o.fr, fuel);
        if !o2.Done? then o2
        else
          var (go, f) := EvalTest(s.test, o2.fr);
          if go then Rounds(s, f, fuel - 1) else Done(f)
  }

  // ---------- Shapes the grammar guarantees ----------

  /** A single expression whose value is dropped. */
  predicate IsSimple(s: Stmt) {
    s.Empty? || s.Pop? || s.AssignVoid? || s.Increment?
  }

  /** The third part of a `for` is an expression whose value is dropped (src/grammar.y.pre:896-916); dropping
      the value of a comma expression or of `?:` drops that of its parts (src/trees.c:228-345). */
  predicate IsIncrement(s: Stmt) {
    match s
    case Two(s1, s2) => IsIncrement(s1) && IsIncrement(s2)
    case If(_, t, f) => IsIncrement(t) && IsIncrement(f)
    case _ => IsSimple(s)
  }

  lemma {:induction false} IncrementFinishes(s: Stmt, fr: Frame, fuel: nat)
    requires IsIncrement(s)
    ensures Exec(s, fr, fuel).Done?
    decreases s
  {
    match s
    case Two(s1, s2) =>
      IncrementFinishes(s1, fr, fuel);
      IncrementFinishes(s2, Exec(s1, fr, fuel).fr, fuel);
    case If(c, t, f) =>
      IncrementFinishes(t, Eval(c, fr).1, fuel);
      IncrementFinishes(f, Eval(c, fr).1, fuel);
    case _ =>
  }

  predicate WellFormed(s: Stmt) {
    match s
    case Two(s1, s2) => WellFormed(s1) && WellFormed(s2)
    case If(_, t, f) => WellFormed(t) && WellFormed(f)
    case Loop(_, block, inc, _) => WellFormed(block) && IsIncrement(inc)
    case _ => true
  }

  lemma {:induction false} IncrementIsWellFormed(s: Stmt)
    requires IsIncrement(s)
    ensures WellFormed(s)
    decreases s
  {
    match s
    case Two(s1, s2) =>
      IncrementIsWellFormed(s1);
      IncrementIsWellFormed(s2);
    case If(_, t, f) =>
      IncrementIsWellFormed(t);
      IncrementIsWellFormed(f);
    case _ =>
  }

  /** No `break` or `continue` outside a loop (src/grammar.y.pre:835-867). */
  predicate Closed(s: Stmt) {
    match s
    case Two(s1, s2) => Closed(s1) && Closed(s2)
    case If(_, t, f) => Closed(t) && Closed(f)
    case Break => false
    case Continue => false
    case _ => true
  }

  lemma {:induction false} ClosedFinishes(s: Stmt, fr: Frame, fuel: nat)
    requires WellFormed(s) && Closed(s)
    ensures var o := Exec(s, fr, fuel); o.Done? || o.Timeout?
    decreases s
  {
    match s
    case Two(s1, s2) =>
      ClosedFinishes(s1, fr, fuel);
      var o := Exec(s1, fr, fuel);
      if o.Done? { ClosedFinishes(s2, o.fr, fuel); }
    case If(c, t, f) =>
      var fv := Eval(c, fr).1;
      ClosedFinishes(t, fv, fuel);
      ClosedFinishes(f, fv, fuel);
    case Loop(_, _, _, test) =>
      RoundsFinish(s, fr, fuel);
      RoundsFinish(s, EvalTest(test, fr).1, fuel);
    case _ =>
  }

  lemma {:induction false} RoundsFinish(s: Stmt, fr: Frame, fuel: nat)
    requires s.Loop? && IsIncrement(s.inc)
    ensures var o := Rounds(s, fr, fuel); o.Done? || o.Timeout?
    decreases fuel
  {
    if fuel > 0 {
      var o := Exec(s.block, fr, fuel);
      if o.Done? || o.Continued? {
        var o2 := Exec(s.inc, o.fr, fuel);
        IncrementFinishes(s.inc, o.fr, fuel);
        RoundsFinish(s, EvalTest(s.test, o2.fr).1, fuel - 1);
      }
    }
  }
}
