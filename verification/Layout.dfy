/** Where the code generator of src/icode.c puts things, and what a finished translation looks like.

    A position in the output is the number of bytes already final (`at`) and the pushes that are
    written but may still be merged with the next one (`pend`): src/icode.c:153-194, 286-319. */
module Layout {
  import opened Basics
  import opened Bytecode
  import opened ParseTree

  datatype Push = PushNumber(v: Byte) | PushLocal(v: Byte)

  datatype Pos = Pos(at: nat, pend: seq<Push>)

  predicate Small(u: Push) { u.v <= PUSH_MASK }

  /** A position that try_to_push can leave: at most 254 small pushes are pending. */
  predicate Proper(p: Pos) {
    |p.pend| < 255 && forall i :: 0 <= i < |p.pend| ==> Small(p.pend[i])
  }

  // ---------- Encoding of pending pushes ----------

  /** The kind bits above the six value bits. */
  function PushByte(u: Push): Byte {
    (if u.PushNumber? then PUSH_NUMBER else PUSH_LOCAL) + u.v % (PUSH_MASK + 1)
  }

  /** A push standing alone. */
  function Single(u: Push): (b: seq<Byte>)
    ensures 1 <= |b| <= 2
  {
    match u
    case PushNumber(v) => if v == 0 then [F_CONST0] else if v == 1 then [F_CONST1] else [F_BYTE, v]
    case PushLocal(v) => [F_LOCAL, v]
  }

  function PushBytes(us: seq<Push>): seq<Byte> {
    seq(|us|, i requires 0 <= i < |us| => PushByte(us[i]))
  }

  /** The final bytes of a run of pushes. */
  function Encoding(us: seq<Push>): seq<Byte>
    requires |us| < 256
  {
    if us == [] then []
    else if |us| == 1 then Single(us[0])
    else [F_PUSH, |us|] + PushBytes(us)
  }

  // ---------- Positions ----------

  function EncodingLength(us: seq<Push>): nat {
    if us == [] then 0 else if |us| == 1 then |Single(us[0])| else 2 + |us|
  }

  /** end_pushes */
  function Flush(p: Pos): Pos { Pos(p.at + EncodingLength(p.pend), []) }

  /** n bytes written after end_pushes */
  function Emit(p: Pos, n: nat): Pos { Pos(Flush(p).at + n, []) }

  /** A branch opcode and its two offset bytes; the offset lies at Hole(p). */
  function Branch(p: Pos): Pos { Emit(p, 3) }

  function Hole(p: Pos): nat { Flush(p).at + 1 }

  /** try_to_push of a small value; the 255th push of a run ends it. */
  function Pushing(p: Pos, u: Push): Pos {
    var p' := Pos(p.at, p.pend + [u]);
    if |p'.pend| == 255 then Flush(p') else p'
  }

  function AfterNumber(n: Int32, p: Pos): Pos {
    if 0 <= n <= PUSH_MASK then Pushing(p, PushNumber(n))
    else if -256 < n < 256 then Emit(p, 2)
    else Emit(p, 5)
  }

  function AfterExpr(e: Expr, p: Pos): Pos
    decreases e, 0
  {
    match e
    case Number(n) => AfterNumber(n, p)
    case Local(x) => if x <= PUSH_MASK then Pushing(p, PushLocal(x)) else Emit(p, 2)
    case Binary(_, l, r) => Emit(AfterExpr(r, AfterExpr(l, p)), 1)
    case Unary(_, e1) => Emit(AfterExpr(e1, p), 1)
    case Assign(_, e1) => Emit(AfterExpr(e1, p), 3)
    case LandLor(_, chain, r) => Flush(AfterExpr(r, Branch(AfterChain(chain, p))))
    case Cond(c, a, b) => Flush(AfterExpr(b, Branch(AfterExpr(a, AfterCond(c, false, p)))))
  }

  function AfterChain(chain: Chain, p: Pos): Pos
    decreases chain, 0
  {
    match chain
    case First(e) => AfterExpr(e, p)
    case Link(l, r) => AfterExpr(r, Branch(AfterChain(l, p)))
  }

  /** The comparisons i_generate_if_branch folds into the branch, and the branch it uses. */
  function FusedBranch(op: BinaryOp, invert: bool): Option<Byte> {
    match op
    case Eq => Some(if invert then F_BRANCH_EQ else F_BRANCH_NE)
    case Ne => Some(if invert then F_BRANCH_NE else F_BRANCH_EQ)
    case Ge => if invert then Some(F_BRANCH_GE) else None
    case Le => if invert then Some(F_BRANCH_LE) else None
    case Lt => if invert then None else Some(F_BRANCH_GE)
    case Gt => if invert then None else Some(F_BRANCH_LE)
    case _ => None
  }

  predicate IsNot(c: Expr) { c.Unary? && c.uop.Not? }

  predicate IsFused(c: Expr, invert: bool) { c.Binary? && FusedBranch(c.op, invert).Some? }

  predicate IsLess(e: Expr) { e.Binary? && e.op.Lt? }

  function PlainBranch(invert: bool): Byte {
    if invert then F_BRANCH_WHEN_NON_ZERO else F_BRANCH_WHEN_ZERO
  }

  /** After the branch that leaves when c is false (or true, when inverted). */
  function AfterCond(c: Expr, invert: bool, p: Pos): Pos
    decreases c, 1
  {
    if IsNot(c) then AfterCond(c.e, !invert, p)
    else if IsFused(c, invert) then Branch(AfterExpr(c.r, AfterExpr(c.l, p)))
    else Branch(AfterExpr(c, p))
  }

  // ---------- Loops ----------

  predicate Forever(t: Test) { t.General? && t.e.Number? && t.e.n != 0 }

  /** i_generate_loop compares test->v.number with three opcodes without looking at the node's kind
      (src/icode.c:732-734), so a constant test with one of these values takes their path. */
  predicate Mistaken(t: Test) {
    t.General? && t.e.Number?
    && (t.e.n == F_LOOP_COND_LOCAL || t.e.n == F_LOOP_COND_NUMBER || t.e.n == F_NEXT_FOREACH)
  }

  /** x != 0 is x (src/generate.c:529-534). */
  function Stripped(e: Expr): Expr {
    if e.Binary? && e.op == Ne then
      if e.r == Number(0) then e.l else if e.l == Number(0) then e.r else e
    else e
  }

  function AfterTest(t: Test, p: Pos): Pos {
    match t
    case CondLocal(_, _) => Emit(p, 5)
    case CondNumber(_, _) => Emit(p, 8)
    case WhileDec(_) => Emit(p, 4)
    case General(e) => if Mistaken(t) then Emit(p, 4) else AfterGeneral(Stripped(e), p)
  }

  function AfterGeneral(e: Expr, p: Pos): Pos {
    if IsNot(e) then Branch(AfterExpr(e.e, p))
    else if e.Number? then if e.n == 0 then Flush(p) else Branch(p)
    else if IsLess(e) then Branch(AfterExpr(e.r, AfterExpr(e.l, p)))
    else Branch(AfterExpr(e, p))
  }

  /** A test-first loop jumps over its block to the test. */
  predicate Skips(s: Stmt)
    requires s.Loop?
  {
    s.testFirst && !Forever(s.test)
  }

  /** The start of a loop's block. */
  function LoopStart(s: Stmt, p: Pos): Pos
    requires s.Loop?
  {
    if Skips(s) then Branch(p) else Flush(p)
  }

  function AfterStmt(s: Stmt, p: Pos): Pos
    decreases s, 2
  {
    match s
    case Empty => p
    case Pop(e) => Emit(AfterExpr(e, p), 1)
    case AssignVoid(_, e) => Emit(AfterExpr(e, p), 2)
    case Increment(_) => Emit(p, 2)
    case Two(s1, s2) => AfterStmt(s2, AfterStmt(s1, p))
    case If(c, t, f) =>
      var q := AfterStmt(t, AfterCond(c, false, p));
      if f.Empty? then Flush(q) else Flush(AfterStmt(f, Branch(q)))
    case Loop(_, _, _, test) => Flush(AfterTest(test, TestPos(s, p)))
    case Break => Branch(p)
    case Continue => Branch(p)
  }

  /** Where `continue` goes: after the block. */
  function ContinuePos(s: Stmt, p: Pos): Pos
    requires s.Loop?
    decreases s, 0
  {
    Flush(AfterStmt(s.block, LoopStart(s, p)))
  }

  function TestPos(s: Stmt, p: Pos): Pos
    requires s.Loop?
    decreases s, 1
  {
    Flush(AfterStmt(s.inc, ContinuePos(s, p)))
  }

  // ---------- Holes: offsets that are patched when their target is known ----------

  /** The offsets of the inner operators of a chain, last one first. */
  function ChainHoles(chain: Chain, p: Pos): seq<nat>
    decreases chain
  {
    match chain
    case First(_) => []
    case Link(l, _) => [Hole(AfterChain(l, p))] + ChainHoles(l, p)
  }

  /** The offsets of the break (or continue) jumps that leave s, last one first: branch_list. */
  function JumpHoles(s: Stmt, p: Pos, isBreak: bool): seq<nat>
    decreases s
  {
    match s
    case Two(s1, s2) => JumpHoles(s2, AfterStmt(s1, p), isBreak) + JumpHoles(s1, p, isBreak)
    case If(c, t, f) =>
      var p1 := AfterCond(c, false, p);
      (if f.Empty? then [] else JumpHoles(f, Branch(AfterStmt(t, p1)), isBreak)) + JumpHoles(t, p1, isBreak)
    case Break => if isBreak then [Hole(p)] else []
    case Continue => if isBreak then [] else [Hole(p)]
    case _ => []
  }

  lemma {:induction false} NoHolesInIncrement(s: Stmt, p: Pos)
    requires IsIncrement(s)
    ensures JumpHoles(s, p, true) == JumpHoles(s, p, false) == []
    decreases s
  {
    match s
    case Two(s1, s2) =>
      NoHolesInIncrement(s1, p);
      NoHolesInIncrement(s2, AfterStmt(s1, p));
    case If(c, t, f) =>
      var q := AfterCond(c, false, p);
      NoHolesInIncrement(t, q);
      NoHolesInIncrement(f, Branch(AfterStmt(t, q)));
    case _ =>
  }

  // ---------- Finished code ----------

  predicate Has(code: seq<Byte>, at: nat, bytes: seq<Byte>) {
    at + |bytes| <= |code| && forall i :: 0 <= i < |bytes| ==> code[at + i] == bytes[i]
  }

  /** The pending pushes of p are final in the code. */
  predicate Flushed(code: seq<Byte>, p: Pos) {
    |p.pend| < 256 && (forall i :: 0 <= i < |p.pend| ==> Small(p.pend[i]))
    && Has(code, p.at, Encoding(p.pend))
  }

  predicate Emitted(code: seq<Byte>, p: Pos, bytes: seq<Byte>) {
    Flushed(code, p) && Has(code, Flush(p).at, bytes)
  }

  /** The branch whose offset lies at h goes forward to `target`. */
  predicate Leads(code: seq<Byte>, h: nat, target: nat) {
    h + 2 <= |code| && h + Short(code, h) == target
  }

  /** The branch whose offset lies at h goes back to `target`. */
  predicate LeadsBack(code: seq<Byte>, h: nat, target: nat) {
    h + 2 <= |code| && h - Short(code, h) == target
  }

  predicate AllLead(code: seq<Byte>, holes: seq<nat>, target: nat) {
    forall i :: 0 <= i < |holes| ==> Leads(code, holes[i], target)
  }

  predicate BranchAt(code: seq<Byte>, p: Pos, op: Byte) {
    Emitted(code, p, [op]) && Branch(p).at <= |code|
  }

  predicate PushedAt(code: seq<Byte>, p: Pos, u: Push) {
    Small(u) && (|p.pend| == 254 ==> Flushed(code, Pos(p.at, p.pend + [u])))
  }

  function BinaryCode(op: BinaryOp): Byte {
    match op
    case Add => F_ADD
    case Subtract => F_SUBTRACT
    case Multiply => F_MULTIPLY
    case Eq => F_EQ
    case Ne => F_NE
    case Le => F_LE
    case Lt => F_LT
    case Ge => F_GE
    case Gt => F_GT
  }

  function LogicCode(isAnd: bool): Byte { if isAnd then F_LAND else F_LOR }

  /** The bytes from p.at up to AfterExpr(e, p).at translate e. */
  predicate HasExpr(code: seq<Byte>, e: Expr, p: Pos)
    decreases e, 0
  {
    match e
    case Number(n) =>
      if 0 <= n <= PUSH_MASK then PushedAt(code, p, PushNumber(n))
      else if 0 <= n < 256 then Emitted(code, p, [F_BYTE, n])
      else if -256 < n < 0 then Emitted(code, p, [F_NBYTE, -(n as int)])
      else Emitted(code, p, [F_NUMBER] + IntBytes(n))
    case Local(x) =>
      if x <= PUSH_MASK then PushedAt(code, p, PushLocal(x)) else Emitted(code, p, [F_LOCAL, x])
    case Binary(op, l, r) =>
      var q := AfterExpr(l, p);
      HasExpr(code, l, p) && HasExpr(code, r, q) && Emitted(code, AfterExpr(r, q), [BinaryCode(op)])
    case Unary(uop, e1) =>
      HasExpr(code, e1, p)
      && Emitted(code, AfterExpr(e1, p), [if uop.Not? then F_NOT else F_NEGATE])
    case Assign(x, e1) =>
      HasExpr(code, e1, p) && Emitted(code, AfterExpr(e1, p), [F_LOCAL_LVALUE, x, F_ASSIGN])
    case LandLor(isAnd, chain, r) =>
      var q := AfterChain(chain, p);
      var end := AfterExpr(e, p).at;
      && HasChain(code, chain, p)
      && ChainPatched(code, isAnd, ChainHoles(chain, p), end)
      && BranchAt(code, q, LogicCode(isAnd)) && Leads(code, Hole(q), end)
      && HasExpr(code, r, Branch(q)) && Flushed(code, AfterExpr(r, Branch(q)))
    case Cond(c, a, b) =>
      var q := AfterCond(c, false, p);
      var q1 := AfterExpr(a, q);
      var q2 := Branch(q1);
      && HasCond(code, c, false, p) && q.at >= 2 && Leads(code, q.at - 2, q2.at)
      && HasExpr(code, a, q)
      && BranchAt(code, q1, F_BRANCH) && Leads(code, Hole(q1), AfterExpr(e, p).at)
      && HasExpr(code, b, q2) && Flushed(code, AfterExpr(b, q2))
  }

  /** A chain whose inner branches are still placeholders. */
  predicate HasChain(code: seq<Byte>, chain: Chain, p: Pos)
    decreases chain, 0
  {
    match chain
    case First(e) => HasExpr(code, e, p)
    case Link(l, r) =>
      var q := AfterChain(l, p);
      HasChain(code, l, p) && Flushed(code, q) && Branch(q).at <= |code| && HasExpr(code, r, Branch(q))
  }

  predicate ChainPatched(code: seq<Byte>, isAnd: bool, holes: seq<nat>, target: nat) {
    forall i :: 0 <= i < |holes| ==>
      1 <= holes[i] && Leads(code, holes[i], target) && code[holes[i] - 1] == LogicCode(isAnd)
  }

  predicate HasCond(code: seq<Byte>, c: Expr, invert: bool, p: Pos)
    decreases c, 1
  {
    if IsNot(c) then HasCond(code, c.e, !invert, p)
    else if IsFused(c, invert) then
      var q := AfterExpr(c.l, p);
      && HasExpr(code, c.l, p) && HasExpr(code, c.r, q)
      && BranchAt(code, AfterExpr(c.r, q), FusedBranch(c.op, invert).value)
    else
      HasExpr(code, c, p) && BranchAt(code, AfterExpr(c, p), PlainBranch(invert))
  }

  predicate BackBranch(code: seq<Byte>, q: Pos, op: Byte, start: nat) {
    BranchAt(code, q, op) && LeadsBack(code, Hole(q), start)
  }

  /** The test of a loop whose block begins at `start`. */
  predicate HasTest(code: seq<Byte>, t: Test, p: Pos, start: nat) {
    match t
    case CondLocal(x, y) =>
      Emitted(code, p, [F_LOOP_COND_LOCAL, x, y]) && LeadsBack(code, Emit(p, 3).at, start)
    case CondNumber(x, n) =>
      Emitted(code, p, [F_LOOP_COND_NUMBER, x] + IntBytes(n)) && LeadsBack(code, Emit(p, 6).at, start)
    case WhileDec(x) =>
      Emitted(code, p, [F_WHILE_DEC, x]) && LeadsBack(code, Emit(p, 2).at, start)
    case General(e) =>
      if Mistaken(t) then
        Emitted(code, p, [F_BYTE, e.n]) && LeadsBack(code, Emit(p, 2).at, start)
      else
        HasGeneral(code, Stripped(e), p, start)
  }

  predicate HasGeneral(code: seq<Byte>, e: Expr, p: Pos, start: nat) {
    if IsNot(e) then
      HasExpr(code, e.e, p) && BackBranch(code, AfterExpr(e.e, p), F_BBRANCH_WHEN_ZERO, start)
    else if e.Number? then
      if e.n == 0 then Flushed(code, p) else BackBranch(code, p, F_BBRANCH, start)
    else if IsLess(e) then
      var q := AfterExpr(e.l, p);
      && HasExpr(code, e.l, p) && HasExpr(code, e.r, q)
      && BackBranch(code, AfterExpr(e.r, q), F_BBRANCH_LT, start)
    else
      HasExpr(code, e, p) && BackBranch(code, AfterExpr(e, p), F_BBRANCH_WHEN_NON_ZERO, start)
  }

  /** The bytes from p.at up to AfterStmt(s, p).at translate s, with the offsets of the jumps that
      leave s still open. */
  predicate HasStmt(code: seq<Byte>, s: Stmt, p: Pos)
    decreases s, 1
  {
    match s
    case Empty => true
    case Pop(e) => HasExpr(code, e, p) && Emitted(code, AfterExpr(e, p), [F_POP_VALUE])
    case AssignVoid(x, e) =>
      HasExpr(code, e, p) && Emitted(code, AfterExpr(e, p), [F_VOID_ASSIGN_LOCAL, x])
    case Increment(x) => Emitted(code, p, [F_LOOP_INCR, x])
    case Two(s1, s2) => HasStmt(code, s1, p) && HasStmt(code, s2, AfterStmt(s1, p))
    case If(c, t, f) =>
      var q := AfterCond(c, false, p);
      var q1 := AfterStmt(t, q);
      && HasCond(code, c, false, p) && HasStmt(code, t, q) && Flushed(code, q1) && q.at >= 2
      && if f.Empty? then Leads(code, q.at - 2, Flush(q1).at)
         else
           && BranchAt(code, q1, F_BRANCH) && Leads(code, q.at - 2, Branch(q1).at)
           && HasStmt(code, f, Branch(q1)) && Flushed(code, AfterStmt(f, Branch(q1)))
           && Leads(code, Hole(q1), AfterStmt(s, p).at)
    case Loop(_, block, inc, test) => HasLoop(code, s, p)
    case Break => BranchAt(code, p, F_BRANCH)
    case Continue => BranchAt(code, p, F_BRANCH)
  }

  predicate HasLoop(code: seq<Byte>, s: Stmt, p: Pos)
    requires s.Loop?
    decreases s, 0
  {
    var start := LoopStart(s, p);
    var next, test, end := ContinuePos(s, p), TestPos(s, p), AfterStmt(s, p).at;
    && Flushed(code, p)
    && (Skips(s) ==> BranchAt(code, p, F_BRANCH) && Leads(code, Hole(p), test.at))
    && HasStmt(code, s.block, start) && Flushed(code, AfterStmt(s.block, start))
    && AllLead(code, JumpHoles(s.block, start, true), end)
    && AllLead(code, JumpHoles(s.block, start, false), next.at)
    && HasStmt(code, s.inc, next) && Flushed(code, AfterStmt(s.inc, next))
    && HasTest(code, s.test, test, start.at)
  }

  // ---------- Positions only grow ----------

  predicate Grows(p: Pos, q: Pos) { p.at <= q.at && Flush(p).at <= Flush(q).at }

  lemma {:induction false} PushGrows(p: Pos, u: Push)
    ensures Grows(p, Pushing(p, u))
  {}

  lemma {:induction false} ExprGrows(e: Expr, p: Pos)
    ensures Grows(p, AfterExpr(e, p))
    decreases e, 1
  {
    match e
    case Number(n) => if 0 <= n <= PUSH_MASK { PushGrows(p, PushNumber(n)); }
    case Local(x) => PushGrows(p, PushLocal(x));
    case Binary(_, l, r) =>
      ExprGrows(l, p);
      ExprGrows(r, AfterExpr(l, p));
    case Unary(_, e1) => ExprGrows(e1, p);
    case Assign(_, e1) => ExprGrows(e1, p);
    case LandLor(_, chain, r) =>
      ChainGrows(chain, p);
      ExprGrows(r, Branch(AfterChain(chain, p)));
    case Cond(c, a, b) =>
      CondGrows(c, false, p);
      ExprGrows(a, AfterCond(c, false, p));
      ExprGrows(b, Branch(AfterExpr(a, AfterCond(c, false, p))));
  }

  lemma {:induction false} ChainGrows(chain: Chain, p: Pos)
    ensures Grows(p, AfterChain(chain, p))
    decreases chain, 1
  {
    match chain
    case First(e) => ExprGrows(e, p);
    case Link(l, r) =>
      ChainGrows(l, p);
      ExprGrows(r, Branch(AfterChain(l, p)));
  }

  lemma {:induction false} CondGrows(c: Expr, invert: bool, p: Pos)
    ensures Grows(p, AfterCond(c, invert, p)) && AfterCond(c, invert, p).pend == []
    ensures AfterCond(c, invert, p).at >= Flush(p).at + 3
    decreases c, 2
  {
    if IsNot(c) {
      CondGrows(c.e, !invert, p);
    } else if IsFused(c, invert) {
      ExprGrows(c.l, p);
      ExprGrows(c.r, AfterExpr(c.l, p));
    } else {
      ExprGrows(c, p);
    }
  }

  lemma {:induction false} GeneralGrows(e: Expr, p: Pos)
    ensures Grows(p, AfterGeneral(e, p))
  {
    if IsNot(e) {
      ExprGrows(e.e, p);
    } else if IsLess(e) {
      ExprGrows(e.l, p);
      ExprGrows(e.r, AfterExpr(e.l, p));
    } else {
      ExprGrows(e, p);
    }
  }

  lemma {:induction false} TestGrows(t: Test, p: Pos)
    ensures Grows(p, AfterTest(t, p))
  {
    if t.General? { GeneralGrows(Stripped(t.e), p); }
  }

  lemma {:induction false} StmtGrows(s: Stmt, p: Pos)
    ensures Grows(p, AfterStmt(s, p)) && (p.pend == [] ==> AfterStmt(s, p).pend == [])
    decreases s, 1
  {
    match s
    case Pop(e) => ExprGrows(e, p);
    case AssignVoid(_, e) => ExprGrows(e, p);
    case Two(s1, s2) =>
      StmtGrows(s1, p);
      StmtGrows(s2, AfterStmt(s1, p));
    case If(c, t, f) =>
      CondGrows(c, false, p);
      StmtGrows(t, AfterCond(c, false, p));
      StmtGrows(f, Branch(AfterStmt(t, AfterCond(c, false, p))));
    case Loop(_, _, _, _) => LoopGrows(s, p);
    case _ =>
  }

  lemma {:induction false} LoopGrows(s: Stmt, p: Pos)
    requires s.Loop?
    ensures
      var start, next, test, end := LoopStart(s, p), ContinuePos(s, p), TestPos(s, p), AfterStmt(s, p);
      && Grows(p, start) && Flush(p).at <= start.at && start.pend == []
      && Grows(start, AfterStmt(s.block, start)) && Grows(next, AfterStmt(s.inc, next))
      && start.at <= AfterStmt(s.block, start).at <= next.at <= AfterStmt(s.inc, next).at <= test.at
      && test.at <= AfterTest(s.test, test).at <= end.at
      && end.pend == []
    decreases s, 0
  {
    StmtGrows(s.block, LoopStart(s, p));
    StmtGrows(s.inc, ContinuePos(s, p));
    TestGrows(s.test, TestPos(s, p));
  }
}
