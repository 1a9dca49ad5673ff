/** The generated code of a statement runs like the statement: same locals, same stack, the same
    exits, and it loops forever exactly when the statement does. */
module Correctness {
  import opened Basics
  import opened Bytecode
  import opened ParseTree
  import opened Layout
  import opened Simulation

  /** No loop of s has a constant test that i_generate_loop mistakes for a loop opcode. */
  predicate HonestTests(s: Stmt) {
    match s
    case Two(s1, s2) => HonestTests(s1) && HonestTests(s2)
    case If(_, t, f) => HonestTests(t) && HonestTests(f)
    case Loop(_, block, _, test) => HonestTests(block) && !Mistaken(test)
    case _ => true
  }

  // ---------- Loop tests ----------

  lemma {:induction false} StrippedMeansTheSame(e: Expr, fr: Frame)
    ensures (Eval(Stripped(e), fr).0 != 0) == (Eval(e, fr).0 != 0)
    ensures Eval(Stripped(e), fr).1 == Eval(e, fr).1
  {}

  /** Where a loop test goes: back to the block or on. */
  function Next(go: bool, start: nat, q: Pos): nat { if go then start else Flush(q).at }

  /** The backward branches, on one value. */
  lemma {:induction false} BackBranchRuns(code: seq<Byte>, q: Pos, ifZero: bool, start: nat, m: State, stack: seq<Value>, v: int)
    returns (n: nat, m': State)
    requires BackBranch(code, q, if ifZero then F_BBRANCH_WHEN_ZERO else F_BBRANCH_WHEN_NON_ZERO, start)
    requires At(q, m, OnTop(stack, v))
    ensures n >= 1 && Gets(code, m, n, m')
    ensures m' == State(Next((v == 0) == ifZero, start, Branch(q)), stack, m.locals)
  {
    hide Reaches, Gets;
    ReachesNow(code, m);
    var op := if ifZero then F_BBRANCH_WHEN_ZERO else F_BBRANCH_WHEN_NON_ZERO;
    Arrive(code, q, [op], m, OnTop(stack, v));
    var m1 := Arrived(q, m, OnTop(stack, v));
    TopOf(m1, stack, v);
    m' := State(Next((v == 0) == ifZero, start, Branch(q)), stack, m.locals);
    var k := StepsOf(code, m, m1);
    GetsStep(code, m, k, m1);
    n := k + 1;
  }

  lemma {:induction false} LessBranchRuns(code: seq<Byte>, q: Pos, start: nat, m: State, stack: seq<Value>, a: int, b: int)
    returns (n: nat, m': State)
    requires BackBranch(code, q, F_BBRANCH_LT, start) && At(q, m, OnTop(OnTop(stack, a), b))
    ensures n >= 1 && Gets(code, m, n, m')
    ensures m' == State(Next(a < b, start, Branch(q)), stack, m.locals)
  {
    hide Reaches, Gets;
    ReachesNow(code, m);
    var s := OnTop(OnTop(stack, a), b);
    Arrive(code, q, [F_BBRANCH_LT], m, s);
    var m1 := Arrived(q, m, s);
    TopOf(m1, OnTop(stack, a), b);
    TopOf(Drop(m1, 1), stack, a);
    assert Drop(m1, 2).stack == stack;
    m' := State(Next(a < b, start, Branch(q)), stack, m.locals);
    var k := StepsOf(code, m, m1);
    GetsStep(code, m, k, m1);
    n := k + 1;
  }

  lemma {:induction false} GoBackRuns(code: seq<Byte>, q: Pos, start: nat, m: State)
    requires BackBranch(code, q, F_BBRANCH, start) && q.pend == [] && m.pc == q.at
    ensures Gets(code, m, 1, State(start, m.stack, m.locals))
  {
    assert code[m.pc + 0] == [F_BBRANCH][0];
    RunOne(code, m);
  }

  lemma {:induction false} CondLocalStep(code: seq<Byte>, x: Byte, y: Byte, start: nat, m: State)
    requires Has(code, m.pc, [F_LOOP_COND_LOCAL, x, y]) && LeadsBack(code, m.pc + 3, start)
    ensures Step(code, m) == Some(State(if m.locals[x] < m.locals[y] then start else m.pc + 5, m.stack, m.locals))
  {
    var b := [F_LOOP_COND_LOCAL, x, y];
    assert code[m.pc + 0] == b[0] && code[m.pc + 1] == b[1] && code[m.pc + 2] == b[2];
  }

  lemma {:induction false} CondNumberStep(code: seq<Byte>, x: Byte, k: Int32, start: nat, m: State)
    requires Has(code, m.pc, [F_LOOP_COND_NUMBER, x] + IntBytes(k)) && LeadsBack(code, m.pc + 6, start)
    ensures Step(code, m) == Some(State(if m.locals[x] < k then start else m.pc + 8, m.stack, m.locals))
  {
    var b := [F_LOOP_COND_NUMBER, x] + IntBytes(k);
    assert code[m.pc + 0] == b[0] && code[m.pc + 1] == b[1] && code[m.pc + 2] == b[2]
        && code[m.pc + 3] == b[3] && code[m.pc + 4] == b[4] && code[m.pc + 5] == b[5];
    assert Int(code, m.pc + 2) == Int(IntBytes(k), 0);
  }

  lemma {:induction false} WhileDecStep(code: seq<Byte>, x: Byte, start: nat, m: State)
    requires Has(code, m.pc, [F_WHILE_DEC, x]) && LeadsBack(code, m.pc + 2, start)
    ensures Step(code, m) == Some(State(if m.locals[x] != 0 then start else m.pc + 4, m.stack,
                                        m.locals[x := m.locals[x] - 1]))
  {
    var b := [F_WHILE_DEC, x];
    assert code[m.pc + 0] == b[0] && code[m.pc + 1] == b[1];
  }

  /** The three tests on locals. */
  lemma {:induction false} LocalTestRuns(code: seq<Byte>, t: Test, p: Pos, start: nat, m: State)
    requires !t.General? && HasTest(code, t, p, start) && p.pend == [] && m.pc == p.at
    ensures var (go, f) := EvalTest(t, m.locals);
      Gets(code, m, 1, State(Next(go, start, AfterTest(t, p)), m.stack, f))
  {
    hide Step, Has, LeadsBack;
    RunOne(code, m);
    match t
    case CondLocal(x, y) => CondLocalStep(code, x, y, start, m);
    case CondNumber(x, k) => CondNumberStep(code, x, k, start, m);
    case WhileDec(x) => WhileDecStep(code, x, start, m);
  }

  /** A test that is an expression, after x != 0 has become x. */
  lemma {:induction false} GeneralTestRuns(code: seq<Byte>, e: Expr, p: Pos, start: nat, m: State) returns (n: nat, m': State)
    requires HasGeneral(code, e, p, start) && p.pend == [] && At(p, m, m.stack)
    ensures
      var (v, f) := Eval(e, m.locals);
      && Gets(code, m, n, m') && (v != 0 ==> n >= 1)
      && m' == State(Next(v != 0, start, AfterGeneral(e, p)), m.stack, f)
  {
    hide Reaches, Gets, Step, HasExpr, AfterExpr, BackBranch;
    ReachesNow(code, m);
    if IsNot(e) {
      var m1 := ExprRuns(code, e.e, p, m, m.stack);
      var k := StepsOf(code, m, m1);
      n, m' := BackBranchRuns(code, AfterExpr(e.e, p), true, start, m1, m.stack, Eval(e.e, m.locals).0);
      GetsThen(code, m, k, m1, n, m');
      n := k + n;
    } else if e.Number? {
      n, m' := 0, m;
      if e.n != 0 {
        GoBackRuns(code, p, start, m);
        n, m' := 1, State(start, m.stack, m.locals);
      }
    } else if IsLess(e) {
      var m1 := OperandsRun(code, e, p, m, m.stack);
      var (a, fa) := Eval(e.l, m.locals);
      var k := StepsOf(code, m, m1);
      n, m' := LessBranchRuns(code, AfterExpr(e.r, AfterExpr(e.l, p)), start, m1, m.stack, a, Eval(e.r, fa).0);
      GetsThen(code, m, k, m1, n, m');
      n := k + n;
    } else {
      var m1 := ExprRuns(code, e, p, m, m.stack);
      var k := StepsOf(code, m, m1);
      n, m' := BackBranchRuns(code, AfterExpr(e, p), false, start, m1, m.stack, Eval(e, m.locals).0);
      GetsThen(code, m, k, m1, n, m');
      n := k + n;
    }
  }

  /** A test goes back to the block when it holds (at the cost of an instruction) and on otherwise. */
  lemma {:induction false} TestRuns(code: seq<Byte>, t: Test, p: Pos, start: nat, m: State) returns (n: nat, m': State)
    requires HasTest(code, t, p, start) && !Mistaken(t) && p.pend == [] && m.pc == p.at
    ensures
      var (go, f) := EvalTest(t, m.locals);
      && Gets(code, m, n, m') && (go ==> n >= 1)
      && m' == State(Next(go, start, AfterTest(t, p)), m.stack, f)
  {
    hide Gets, HasGeneral, AfterGeneral;
    if t.General? {
      Settled(p, m);
      n, m' := GeneralTestRuns(code, Stripped(t.e), p, start, m);
      StrippedMeansTheSame(t.e, m.locals);
    } else {
      var (go, f) := EvalTest(t, m.locals);
      LocalTestRuns(code, t, p, start, m);
      n, m' := 1, State(Next(go, start, AfterTest(t, p)), m.stack, f);
    }
  }

  // ---------- Statements ----------

  /** What n steps to m' mean for an outcome: the right exit with the right locals and an unchanged
      stack, or at least `fuel` steps spent. */
  predicate Matches(o: Outcome, m: State, fuel: nat, n: nat, m': State, end: nat, brk: nat, cont: nat) {
    match o
    case Done(f) => m' == State(end, m.stack, f)
    case Broke(f) => m' == State(brk, m.stack, f)
    case Continued(f) => m' == State(cont, m.stack, f)
    case Timeout => n >= fuel
  }

  function Consumer(to: Option<Byte>): seq<Byte> {
    match to
    case None => [F_POP_VALUE]
    case Some(x) => [F_VOID_ASSIGN_LOCAL, x]
  }

  function Consumed(m: State, to: Option<Byte>, stack: seq<Value>, v: int): State {
    State(m.pc + |Consumer(to)|, stack, if to.Some? then m.locals[to.value := v] else m.locals)
  }

  lemma {:induction false} ConsumeStep(code: seq<Byte>, to: Option<Byte>, m: State, stack: seq<Value>, v: int)
    requires Has(code, m.pc, Consumer(to)) && m.stack == OnTop(stack, v)
    ensures Step(code, m) == Some(Consumed(m, to, stack, v))
  {
    TopOf(m, stack, v);
    assert code[m.pc + 0] == Consumer(to)[0];
    if to.Some? { assert code[m.pc + 1] == Consumer(to)[1]; }
  }

  /** F_POP_VALUE, or F_VOID_ASSIGN_LOCAL to a local. */
  lemma {:induction false} ConsumeRuns(code: seq<Byte>, q: Pos, to: Option<Byte>, m: State, stack: seq<Value>, v: int)
    returns (n: nat, m': State)
    requires Emitted(code, q, Consumer(to)) && At(q, m, OnTop(stack, v))
    ensures Gets(code, m, n, m')
    ensures m' == State(Emit(q, |Consumer(to)|).at, stack,
                        if to.Some? then m.locals[to.value := v] else m.locals)
  {
    hide Reaches, Gets, Step, Has;
    var m1 := Arrived(q, m, OnTop(stack, v));
    Arrive(code, q, Consumer(to), m, OnTop(stack, v));
    ConsumeStep(code, to, m1, stack, v);
    m' := Consumed(m1, to, stack, v);
    var k := StepsOf(code, m, m1);
    GetsStep(code, m, k, m1);
    n := k + 1;
  }

  /** An expression whose value is consumed. */
  lemma {:induction false} ConsumedRuns(code: seq<Byte>, e: Expr, to: Option<Byte>, p: Pos, m: State) returns (n: nat, m': State)
    requires HasExpr(code, e, p) && Emitted(code, AfterExpr(e, p), Consumer(to)) && p.pend == [] && m.pc == p.at
    ensures
      var (v, f) := Eval(e, m.locals);
      && Gets(code, m, n, m')
      && m' == State(Emit(AfterExpr(e, p), |Consumer(to)|).at, m.stack,
                     if to.Some? then f[to.value := v] else f)
  {
    hide Gets, Reaches, HasExpr, Eval, Emitted, AfterExpr;
    Settled(p, m);
    var m1 := ExprRuns(code, e, p, m, m.stack);
    n, m' := ConsumeRuns(code, AfterExpr(e, p), to, m1, m.stack, Eval(e, m.locals).0);
    var k := StepsOf(code, m, m1);
    GetsThen(code, m, k, m1, n, m');
    n := k + n;
  }

  lemma {:induction false} IncrementRuns(code: seq<Byte>, x: Byte, p: Pos, m: State)
    requires Emitted(code, p, [F_LOOP_INCR, x]) && p.pend == [] && m.pc == p.at
    ensures Gets(code, m, 1, State(m.pc + 2, m.stack, m.locals[x := m.locals[x] + 1]))
  {
    assert code[m.pc + 0] == [F_LOOP_INCR, x][0] && code[m.pc + 1] == [F_LOOP_INCR, x][1];
    RunOne(code, m);
  }

  lemma {:induction false} SimpleRuns(code: seq<Byte>, s: Stmt, p: Pos, m: State) returns (n: nat, m': State)
    requires IsSimple(s) && HasStmt(code, s, p) && p.pend == [] && m.pc == p.at
    ensures Gets(code, m, n, m')
    ensures m' == State(AfterStmt(s, p).at, m.stack, Exec(s, m.locals, 0).fr)
  {
    hide Gets, HasExpr, Eval, Emitted, AfterExpr;
    ReachesNow(code, m);
    n, m' := 0, m;
    match s
    case Empty =>
    case Increment(x) =>
      IncrementRuns(code, x, p, m);
      n, m' := 1, State(m.pc + 2, m.stack, m.locals[x := m.locals[x] + 1]);
    case Pop(e) => n, m' := ConsumedRuns(code, e, None, p, m);
    case AssignVoid(x, e) => n, m' := ConsumedRuns(code, e, Some(x), p, m);
  }

  lemma {:induction false} StmtRuns(code: seq<Byte>, s: Stmt, p: Pos, m: State, fuel: nat, brk: nat, cont: nat)
    returns (n: nat, m': State)
    requires WellFormed(s) && HonestTests(s) && HasStmt(code, s, p) && p.pend == [] && m.pc == p.at
    requires AllLead(code, JumpHoles(s, p, true), brk) && AllLead(code, JumpHoles(s, p, false), cont)
    ensures Gets(code, m, n, m')
    ensures Matches(Exec(s, m.locals, fuel), m, fuel, n, m', AfterStmt(s, p).at, brk, cont)
    decreases fuel, s, 2
  {
    hide Gets, Reaches, Leads;
    if IsSimple(s) {
      n, m' := SimpleRuns(code, s, p, m);
      SimpleIgnoresFuel(s, m.locals, fuel);
    } else if s.Two? {
      n, m' := TwoRuns(code, s, p, m, fuel, brk, cont);
    } else if s.If? {
      n, m' := IfRuns(code, s, p, m, fuel, brk, cont);
    } else if s.Loop? {
      n, m' := LoopRuns(code, s, p, m, fuel);
      RoundsFinish(s, m.locals, fuel);
      RoundsFinish(s, EvalTest(s.test, m.locals).1, fuel);
    } else {
      assert JumpHoles(s, p, s.Break?)[0] == Hole(p);
      n, m' := LeaveRuns(code, p, if s.Break? then brk else cont, m);
    }
  }

  lemma {:induction false} TwoRuns(code: seq<Byte>, s: Stmt, p: Pos, m: State, fuel: nat, brk: nat, cont: nat)
    returns (n: nat, m': State)
    requires s.Two? && WellFormed(s) && HonestTests(s) && HasStmt(code, s, p) && p.pend == [] && m.pc == p.at
    requires AllLead(code, JumpHoles(s, p, true), brk) && AllLead(code, JumpHoles(s, p, false), cont)
    ensures Gets(code, m, n, m')
    ensures Matches(Exec(s, m.locals, fuel), m, fuel, n, m', AfterStmt(s, p).at, brk, cont)
    decreases fuel, s, 0
  {
    hide Gets, Leads;
    var q := AfterStmt(s.s1, p);
    LeadSplit(code, JumpHoles(s.s2, q, true), JumpHoles(s.s1, p, true), brk);
    LeadSplit(code, JumpHoles(s.s2, q, false), JumpHoles(s.s1, p, false), cont);
    hide AllLead, JumpHoles;
    StmtGrows(s.s1, p);
    n, m' := StmtRuns(code, s.s1, p, m, fuel, brk, cont);
    if Exec(s.s1, m.locals, fuel).Done? {
      var k, m2 := StmtRuns(code, s.s2, q, m', fuel, brk, cont);
      GetsThen(code, m, n, m', k, m2);
      n, m' := n + k, m2;
    }
  }

  lemma {:induction false} LeadSplit(code: seq<Byte>, a: seq<nat>, b: seq<nat>, target: nat)
    requires AllLead(code, a + b, target)
    ensures AllLead(code, a, target) && AllLead(code, b, target)
  {
    assert forall i :: 0 <= i < |a| ==> a[i] == (a + b)[i];
    assert forall i :: 0 <= i < |b| ==> b[i] == (a + b)[|a| + i];
  }

  lemma {:induction false} LeaveRuns(code: seq<Byte>, p: Pos, target: nat, m: State) returns (n: nat, m': State)
    requires BranchAt(code, p, F_BRANCH) && Leads(code, Hole(p), target) && p.pend == [] && m.pc == p.at
    ensures Gets(code, m, n, m') && m' == State(target, m.stack, m.locals)
  {
    hide Reaches, Gets;
    ReachesNow(code, m);
    Settled(p, m);
    GotoRuns(code, p, target, m, m.stack);
    m' := State(target, m.stack, m.locals);
    n := StepsOf(code, m, m');
  }

  /** The pieces of an if's code: its branch leads to the else part, or to the end. */
  function ElseStart(s: Stmt, p: Pos): Pos
    requires s.If?
  {
    var q1 := AfterStmt(s.t, AfterCond(s.c, false, p));
    if s.f.Empty? then Flush(q1) else Branch(q1)
  }

  lemma {:induction false} IfParts(code: seq<Byte>, s: Stmt, p: Pos)
    requires s.If? && HasStmt(code, s, p)
    ensures
      var q, r := AfterCond(s.c, false, p), ElseStart(s, p);
      && q.pend == r.pend == AfterStmt(s.t, q).pend == []
      && HasCond(code, s.c, false, p) && q.at >= 2 && Leads(code, q.at - 2, r.at)
      && HasStmt(code, s.t, q) && HasStmt(code, s.f, r) && AfterStmt(s.f, r) == AfterStmt(s, p)
      && (if s.f.Empty? then AfterStmt(s.t, q) == AfterStmt(s, p)
          else BranchAt(code, AfterStmt(s.t, q), F_BRANCH)
               && Leads(code, Hole(AfterStmt(s.t, q)), AfterStmt(s, p).at))
  {
    hide HasCond, AfterCond, Leads, BranchAt;
    CondGrows(s.c, false, p);
    StmtGrows(s.t, AfterCond(s.c, false, p));
    StmtGrows(s.f, ElseStart(s, p));
  }

  /** The jumps that leave an if are those of its parts. */
  lemma {:induction false} IfHoles(code: seq<Byte>, s: Stmt, p: Pos, isBreak: bool, target: nat)
    requires s.If? && AllLead(code, JumpHoles(s, p, isBreak), target)
    ensures AllLead(code, JumpHoles(s.t, AfterCond(s.c, false, p), isBreak), target)
    ensures AllLead(code, JumpHoles(s.f, ElseStart(s, p), isBreak), target)
  {
    hide Leads, AfterCond, AfterStmt;
    LeadSplit(code, if s.f.Empty? then [] else JumpHoles(s.f, ElseStart(s, p), isBreak),
              JumpHoles(s.t, AfterCond(s.c, false, p), isBreak), target);
  }

  lemma {:induction false} IfRuns(code: seq<Byte>, s: Stmt, p: Pos, m: State, fuel: nat, brk: nat, cont: nat)
    returns (n: nat, m': State)
    requires s.If? && WellFormed(s) && HonestTests(s) && HasStmt(code, s, p) && p.pend == [] && m.pc == p.at
    requires AllLead(code, JumpHoles(s, p, true), brk) && AllLead(code, JumpHoles(s, p, false), cont)
    ensures Gets(code, m, n, m')
    ensures Matches(Exec(s, m.locals, fuel), m, fuel, n, m', AfterStmt(s, p).at, brk, cont)
    decreases fuel, s, 0
  {
    hide Reaches, Gets, Run, Step, Eval, HasCond, AfterCond, AllLead, JumpHoles, HasStmt, AfterStmt, Leads,
      BranchAt, ElseStart;
    IfParts(code, s, p);
    IfHoles(code, s, p, true, brk);
    IfHoles(code, s, p, false, cont);
    var q, r := AfterCond(s.c, false, p), ElseStart(s, p);
    var (v, fv) := Eval(s.c, m.locals);
    Settled(p, m);
    var m1 := CondBranchRuns(code, s.c, false, p, r.at, m, m.stack);
    var k := StepsOf(code, m, m1);
    if v != 0 {
      n, m' := StmtRuns(code, s.t, q, m1, fuel, brk, cont);
      GetsThen(code, m, k, m1, n, m');
      n := k + n;
      if Exec(s.t, fv, fuel).Done? && !s.f.Empty? {
        var k2, m2 := LeaveRuns(code, AfterStmt(s.t, q), AfterStmt(s, p).at, m');
        GetsThen(code, m, n, m', k2, m2);
        n, m' := n + k2, m2;
      }
    } else {
      n, m' := StmtRuns(code, s.f, r, m1, fuel, brk, cont);
      GetsThen(code, m, k, m1, n, m');
      n := k + n;
    }
  }

  /** The pieces of a loop's code. */
  lemma {:induction false} LoopParts(code: seq<Byte>, s: Stmt, p: Pos)
    requires s.Loop? && HasLoop(code, s, p) && p.pend == []
    ensures
      var start, next, test := LoopStart(s, p), ContinuePos(s, p), TestPos(s, p);
      && start.pend == next.pend == test.pend == []
      && (Skips(s) ==> BranchAt(code, p, F_BRANCH) && Leads(code, Hole(p), test.at))
      && (!Skips(s) ==> start == p)
      && HasStmt(code, s.block, start) && AfterStmt(s.block, start) == next
      && AllLead(code, JumpHoles(s.block, start, true), AfterStmt(s, p).at)
      && AllLead(code, JumpHoles(s.block, start, false), next.at)
      && HasStmt(code, s.inc, next) && AfterStmt(s.inc, next) == test
      && HasTest(code, s.test, test, start.at) && Flush(AfterTest(s.test, test)).at == AfterStmt(s, p).at
  {
    hide HasTest, AfterTest, HasExpr, AfterExpr, Leads, BranchAt;
    StmtGrows(s.block, LoopStart(s, p));
    StmtGrows(s.inc, ContinuePos(s, p));
  }

  lemma {:induction false} ForeverHolds(t: Test, fr: Frame)
    requires Forever(t)
    ensures EvalTest(t, fr) == (true, fr)
  {}

  lemma {:induction false} LoopRuns(code: seq<Byte>, s: Stmt, p: Pos, m: State, fuel: nat)
    returns (n: nat, m': State)
    requires s.Loop? && WellFormed(s) && HonestTests(s) && HasLoop(code, s, p) && p.pend == [] && m.pc == p.at
    ensures Gets(code, m, n, m')
    ensures Matches(Exec(s, m.locals, fuel), m, fuel, n, m', AfterStmt(s, p).at, 0, 0)
    decreases fuel, s, 1
  {
    hide Gets, Step, HasTest, EvalTest, HasLoop, HasStmt, AfterStmt, ContinuePos, TestPos, LoopStart, AllLead,
      AfterTest, Rounds, BranchAt, Leads;
    LoopParts(code, s, p);
    var (go, f) := EvalTest(s.test, m.locals);
    RoundsFinish(s, f, fuel);
    if Skips(s) {
      var k1, m1 := LeaveRuns(code, p, TestPos(s, p).at, m);
      var k2, m2 := TestRuns(code, s.test, TestPos(s, p), LoopStart(s, p).at, m1);
      GetsThen(code, m, k1, m1, k2, m2);
      n, m' := k1 + k2, m2;
      if go {
        var k3, m3 := RoundsRun(code, s, p, m2, fuel);
        GetsThen(code, m, n, m2, k3, m3);
        n, m' := n + k3, m3;
      }
    } else {
      if s.testFirst { ForeverHolds(s.test, m.locals); }
      n, m' := RoundsRun(code, s, p, m, fuel);
      RoundsFinish(s, m.locals, fuel);
    }
  }

  /** From the start of the block: each round that goes on costs at least one instruction. */
  lemma {:induction false} RoundsRun(code: seq<Byte>, s: Stmt, p: Pos, m: State, fuel: nat)
    returns (n: nat, m': State)
    requires s.Loop? && WellFormed(s) && HonestTests(s) && HasLoop(code, s, p) && p.pend == []
    requires m.pc == LoopStart(s, p).at
    ensures Gets(code, m, n, m')
    ensures Matches(Rounds(s, m.locals, fuel), m, fuel, n, m', AfterStmt(s, p).at, 0, 0)
    decreases fuel, s, 0
  {
    hide Gets, Step, HasTest, EvalTest, HasLoop, HasStmt, AfterStmt, ContinuePos, TestPos, LoopStart, AllLead,
      AfterTest, BranchAt, Leads, Exec, Run;
    ReachesNow(code, m);
    n, m' := 0, m;
    if fuel > 0 {
      LoopParts(code, s, p);
      var start, next, test, end := LoopStart(s, p), ContinuePos(s, p), TestPos(s, p), AfterStmt(s, p).at;
      n, m' := StmtRuns(code, s.block, start, m, fuel, end, next.at);
      var o := Exec(s.block, m.locals, fuel);
      if o.Done? || o.Continued? {
        IncrementHasNoJumps(code, s.inc, next);
        IncrementFinishes(s.inc, o.fr, fuel);
        IncrementIsWellFormed(s.inc);
        var k1, m1 := StmtRuns(code, s.inc, next, m', fuel, end, end);
        GetsThen(code, m, n, m', k1, m1);
        var k2, m2 := TestRuns(code, s.test, test, start.at, m1);
        GetsThen(code, m, n + k1, m1, k2, m2);
        n, m' := n + k1 + k2, m2;
        if EvalTest(s.test, m1.locals).0 {
          var k3, m3 := RoundsRun(code, s, p, m2, fuel - 1);
          GetsThen(code, m, n, m2, k3, m3);
          n, m' := n + k3, m3;
          RoundsFinish(s, m2.locals, fuel - 1);
        }
      }
    }
  }

  lemma {:induction false} SimpleIgnoresFuel(s: Stmt, fr: Frame, fuel: nat)
    requires IsSimple(s)
    ensures Exec(s, fr, fuel) == Exec(s, fr, 0) && Exec(s, fr, 0).Done?
  {}

  lemma {:induction false} IncrementHasNoJumps(code: seq<Byte>, s: Stmt, p: Pos)
    requires IsIncrement(s)
    ensures HonestTests(s) && forall isBreak, target :: AllLead(code, JumpHoles(s, p, isBreak), target)
  {
    IncrementIsHonest(s);
    NoHolesInIncrement(s, p);
  }

  lemma {:induction false} IncrementIsHonest(s: Stmt)
    requires IsIncrement(s)
    ensures HonestTests(s)
    decreases s
  {
    match s
    case Two(s1, s2) =>
      IncrementIsHonest(s1);
      IncrementIsHonest(s2);
    case If(_, t, f) =>
      IncrementIsHonest(t);
      IncrementIsHonest(f);
    case _ =>
  }

  // ---------- Whole programs ----------

  const ORIGIN: Pos := Pos(0, [])

  function Start(fr: Frame): State { State(0, [], fr) }

  /** The code is exactly a translation of s. */
  predicate Translates(code: seq<Byte>, s: Stmt) {
    HasStmt(code, s, ORIGIN) && |code| == AfterStmt(s, ORIGIN).at
  }

  /** The machine started at m comes to a stop in h. */
  ghost predicate Stops(code: seq<Byte>, m: State, h: State) {
    Reaches(code, m, h) && Step(code, h).None?
  }

  /** The statement ends, with locals f. */
  ghost predicate Ends(s: Stmt, fr: Frame, f: Frame) {
    exists fuel: nat :: Exec(s, fr, fuel) == Done(f)
  }

  lemma {:induction false} ClosedHasNoHoles(s: Stmt, p: Pos, isBreak: bool)
    requires Closed(s)
    ensures JumpHoles(s, p, isBreak) == []
    decreases s
  {
    match s
    case Two(s1, s2) =>
      ClosedHasNoHoles(s1, p, isBreak);
      ClosedHasNoHoles(s2, AfterStmt(s1, p), isBreak);
    case If(c, t, f) =>
      ClosedHasNoHoles(t, AfterCond(c, false, p), isBreak);
      ClosedHasNoHoles(f, Branch(AfterStmt(t, AfterCond(c, false, p))), isBreak);
    case _ =>
  }

  lemma {:induction false} StopsOnce(code: seq<Byte>, m: State, n: nat, h: State, k: nat)
    requires Gets(code, m, n, h) && Step(code, h).None? && Run(code, m, k).Some?
    ensures k <= n
  {
    hide Step;
    if k > n {
      RunPlus(code, m, n, k - n);
    }
  }

  lemma {:induction false} ProgramRuns(code: seq<Byte>, s: Stmt, fr: Frame, fuel: nat) returns (n: nat, m': State)
    requires WellFormed(s) && HonestTests(s) && Closed(s) && Translates(code, s)
    ensures Gets(code, Start(fr), n, m')
    ensures Exec(s, fr, fuel).Timeout? ==> n >= fuel
    ensures !Exec(s, fr, fuel).Timeout? ==>
      Exec(s, fr, fuel).Done? && m' == State(|code|, [], Exec(s, fr, fuel).fr)
  {
    hide Step, Gets, HasStmt, AfterStmt;
    ClosedHasNoHoles(s, ORIGIN, true);
    ClosedHasNoHoles(s, ORIGIN, false);
    ClosedFinishes(s, fr, fuel);
    n, m' := StmtRuns(code, s, ORIGIN, Start(fr), fuel, 0, 0);
  }

  /** The main theorem: for every program without the mistaken loop tests and every initial locals,
      the machine running its code stops exactly when the program ends, and then at the end of the
      code, with an empty stack and the program's locals.  In particular it never gets stuck. */
  lemma {:induction false} CodeIsFaithful(code: seq<Byte>, s: Stmt, fr: Frame, h: State)
    requires WellFormed(s) && HonestTests(s) && Closed(s) && Translates(code, s)
    ensures Stops(code, Start(fr), h) <==> h == State(|code|, [], h.locals) && Ends(s, fr, h.locals)
  {
    hide Step, Gets, HasStmt, AfterStmt, Exec, WellFormed, HonestTests, Closed, Translates;
    if Stops(code, Start(fr), h) {
      var n := StepsOf(code, Start(fr), h);
      var k, m' := ProgramRuns(code, s, fr, n + 1);
      GetsIsRun(code, Start(fr), k, m');
      StopsOnce(code, Start(fr), n, h, k);
      EndStops(code, m');
      GetsIsRun(code, Start(fr), n, h);
      StopsOnce(code, Start(fr), k, m', n);
      SameSteps(code, Start(fr), n, h, m');
    }
    if h == State(|code|, [], h.locals) && Ends(s, fr, h.locals) {
      var fuel: nat :| Exec(s, fr, fuel) == Done(h.locals);
      var n, m' := ProgramRuns(code, s, fr, fuel);
      EndStops(code, h);
    }
  }

  lemma {:induction false} EndStops(code: seq<Byte>, h: State)
    ensures h.pc == |code| ==> Step(code, h).None?
  {}

  lemma {:induction false} GetsIsRun(code: seq<Byte>, m: State, n: nat, h: State)
    requires Gets(code, m, n, h)
    ensures Run(code, m, n).Some?
  {}

  lemma {:induction false} SameSteps(code: seq<Byte>, m: State, n: nat, h: State, h': State)
    requires Gets(code, m, n, h) && Gets(code, m, n, h')
    ensures h == h'
  {}

  lemma {:induction false} ConstantLoopNeverEnds(s: Stmt, fr: Frame, fuel: nat)
    requires s.Loop? && s.block.Empty? && s.inc.Empty? && Forever(s.test)
    ensures Rounds(s, fr, fuel).Timeout?
    decreases fuel
  {
    if fuel > 0 { ConstantLoopNeverEnds(s, fr, fuel - 1); }
  }

  lemma {:induction false} SmallLoop(s: Stmt)
    requires s.Loop? && s.block.Empty? && s.inc.Empty?
    ensures WellFormed(s) && Closed(s) && (HonestTests(s) <==> !Mistaken(s.test))
  {}

  /** `while (n) ;` for a nonzero constant n runs forever; its code does so exactly when n is not the
      number of one of the three loop opcodes. */
  lemma {:induction false} ConstantLoopStops(code: seq<Byte>, s: Stmt, fr: Frame)
    requires s.Loop? && s.block.Empty? && s.inc.Empty? && Forever(s.test) && Translates(code, s)
    ensures forall f :: !Ends(s, fr, f)
    ensures (exists h :: Stops(code, Start(fr), h)) <==> Mistaken(s.test)
  {
    EmptyLoopNeverEnds(s, fr);
    SmallLoop(s);
    hide Ends, Exec, Step, Reaches, Stops, Translates, WellFormed, Closed, HonestTests, Mistaken;
    if Mistaken(s.test) {
      MistakenLoopStops(code, s, fr);
    } else {
      forall h ensures !Stops(code, Start(fr), h) { CodeIsFaithful(code, s, fr, h); }
    }
  }

  lemma {:induction false} EmptyLoopNeverEnds(s: Stmt, fr: Frame)
    requires s.Loop? && s.block.Empty? && s.inc.Empty? && Forever(s.test)
    ensures forall f :: !Ends(s, fr, f)
  {
    forall fuel: nat ensures Exec(s, fr, fuel).Timeout? { ConstantLoopNeverEnds(s, fr, fuel); }
  }

  lemma {:induction false} EmptyTakesNothing(s: Stmt, p: Pos)
    requires s.Empty?
    ensures AfterStmt(s, p) == p
  {}

  lemma {:induction false} MistakenLength(t: Test, p: Pos)
    requires Mistaken(t)
    ensures AfterTest(t, p) == Emit(p, 4)
  {}

  lemma {:induction false} EmptyLoop(code: seq<Byte>, s: Stmt, p: Pos)
    requires s.Loop? && s.block.Empty? && s.inc.Empty? && Mistaken(s.test)
    requires p.pend == [] && HasLoop(code, s, p)
    ensures HasTest(code, s.test, p, p.at) && AfterStmt(s, p).at == p.at + 4
  {
    hide HasLoop, HasStmt, AfterStmt, ContinuePos, TestPos, HasTest, AfterTest, AllLead, JumpHoles;
    LoopParts(code, s, p);
    EmptyTakesNothing(s.block, p);
    EmptyTakesNothing(s.inc, p);
    MistakenLength(s.test, p);
  }

  lemma {:induction false} MistakenShape(code: seq<Byte>, t: Test, p: Pos, start: nat)
    requires Mistaken(t) && HasTest(code, t, p, start)
    ensures Emitted(code, p, [F_BYTE, t.e.n]) && LeadsBack(code, Emit(p, 2).at, start)
  {
    hide HasGeneral, Emitted, LeadsBack;
  }

  lemma {:induction false} PlainPosition(code: seq<Byte>, p: Pos, n: Byte)
    requires Emitted(code, p, [F_BYTE, n]) && LeadsBack(code, Emit(p, 2).at, p.at) && p.pend == []
    ensures Has(code, p.at, [F_BYTE, n]) && p.at + 4 <= |code| && Short(code, p.at + 2) == 2
  {}

  lemma {:induction false} MistakenLoopBytes(code: seq<Byte>, s: Stmt, p: Pos)
    requires s.Loop? && s.block.Empty? && s.inc.Empty? && Mistaken(s.test)
    requires p.pend == [] && HasLoop(code, s, p)
    ensures AfterStmt(s, p).at == p.at + 4 <= |code|
    ensures Has(code, p.at, [F_BYTE, s.test.e.n]) && Short(code, p.at + 2) == 2
  {
    hide HasTest, AfterTest, HasLoop, AfterStmt, Emitted, LeadsBack;
    EmptyLoop(code, s, p);
    MistakenShape(code, s.test, p, p.at);
    PlainPosition(code, p, s.test.e.n);
  }

  lemma {:induction false} FourBytes(code: seq<Byte>, at: nat, n: Byte)
    requires at == 0 && Has(code, at, [F_BYTE, n]) && |code| == at + 4 && Short(code, at + 2) == 2
    ensures code == [F_BYTE, n, F_PUSH, 0]
  {
    assert code[at + 0] == [F_BYTE, n][0] && code[at + 1] == [F_BYTE, n][1];
  }

  /** The offset 2 that is meant to take the loop back is executed as F_PUSH of nothing. */
  lemma {:induction false} MistakenLoopStops(code: seq<Byte>, s: Stmt, fr: Frame)
    requires s.Loop? && s.block.Empty? && s.inc.Empty? && Mistaken(s.test) && Translates(code, s)
    ensures code == [F_BYTE, s.test.e.n, F_PUSH, 0]
    ensures Stops(code, Start(fr), State(4, [Value.Num(s.test.e.n)], fr))
  {
    hide Stops, HasLoop, AfterStmt;
    MistakenLoopBytes(code, s, ORIGIN);
    FourBytes(code, ORIGIN.at, s.test.e.n);
    StrayOffsetRuns(code, s.test.e.n, fr);
  }

  lemma {:induction false} StrayOffsetRuns(code: seq<Byte>, n: Byte, fr: Frame)
    requires code == [F_BYTE, n, F_PUSH, 0]
    ensures Stops(code, Start(fr), State(4, [Value.Num(n)], fr))
  {
    var m1 := State(2, [Value.Num(n)], fr);
    assert Start(fr).stack + [Value.Num(n)] == m1.stack;
    assert Step(code, Start(fr)) == Some(m1);
    assert code[4..4] == [] && m1.stack + [] == m1.stack;
    assert Step(code, m1) == Some(State(4, m1.stack, fr));
    EndStops(code, State(4, m1.stack, fr));
    hide Step, Reaches, Gets;
    ReachesNow(code, Start(fr));
    ReachesStep(code, Start(fr), Start(fr), m1);
    ReachesStep(code, Start(fr), m1, State(4, m1.stack, fr));
  }
}
