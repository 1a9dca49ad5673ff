/** Code that has the shape of a translation runs like the tree it translates. */
module Simulation {
  import opened Basics
  import opened Bytecode
  import opened ParseTree
  import opened Layout

  /** The value of a pending push. */
  function PushValue(u: Push, fr: Frame): Value {
    Value.Num(if u.PushNumber? then u.v else fr[u.v])
  }

  function Values(us: seq<Push>, fr: Frame): seq<Value> {
    seq(|us|, i requires 0 <= i < |us| => PushValue(us[i], fr))
  }

  /** The machine stands before the pending pushes of p; with them its stack would be `stack`. */
  predicate At(p: Pos, m: State, stack: seq<Value>) {
    m.pc == p.at && m.stack + Values(p.pend, m.locals) == stack
  }

  // ---------- Pending pushes ----------

  lemma {:induction false} PushAllPushes(bytes: seq<Byte>, us: seq<Push>, fr: Frame)
    requires bytes == PushBytes(us) && forall i :: 0 <= i < |us| ==> Small(us[i])
    ensures PushAll(bytes, fr) == Some(Values(us, fr))
  {
    if us != [] {
      PushAllPushes(bytes[1..], us[1..], fr);
      assert PushedValue(bytes[0], fr) == Some(PushValue(us[0], fr));
      assert Values(us, fr) == [PushValue(us[0], fr)] + Values(us[1..], fr);
    }
  }

  lemma {:induction false} SingleRuns(code: seq<Byte>, u: Push, m: State)
    requires Has(code, m.pc, Single(u))
    ensures Step(code, m) == Some(Pushed(m, |Single(u)|, PushValue(u, m.locals)))
  {
    var b := Single(u);
    assert code[m.pc] == code[m.pc + 0] == b[0];
    if |b| == 2 { assert code[m.pc + 1] == b[1]; }
  }

  lemma {:induction false} MergedRuns(code: seq<Byte>, us: seq<Push>, m: State)
    requires 1 < |us| < 256 && (forall i :: 0 <= i < |us| ==> Small(us[i]))
    requires Has(code, m.pc, Encoding(us))
    ensures Step(code, m) ==
      Some(m.(pc := m.pc + 2 + |us|, stack := m.stack + Values(us, m.locals)))
  {
    var b := Encoding(us);
    assert code[m.pc] == code[m.pc + 0] == b[0] && code[m.pc + 1] == b[1] == |us|;
    var operands := code[m.pc + 2..m.pc + 2 + |us|];
    forall i | 0 <= i < |us|
      ensures operands[i] == PushBytes(us)[i]
    {
      assert code[m.pc + (2 + i)] == b[2 + i];
    }
    PushAllPushes(operands, us, m.locals);
  }

  /** One run of pushes, single or merged, does what its pushes do one by one. */
  lemma {:induction false} FlushRuns(code: seq<Byte>, p: Pos, m: State, stack: seq<Value>)
    requires Flushed(code, p) && At(p, m, stack)
    ensures Reaches(code, m, State(Flush(p).at, stack, m.locals))
  {
    hide Reaches, Gets;
    var us := p.pend;
    ReachesNow(code, m);
    if us == [] {
      assert m.stack + Values(us, m.locals) == m.stack;
    } else {
      if |us| == 1 {
        assert Values(us, m.locals) == [PushValue(us[0], m.locals)];
        SingleRuns(code, us[0], m);
      } else {
        MergedRuns(code, us, m);
      }
      ReachesStep(code, m, m, State(Flush(p).at, stack, m.locals));
    }
  }

  /** The machine after end_pushes at p. */
  function Arrived(p: Pos, m: State, stack: seq<Value>): State {
    State(Flush(p).at, stack, m.locals)
  }

  lemma {:induction false} Arrive(code: seq<Byte>, p: Pos, bytes: seq<Byte>, m: State, stack: seq<Value>)
    requires Emitted(code, p, bytes) && At(p, m, stack) && bytes != []
    ensures Reaches(code, m, Arrived(p, m, stack))
    ensures code[Flush(p).at] == bytes[0]
  {
    hide Reaches, Gets;
    FlushRuns(code, p, m, stack);
    assert code[Flush(p).at + 0] == bytes[0];
  }

  /** Nothing is pending behind a finished instruction. */
  lemma {:induction false} Settled(q: Pos, m: State)
    requires m.pc == q.at && q.pend == []
    ensures At(q, m, m.stack)
  {
    assert m.stack + Values(q.pend, m.locals) == m.stack;
  }

  /** The instruction emitted at p takes the machine to m'. */
  lemma {:induction false} ThenStep(code: seq<Byte>, p: Pos, bytes: seq<Byte>, m: State, stack: seq<Value>, m': State)
    requires Emitted(code, p, bytes) && At(p, m, stack) && bytes != []
    requires Step(code, Arrived(p, m, stack)) == Some(m')
    ensures Reaches(code, m, m') && At(Pos(m'.pc, []), m', m'.stack)
  {
    hide Reaches, Gets;
    Arrive(code, p, bytes, m, stack);
    ReachesStep(code, m, Arrived(p, m, stack), m');
    Settled(Pos(m'.pc, []), m');
  }

  /** Adding a push, merged or not. */
  lemma {:induction false} PushRuns(code: seq<Byte>, p: Pos, u: Push, m: State, stack: seq<Value>) returns (m': State)
    requires PushedAt(code, p, u) && At(p, m, stack)
    ensures Reaches(code, m, m') && At(Pushing(p, u), m', stack + [PushValue(u, m.locals)])
    ensures m'.locals == m.locals
  {
    hide Reaches, Gets;
    var p' := Pos(p.at, p.pend + [u]);
    var stack' := stack + [PushValue(u, m.locals)];
    assert Values(p'.pend, m.locals) == Values(p.pend, m.locals) + [PushValue(u, m.locals)];
    ReachesNow(code, m);
    m' := m;
    if |p.pend| == 254 {
      FlushRuns(code, p', m, stack');
      m' := Arrived(p', m, stack');
      Settled(Flush(p'), m');
    }
  }

  // ---------- Single instructions ----------

  function OnTop(stack: seq<Value>, v: int): seq<Value> { stack + [Value.Num(v)] }

  lemma {:induction false} TopOf(m: State, stack: seq<Value>, v: int)
    requires m.stack == OnTop(stack, v)
    ensures Top(m) == Some(v) && Drop(m, 1).stack == stack
  {}

  lemma {:induction false} BinaryStep(code: seq<Byte>, m: State, stack: seq<Value>, op: BinaryOp, a: int, b: int)
    requires m.pc < |code| && code[m.pc] == BinaryCode(op) && m.stack == OnTop(OnTop(stack, a), b)
    ensures Step(code, m) == Some(State(m.pc + 1, OnTop(stack, Apply(op, a, b)), m.locals))
  {
    TopOf(m, OnTop(stack, a), b);
    TopOf(Drop(m, 1), stack, a);
    assert Drop(m, 2).stack == stack;
  }

  lemma {:induction false} UnaryStep(code: seq<Byte>, m: State, stack: seq<Value>, uop: UnaryOp, a: int)
    requires m.pc < |code| && code[m.pc] == (if uop.Not? then F_NOT else F_NEGATE)
    requires m.stack == OnTop(stack, a)
    ensures Step(code, m) ==
      Some(State(m.pc + 1, OnTop(stack, if uop.Not? then Truth(a == 0) else -a), m.locals))
  {
    TopOf(m, stack, a);
  }

  lemma {:induction false} AssignRuns(code: seq<Byte>, m: State, stack: seq<Value>, x: Byte, a: int)
    requires Has(code, m.pc, [F_LOCAL_LVALUE, x, F_ASSIGN]) && m.stack == OnTop(stack, a)
    ensures Reaches(code, m, State(m.pc + 3, m.stack, m.locals[x := a]))
  {
    hide Reaches, Gets;
    var b := [F_LOCAL_LVALUE, x, F_ASSIGN];
    assert code[m.pc + 0] == b[0] && code[m.pc + 1] == b[1] && code[m.pc + 2] == b[2];
    var m1 := State(m.pc + 2, m.stack + [Ref(x)], m.locals);
    ReachesNow(code, m);
    ReachesStep(code, m, m, m1);
    assert Drop(m1, 1).stack == m.stack;
    ReachesStep(code, m, m1, State(m.pc + 3, m.stack, m.locals[x := a]));
  }

  /** The branch of && and ||: a deciding value stays and jumps, another one is dropped. */
  lemma {:induction false} LogicStep(code: seq<Byte>, m: State, stack: seq<Value>, isAnd: bool, a: int, target: nat)
    requires m.pc + 3 <= |code| && code[m.pc] == LogicCode(isAnd) && Leads(code, m.pc + 1, target)
    requires m.stack == OnTop(stack, a)
    ensures Step(code, m) == Some(if Decides(isAnd, a) then State(target, m.stack, m.locals)
                                  else State(m.pc + 3, stack, m.locals))
  {
    TopOf(m, stack, a);
  }

  /** A branch on a truth value; F_BRANCH_WHEN_ZERO when not inverted. */
  lemma {:induction false} PlainBranchStep(code: seq<Byte>, m: State, stack: seq<Value>, invert: bool, a: int, target: nat)
    requires m.pc + 3 <= |code| && code[m.pc] == PlainBranch(invert) && Leads(code, m.pc + 1, target)
    requires m.stack == OnTop(stack, a)
    ensures Step(code, m) ==
      Some(State(if (a != 0) == invert then target else m.pc + 3, stack, m.locals))
  {
    TopOf(m, stack, a);
  }

  /** A branch folded with a comparison. */
  lemma {:induction false} FusedBranchStep(code: seq<Byte>, m: State, stack: seq<Value>, op: BinaryOp, invert: bool,
                        a: int, b: int, target: nat)
    requires FusedBranch(op, invert).Some?
    requires m.pc + 3 <= |code| && code[m.pc] == FusedBranch(op, invert).value
    requires Leads(code, m.pc + 1, target) && m.stack == OnTop(OnTop(stack, a), b)
    ensures Step(code, m) ==
      Some(State(if (Apply(op, a, b) != 0) == invert then target else m.pc + 3, stack, m.locals))
  {
    TopOf(m, OnTop(stack, a), b);
    TopOf(Drop(m, 1), stack, a);
    assert Drop(m, 2).stack == stack;
  }

  lemma {:induction false} BinaryRuns(code: seq<Byte>, q: Pos, op: BinaryOp, m: State, stack: seq<Value>, a: int, b: int)
    returns (m': State)
    requires Emitted(code, q, [BinaryCode(op)]) && At(q, m, OnTop(OnTop(stack, a), b))
    ensures Reaches(code, m, m') && At(Emit(q, 1), m', OnTop(stack, Apply(op, a, b)))
    ensures m'.locals == m.locals
  {
    hide Reaches, Gets;
    var s := OnTop(OnTop(stack, a), b);
    Arrive(code, q, [BinaryCode(op)], m, s);
    BinaryStep(code, Arrived(q, m, s), stack, op, a, b);
    m' := State(Flush(q).at + 1, OnTop(stack, Apply(op, a, b)), m.locals);
    ThenStep(code, q, [BinaryCode(op)], m, s, m');
  }

  lemma {:induction false} UnaryRuns(code: seq<Byte>, q: Pos, uop: UnaryOp, m: State, stack: seq<Value>, a: int)
    returns (m': State)
    requires Emitted(code, q, [if uop.Not? then F_NOT else F_NEGATE]) && At(q, m, OnTop(stack, a))
    ensures Reaches(code, m, m')
    ensures At(Emit(q, 1), m', OnTop(stack, if uop.Not? then Truth(a == 0) else -a))
    ensures m'.locals == m.locals
  {
    hide Reaches, Gets;
    var bytes := [if uop.Not? then F_NOT else F_NEGATE];
    Arrive(code, q, bytes, m, OnTop(stack, a));
    UnaryStep(code, Arrived(q, m, OnTop(stack, a)), stack, uop, a);
    m' := State(Flush(q).at + 1, OnTop(stack, if uop.Not? then Truth(a == 0) else -a), m.locals);
    ThenStep(code, q, bytes, m, OnTop(stack, a), m');
  }

  lemma {:induction false} AssignExprRuns(code: seq<Byte>, q: Pos, x: Byte, m: State, stack: seq<Value>, a: int)
    returns (m': State)
    requires Emitted(code, q, [F_LOCAL_LVALUE, x, F_ASSIGN]) && At(q, m, OnTop(stack, a))
    ensures Reaches(code, m, m') && At(Emit(q, 3), m', OnTop(stack, a))
    ensures m'.locals == m.locals[x := a]
  {
    hide Reaches, Gets;
    var m2 := Arrived(q, m, OnTop(stack, a));
    Arrive(code, q, [F_LOCAL_LVALUE, x, F_ASSIGN], m, OnTop(stack, a));
    AssignRuns(code, m2, stack, x, a);
    m' := State(m2.pc + 3, m2.stack, m2.locals[x := a]);
    ReachesThen(code, m, m2, m');
    Settled(Emit(q, 3), m');
  }

  lemma {:induction false} LocalRuns(code: seq<Byte>, x: Byte, p: Pos, m: State, stack: seq<Value>) returns (m': State)
    requires HasExpr(code, Local(x), p) && At(p, m, stack)
    ensures Reaches(code, m, m') && At(AfterExpr(Local(x), p), m', OnTop(stack, m.locals[x]))
    ensures m'.locals == m.locals
  {
    hide Reaches, Gets;
    if x <= PUSH_MASK {
      m' := PushRuns(code, p, PushLocal(x), m, stack);
    } else {
      Arrive(code, p, [F_LOCAL, x], m, stack);
      assert code[Flush(p).at + 1] == [F_LOCAL, x][1];
      m' := State(Flush(p).at + 2, OnTop(stack, m.locals[x]), m.locals);
      ThenStep(code, p, [F_LOCAL, x], m, stack, m');
    }
  }

  /** The branch of && and || (its opcode is at Flush(q).at) with value v on top. */
  lemma {:induction false} LogicRuns(code: seq<Byte>, q: Pos, isAnd: bool, end: nat, m: State, stack: seq<Value>, v: int)
    returns (m': State)
    requires Flushed(code, q) && Branch(q).at <= |code| && code[Flush(q).at] == LogicCode(isAnd)
    requires Leads(code, Hole(q), end) && At(q, m, OnTop(stack, v))
    ensures Reaches(code, m, m')
    ensures if Decides(isAnd, v) then m' == State(end, OnTop(stack, v), m.locals)
            else m' == State(Branch(q).at, stack, m.locals) && At(Branch(q), m', stack)
  {
    hide Reaches, Gets;
    var m2 := Arrived(q, m, OnTop(stack, v));
    FlushRuns(code, q, m, OnTop(stack, v));
    LogicStep(code, m2, stack, isAnd, v, end);
    m' := if Decides(isAnd, v) then State(end, m2.stack, m.locals) else State(m2.pc + 3, stack, m.locals);
    ReachesStep(code, m, m2, m');
    if !Decides(isAnd, v) { Settled(Branch(q), m'); }
  }

  lemma {:induction false} PlainBranchRuns(code: seq<Byte>, q: Pos, invert: bool, target: nat, m: State, stack: seq<Value>, a: int)
    requires BranchAt(code, q, PlainBranch(invert)) && Leads(code, Hole(q), target) && At(q, m, OnTop(stack, a))
    ensures Reaches(code, m, State(if (a != 0) == invert then target else Branch(q).at, stack, m.locals))
  {
    hide Reaches, Gets;
    var m1 := Arrived(q, m, OnTop(stack, a));
    Arrive(code, q, [PlainBranch(invert)], m, OnTop(stack, a));
    PlainBranchStep(code, m1, stack, invert, a, target);
    ReachesStep(code, m, m1, State(if (a != 0) == invert then target else Branch(q).at, stack, m.locals));
  }

  lemma {:induction false} FusedBranchRuns(code: seq<Byte>, q: Pos, op: BinaryOp, invert: bool, target: nat, m: State,
                        stack: seq<Value>, a: int, b: int)
    requires FusedBranch(op, invert).Some? && BranchAt(code, q, FusedBranch(op, invert).value)
    requires Leads(code, Hole(q), target) && At(q, m, OnTop(OnTop(stack, a), b))
    ensures Reaches(code, m, State(if (Apply(op, a, b) != 0) == invert then target else Branch(q).at,
                                   stack, m.locals))
  {
    hide Reaches, Gets, Apply;
    var s := OnTop(OnTop(stack, a), b);
    Arrive(code, q, [FusedBranch(op, invert).value], m, s);
    FusedBranchStep(code, Arrived(q, m, s), stack, op, invert, a, b, target);
    ReachesStep(code, m, Arrived(q, m, s),
                State(if (Apply(op, a, b) != 0) == invert then target else Branch(q).at, stack, m.locals));
  }

  /** An unconditional forward branch after end_pushes. */
  lemma {:induction false} GotoRuns(code: seq<Byte>, q: Pos, target: nat, m: State, stack: seq<Value>)
    requires BranchAt(code, q, F_BRANCH) && Leads(code, Hole(q), target) && At(q, m, stack)
    ensures Reaches(code, m, State(target, stack, m.locals))
  {
    hide Reaches, Gets, Flushed, Short, Int;
    Arrive(code, q, [F_BRANCH], m, stack);
    ReachesStep(code, m, Arrived(q, m, stack), State(target, stack, m.locals));
  }

  // ---------- Expressions ----------

  lemma {:induction false} NumberRuns(code: seq<Byte>, k: Int32, p: Pos, m: State, stack: seq<Value>) returns (m': State)
    requires HasExpr(code, Number(k), p) && At(p, m, stack)
    ensures Reaches(code, m, m') && At(AfterNumber(k, p), m', OnTop(stack, k))
    ensures m'.locals == m.locals
  {
    hide Reaches, Gets;
    if 0 <= k <= PUSH_MASK {
      m' := PushRuns(code, p, PushNumber(k), m, stack);
    } else {
      var bytes := if 0 <= k < 256 then [F_BYTE, k] else if -256 < k < 0 then [F_NBYTE, -(k as int)]
                   else [F_NUMBER] + IntBytes(k);
      Arrive(code, p, bytes, m, stack);
      var at := Flush(p).at;
      assert code[at + 1] == bytes[1];
      if |bytes| == 5 {
        assert code[at + 2] == bytes[2] && code[at + 3] == bytes[3] && code[at + 4] == bytes[4];
        assert Int(code, at + 1) == Int(IntBytes(k), 0);
      }
      m' := State(at + |bytes|, OnTop(stack, k), m.locals);
      ThenStep(code, p, bytes, m, stack, m');
    }
  }

  lemma {:induction false} ExprRuns(code: seq<Byte>, e: Expr, p: Pos, m: State, stack: seq<Value>)
    returns (m': State)
    requires HasExpr(code, e, p) && At(p, m, stack)
    ensures Reaches(code, m, m') && At(AfterExpr(e, p), m', OnTop(stack, Eval(e, m.locals).0))
    ensures m'.locals == Eval(e, m.locals).1
    decreases e, 1
  {
    hide Reaches, Gets;
    match e
    case Number(k) =>
      m' := NumberRuns(code, k, p, m, stack);
    case Local(x) =>
      m' := LocalRuns(code, x, p, m, stack);
    case Binary(op, l, r) =>
      var (a, fa) := Eval(l, m.locals);
      var b := Eval(r, fa).0;
      var m2 := OperandsRun(code, e, p, m, stack);
      m' := BinaryRuns(code, AfterExpr(r, AfterExpr(l, p)), op, m2, stack, a, b);
      ReachesThen(code, m, m2, m');
    case Unary(uop, e1) =>
      var m1 := ExprRuns(code, e1, p, m, stack);
      m' := UnaryRuns(code, AfterExpr(e1, p), uop, m1, stack, Eval(e1, m.locals).0);
      ReachesThen(code, m, m1, m');
    case Assign(x, e1) =>
      var m1 := ExprRuns(code, e1, p, m, stack);
      m' := AssignExprRuns(code, AfterExpr(e1, p), x, m1, stack, Eval(e1, m.locals).0);
      ReachesThen(code, m, m1, m');
    case LandLor(isAnd, chain, r) =>
      m' := LandLorRuns(code, e, p, m, stack);
    case Cond(c, a, b) =>
      m' := CondRuns(code, e, p, m, stack);
  }

  lemma {:induction false} OperandsRun(code: seq<Byte>, e: Expr, p: Pos, m: State, stack: seq<Value>)
    returns (m': State)
    requires e.Binary? && At(p, m, stack)
    requires HasExpr(code, e.l, p) && HasExpr(code, e.r, AfterExpr(e.l, p))
    ensures
      var (a, fa) := Eval(e.l, m.locals);
      var (b, fb) := Eval(e.r, fa);
      && Reaches(code, m, m') && At(AfterExpr(e.r, AfterExpr(e.l, p)), m', OnTop(OnTop(stack, a), b))
      && m'.locals == fb
    decreases e, 0
  {
    hide Reaches, Gets;
    var m1 := ExprRuns(code, e.l, p, m, stack);
    m' := ExprRuns(code, e.r, AfterExpr(e.l, p), m1, OnTop(stack, Eval(e.l, m.locals).0));
    ReachesThen(code, m, m1, m');
  }

  /** The branch between the parts of a chain, and what is patched in the first part. */
  lemma {:induction false} LinkParts(code: seq<Byte>, isAnd: bool, l: Chain, r: Expr, p: Pos, end: nat)
    requires HasChain(code, Link(l, r), p) && ChainPatched(code, isAnd, ChainHoles(Link(l, r), p), end)
    ensures ChainPatched(code, isAnd, ChainHoles(l, p), end)
    ensures
      var q := AfterChain(l, p);
      && Flushed(code, q) && Branch(q).at <= |code|
      && code[Flush(q).at] == LogicCode(isAnd) && Leads(code, Hole(q), end)
  {
    hide HasExpr, AfterExpr, Leads, ChainPatched;
    HolesSplit(code, isAnd, Hole(AfterChain(l, p)), ChainHoles(l, p), end);
  }

  lemma {:induction false} HolesSplit(code: seq<Byte>, isAnd: bool, h: nat, rest: seq<nat>, end: nat)
    requires ChainPatched(code, isAnd, [h] + rest, end)
    ensures ChainPatched(code, isAnd, rest, end)
    ensures 1 <= h && Leads(code, h, end) && code[h - 1] == LogicCode(isAnd)
  {
    hide Leads;
    var holes := [h] + rest;
    assert holes[0] == h;
    assert forall i :: 0 <= i < |rest| ==> rest[i] == holes[i + 1];
  }

  /** A chain either reaches its last branch with the value so far, or has jumped to the end. */
  lemma {:induction false} ChainRuns(code: seq<Byte>, isAnd: bool, chain: Chain, p: Pos, end: nat,
                                     m: State, stack: seq<Value>)
    returns (m': State)
    requires HasChain(code, chain, p) && ChainPatched(code, isAnd, ChainHoles(chain, p), end)
    requires At(p, m, stack)
    ensures
      var (v, f) := EvalChain(isAnd, chain, m.locals);
      && Reaches(code, m, m') && m'.locals == f
      && (|| At(AfterChain(chain, p), m', OnTop(stack, v))
          || (Decides(isAnd, v) && m' == State(end, OnTop(stack, v), f)))
    decreases chain, 0
  {
    hide Reaches, Gets, HasExpr, Eval, AfterExpr, ChainPatched, ChainHoles, Leads, At, Flushed;
    match chain
    case First(e) =>
      m' := ExprRuns(code, e, p, m, stack);
    case Link(l, r) =>
      LinkParts(code, isAnd, l, r, p, end);
      m' := ChainRuns(code, isAnd, l, p, end, m, stack);
      var q, v := AfterChain(l, p), EvalChain(isAnd, l, m.locals).0;
      if At(q, m', OnTop(stack, v)) {
        var m2 := LogicRuns(code, q, isAnd, end, m', stack, v);
        ReachesThen(code, m, m', m2);
        m' := m2;
        if !Decides(isAnd, v) {
          m' := ExprRuns(code, r, Branch(q), m2, stack);
          ReachesThen(code, m, m2, m');
        }
      }
  }

  lemma {:induction false} LandLorRuns(code: seq<Byte>, e: Expr, p: Pos, m: State, stack: seq<Value>)
    returns (m': State)
    requires e.LandLor? && HasExpr(code, e, p) && At(p, m, stack)
    ensures Reaches(code, m, m') && At(AfterExpr(e, p), m', OnTop(stack, Eval(e, m.locals).0))
    ensures m'.locals == Eval(e, m.locals).1
    decreases e, 0
  {
    hide Reaches, Gets;
    var end := AfterExpr(e, p);
    var q := AfterChain(e.chain, p);
    var m1 := ChainRuns(code, e.isAnd, e.chain, p, end.at, m, stack);
    var (v, f) := EvalChain(e.isAnd, e.chain, m.locals);
    m' := m1;
    if At(q, m1, OnTop(stack, v)) {
      assert code[Flush(q).at + 0] == [LogicCode(e.isAnd)][0];
      var m2 := LogicRuns(code, q, e.isAnd, end.at, m1, stack, v);
      ReachesThen(code, m, m1, m2);
      m' := m2;
      if !Decides(e.isAnd, v) {
        var m3 := ExprRuns(code, e.r, Branch(q), m2, stack);
        var q3, s3 := AfterExpr(e.r, Branch(q)), OnTop(stack, Eval(e.r, f).0);
        FlushRuns(code, q3, m3, s3);
        ReachesThen(code, m, m2, m3);
        m' := Arrived(q3, m3, s3);
        ReachesThen(code, m, m3, m');
      }
    }
    Settled(end, m');
  }

  /** The condition of an if: falls through when it agrees with the branch taken next, and otherwise
      goes where the branch leads. */
  lemma {:induction false} CondBranchRuns(code: seq<Byte>, c: Expr, invert: bool, p: Pos, target: nat,
                                          m: State, stack: seq<Value>)
    returns (m': State)
    requires HasCond(code, c, invert, p) && At(p, m, stack)
    requires AfterCond(c, invert, p).at >= 2 && Leads(code, AfterCond(c, invert, p).at - 2, target)
    ensures
      var (v, f) := Eval(c, m.locals);
      && Reaches(code, m, m')
      && m' == State(if (v != 0) == invert then target else AfterCond(c, invert, p).at, stack, f)
    decreases c, 2
  {
    hide Reaches, Gets, Emitted, Apply;
    var (v, f) := Eval(c, m.locals);
    if IsNot(c) {
      m' := CondBranchRuns(code, c.e, !invert, p, target, m, stack);
    } else if IsFused(c, invert) {
      var (a, fa) := Eval(c.l, m.locals);
      var q := AfterExpr(c.r, AfterExpr(c.l, p));
      var m1 := OperandsRun(code, c, p, m, stack);
      FusedBranchRuns(code, q, c.op, invert, target, m1, stack, a, Eval(c.r, fa).0);
      m' := State(if (v != 0) == invert then target else Branch(q).at, stack, f);
      ReachesThen(code, m, m1, m');
    } else {
      var q := AfterExpr(c, p);
      var m1 := ExprRuns(code, c, p, m, stack);
      PlainBranchRuns(code, q, invert, target, m1, stack, v);
      m' := State(if (v != 0) == invert then target else Branch(q).at, stack, f);
      ReachesThen(code, m, m1, m');
    }
  }

  lemma {:induction false} CondRuns(code: seq<Byte>, e: Expr, p: Pos, m: State, stack: seq<Value>)
    returns (m': State)
    requires e.Cond? && HasExpr(code, e, p) && At(p, m, stack)
    ensures Reaches(code, m, m') && At(AfterExpr(e, p), m', OnTop(stack, Eval(e, m.locals).0))
    ensures m'.locals == Eval(e, m.locals).1
    decreases e, 0
  {
    hide Reaches, Gets;
    var q := AfterCond(e.c, false, p);
    var q1 := AfterExpr(e.a, q);
    var q2 := Branch(q1);
    var end := AfterExpr(e, p);
    var (v, f) := Eval(e.c, m.locals);
    var m1 := CondBranchRuns(code, e.c, false, p, q2.at, m, stack);
    CondGrows(e.c, false, p);
    if v != 0 {
      Settled(q, m1);
      var m2 := ExprRuns(code, e.a, q, m1, stack);
      var s := OnTop(stack, Eval(e.a, f).0);
      GotoRuns(code, q1, end.at, m2, s);
      m' := State(end.at, s, m2.locals);
      ReachesThen(code, m, m1, m2);
      ReachesThen(code, m, m2, m');
    } else {
      Settled(q2, m1);
      var m2 := ExprRuns(code, e.b, q2, m1, stack);
      var q3, s := AfterExpr(e.b, q2), OnTop(stack, Eval(e.b, f).0);
      FlushRuns(code, q3, m2, s);
      m' := Arrived(q3, m2, s);
      ReachesThen(code, m, m1, m2);
      ReachesThen(code, m, m2, m');
    }
    Settled(end, m');
  }
}
