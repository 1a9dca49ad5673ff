/** The byte code of compiled LPC programs and the machine that runs it.

    Opcode numbers are the positions of the operators in src/op_spec.c, counted from one
    (src/edit_source.c:911-913).  The meaning of each opcode follows src/interpret.c, on integer
    values and local variables.  Multi-byte operands are stored least significant byte first. */
module Bytecode {
  import opened Basics


  type Byte = x: int | 0 <= x < 256
  type Int32 = x: int | -0x8000_0000 <= x < 0x8000_0000

  const F_POP_VALUE: Byte := 1
  const F_PUSH: Byte := 2
  const F_NUMBER: Byte := 8
  const F_BYTE: Byte := 10
  const F_NBYTE: Byte := 11
  const F_CONST0: Byte := 14
  const F_CONST1: Byte := 15
  const F_BRANCH_WHEN_ZERO: Byte := 18
  const F_BRANCH_WHEN_NON_ZERO: Byte := 19
  const F_BRANCH: Byte := 20
  const F_BBRANCH_WHEN_ZERO: Byte := 21
  const F_BBRANCH_WHEN_NON_ZERO: Byte := 22
  const F_BBRANCH: Byte := 23
  const F_BRANCH_NE: Byte := 24
  const F_BRANCH_GE: Byte := 25
  const F_BRANCH_LE: Byte := 26
  const F_BRANCH_EQ: Byte := 27
  const F_BBRANCH_LT: Byte := 28
  const F_NEXT_FOREACH: Byte := 30
  const F_LOOP_COND_LOCAL: Byte := 32
  const F_LOOP_COND_NUMBER: Byte := 33
  const F_LOOP_INCR: Byte := 34
  const F_WHILE_DEC: Byte := 35
  const F_LOR: Byte := 36
  const F_LAND: Byte := 37
  const F_SWITCH: Byte := 42
  const F_RETURN: Byte := 45
  const F_RETURN_ZERO: Byte := 46
  const F_EQ: Byte := 47
  const F_NE: Byte := 48
  const F_LE: Byte := 49
  const F_LT: Byte := 50
  const F_GE: Byte := 51
  const F_GT: Byte := 52
  const F_LOCAL: Byte := 60
  const F_LOCAL_LVALUE: Byte := 61
  const F_ASSIGN: Byte := 90
  const F_VOID_ASSIGN_LOCAL: Byte := 93
  const F_ADD: Byte := 94
  const F_SUBTRACT: Byte := 95
  const F_MULTIPLY: Byte := 96
  const F_NOT: Byte := 104
  const F_NEGATE: Byte := 105

  // Operands of F_PUSH: two kind bits above six value bits (src/interpret.h:6-12).
  const PUSH_NUMBER: Byte := 64
  const PUSH_LOCAL: Byte := 192
  const PUSH_MASK: Byte := 63

  // ---------- Operands in the code ----------

  /** Two bytes at i, read as an unsigned short. */
  function Short(code: seq<Byte>, i: nat): (v: nat)
    requires i + 2 <= |code|
    ensures v < 0x1_0000
  {
    var lo: int, hi: int := code[i], code[i + 1];
    lo + 256 * hi
  }

  function ShortBytes(v: nat): (b: seq<Byte>)
    requires v < 0x1_0000
    ensures |b| == 2 && Short(b, 0) == v
  {
    [v % 256, v / 256]
  }

  /** Four bytes at i, read as a signed int. */
  function Int(code: seq<Byte>, i: nat): Int32
    requires i + 4 <= |code|
  {
    var b0: int, b1: int, b2: int, b3: int := code[i], code[i + 1], code[i + 2], code[i + 3];
    var u := b0 + 256 * b1 + 0x1_0000 * b2 + 0x100_0000 * b3;
    if u < 0x8000_0000 then u else u - 0x1_0000_0000
  }

  function IntBytes(n: Int32): (b: seq<Byte>)
    ensures |b| == 4 && Int(b, 0) == n
  {
    var d0: int := if n < 0 then n + 0x1_0000_0000 else n;
    var d1 := d0 / 256;
    var d2 := d1 / 256;
    var d3 := d2 / 256;
    assert 0 <= d3 < 256;
    assert d0 == d0 % 256 + 256 * (d1 % 256) + 0x1_0000 * (d2 % 256) + 0x100_0000 * d3;
    [d0 % 256, d1 % 256, d2 % 256, d3]
  }

  // ---------- The machine ----------

  /** An integer, or a reference to a local variable left by F_LOCAL_LVALUE. */
  datatype Value = Num(n: int) | Ref(x: Byte)

  type Frame = f: seq<int> | |f| == 256 witness seq(256, _ => 0)

  datatype State = State(pc: nat, stack: seq<Value>, locals: Frame)

  function Truth(b: bool): int { if b then 1 else 0 }

  function Binary(op: Byte, a: int, b: int): Option<int> {
    if op == F_EQ then Some(Truth(a == b))
    else if op == F_NE then Some(Truth(a != b))
    else if op == F_LE then Some(Truth(a <= b))
    else if op == F_LT then Some(Truth(a < b))
    else if op == F_GE then Some(Truth(a >= b))
    else if op == F_GT then Some(Truth(a > b))
    else if op == F_ADD then Some(a + b)
    else if op == F_SUBTRACT then Some(a - b)
    else if op == F_MULTIPLY then Some(a * b)
    else None
  }

  /** The value one operand byte of F_PUSH stands for; strings and globals are not modelled. */
  function PushedValue(b: Byte, locals: Frame): Option<Value> {
    if b >= PUSH_LOCAL then Some(Num(locals[b - PUSH_LOCAL]))
    else if PUSH_NUMBER <= b < PUSH_NUMBER + 64 then Some(Num(b - PUSH_NUMBER))
    else None
  }

  function PushAll(bytes: seq<Byte>, locals: Frame): Option<seq<Value>> {
    if bytes == [] then Some([])
    else
      match (PushedValue(bytes[0], locals), PushAll(bytes[1..], locals))
      case (Some(v), Some(vs)) => Some([v] + vs)
      case _ => None
  }

  function Pushed(m: State, len: nat, v: Value): State {
    m.(pc := m.pc + len, stack := m.stack + [v])
  }

  function Top(m: State): Option<int> {
    if |m.stack| > 0 && m.stack[|m.stack| - 1].Num? then Some(m.stack[|m.stack| - 1].n) else None
  }

  function Drop(m: State, k: nat): State
    requires k <= |m.stack|
  {
    m.(stack := m.stack[..|m.stack| - k])
  }

  /** Takes the branch whose offset is stored at m.pc + 1, or steps over it. */
  function Jump(code: seq<Byte>, m: State, taken: bool, backwards: bool): Option<State> {
    JumpAt(code, m, m.pc + 1, taken, backwards)
  }

  function JumpAt(code: seq<Byte>, m: State, at: nat, taken: bool, backwards: bool): Option<State> {
    if at + 2 > |code| then None
    else if !taken then Some(m.(pc := at + 2))
    else if !backwards then Some(m.(pc := at + Short(code, at)))
    else if Short(code, at) > at then None
    else Some(m.(pc := at - Short(code, at)))
  }

  function StepPush(code: seq<Byte>, m: State): Option<State>
    requires m.pc + 1 < |code|
  {
    var n := code[m.pc + 1];
    if m.pc + 2 + n > |code| then None
    else
      match PushAll(code[m.pc + 2..m.pc + 2 + n], m.locals)
      case None => None
      case Some(vs) => Some(m.(pc := m.pc + 2 + n, stack := m.stack + vs))
  }

  /** The conditional and unconditional branches. */
  function StepBranch(code: seq<Byte>, m: State): Option<State>
    requires m.pc < |code|
  {
    var op := code[m.pc];
    if op == F_BRANCH then Jump(code, m, true, false)
    else if op == F_BBRANCH then Jump(code, m, true, true)
    else if Top(m).None? then None
    else
      var v := Top(m).value;
      var popped := Drop(m, 1);
      if op == F_BRANCH_WHEN_ZERO then Jump(code, popped, v == 0, false)
      else if op == F_BRANCH_WHEN_NON_ZERO then Jump(code, popped, v != 0, false)
      else if op == F_BBRANCH_WHEN_ZERO then Jump(code, popped, v == 0, true)
      else if op == F_BBRANCH_WHEN_NON_ZERO then Jump(code, popped, v != 0, true)
      else if op == F_LAND then Jump(code, if v == 0 then m else popped, v == 0, false)
      else if op == F_LOR then Jump(code, if v == 0 then popped else m, v != 0, false)
      else if Top(popped).None? then None
      else
        var u := Top(popped).value;
        var popped2 := Drop(m, 2);
        if op == F_BRANCH_NE then Jump(code, popped2, u != v, false)
        else if op == F_BRANCH_GE then Jump(code, popped2, u >= v, false)
        else if op == F_BRANCH_LE then Jump(code, popped2, u <= v, false)
        else if op == F_BRANCH_EQ then Jump(code, popped2, u == v, false)
        else if op == F_BBRANCH_LT then Jump(code, popped2, u < v, true)
        else None
  }

  predicate IsBranch(op: Byte) {
    F_BRANCH_WHEN_ZERO <= op <= F_BBRANCH_LT || op == F_LAND || op == F_LOR
  }

  /** Loop tests that work on locals without touching the stack. */
  function StepLoop(code: seq<Byte>, m: State): Option<State>
    requires m.pc + 1 < |code|
  {
    var op, x := code[m.pc], code[m.pc + 1];
    if op == F_WHILE_DEC then
      JumpAt(code, m.(locals := m.locals[x := m.locals[x] - 1]), m.pc + 2, m.locals[x] != 0, true)
    else if op == F_LOOP_COND_LOCAL && m.pc + 2 < |code| then
      JumpAt(code, m, m.pc + 3, m.locals[x] < m.locals[code[m.pc + 2]], true)
    else if op == F_LOOP_COND_NUMBER && m.pc + 6 <= |code| then
      JumpAt(code, m, m.pc + 6, m.locals[x] < Int(code, m.pc + 2), true)
    else None
  }

  /** Instructions that pop their operands from the stack and have no operand bytes. */
  function StepStack(code: seq<Byte>, m: State): Option<State>
    requires m.pc < |code|
  {
    var op := code[m.pc];
    if |m.stack| == 0 then None
    else if op == F_POP_VALUE then Some(Drop(m, 1).(pc := m.pc + 1))
    else if op == F_NOT || op == F_NEGATE then
      if Top(m).None? then None
      else
        var v := Top(m).value;
        Some(Pushed(Drop(m, 1), 1, Num(if op == F_NOT then Truth(v == 0) else -v)))
    else if op == F_ASSIGN then
      if |m.stack| < 2 || !m.stack[|m.stack| - 1].Ref? || !m.stack[|m.stack| - 2].Num? then None
      else
        var x, v := m.stack[|m.stack| - 1].x, m.stack[|m.stack| - 2].n;
        Some(Drop(m, 1).(pc := m.pc + 1, locals := m.locals[x := v]))
    else if Top(m).None? || Top(Drop(m, 1)).None? then None
    else
      match Binary(op, Top(Drop(m, 1)).value, Top(m).value)
      case None => None
      case Some(v) => Some(Pushed(Drop(m, 2), 1, Num(v)))
  }

  /** One instruction.  None: the machine has run off the code or is stuck. */
  function Step(code: seq<Byte>, m: State): Option<State> {
    if m.pc >= |code| then None
    else
      var op := code[m.pc];
      if op == F_CONST0 then Some(Pushed(m, 1, Num(0)))
      else if op == F_CONST1 then Some(Pushed(m, 1, Num(1)))
      else if IsBranch(op) then StepBranch(code, m)
      else if op == F_POP_VALUE || op == F_NOT || op == F_NEGATE || op == F_ASSIGN
           || F_EQ <= op <= F_GT || F_ADD <= op <= F_MULTIPLY then
        StepStack(code, m)
      else if m.pc + 1 >= |code| then None
      else
        var x: int := code[m.pc + 1];
        if op == F_PUSH then StepPush(code, m)
        else if op == F_BYTE then Some(Pushed(m, 2, Num(x)))
        else if op == F_NBYTE then Some(Pushed(m, 2, Num(-x)))
        else if op == F_LOCAL then Some(Pushed(m, 2, Num(m.locals[x])))
        else if op == F_LOCAL_LVALUE then Some(Pushed(m, 2, Ref(x)))
        else if op == F_LOOP_INCR then
          Some(m.(pc := m.pc + 2, locals := m.locals[x := m.locals[x] + 1]))
        else if op == F_VOID_ASSIGN_LOCAL then
          if Top(m).None? then None
          else Some(Drop(m, 1).(pc := m.pc + 2, locals := m.locals[x := Top(m).value]))
        else if op == F_NUMBER then
          if m.pc + 5 > |code| then None else Some(Pushed(m, 5, Num(Int(code, m.pc + 1))))
        else StepLoop(code, m)
  }

  /** n instructions. */
  function Run(code: seq<Byte>, m: State, n: nat): Option<State>
    decreases n
  {
    if n == 0 then Some(m)
    else
      match Step(code, m)
      case None => None
      case Some(m') => Run(code, m', n - 1)
  }

  lemma {:induction false} RunPlus(code: seq<Byte>, m: State, n: nat, k: nat)
    requires Run(code, m, n).Some?
    ensures Run(code, m, n + k) == Run(code, Run(code, m, n).value, k)
    decreases n
  {
    if n > 0 {
      RunPlus(code, Step(code, m).value, n - 1, k);
    }
  }

  lemma {:induction false} RunOne(code: seq<Byte>, m: State)
    ensures Run(code, m, 1) == Step(code, m)
  {
    assert Step(code, m).Some? ==> Run(code, Step(code, m).value, 0) == Step(code, m);
  }

  /** `m'` is reached from `m` by n instructions. */
  predicate Gets(code: seq<Byte>, m: State, n: nat, m': State) {
    Run(code, m, n) == Some(m')
  }

  lemma {:induction false} GetsThen(code: seq<Byte>, m: State, n: nat, m1: State, k: nat, m2: State)
    requires Gets(code, m, n, m1) && Gets(code, m1, k, m2)
    ensures Gets(code, m, n + k, m2)
  {
    RunPlus(code, m, n, k);
  }

  lemma {:induction false} GetsStep(code: seq<Byte>, m: State, n: nat, m1: State)
    requires Gets(code, m, n, m1) && Step(code, m1).Some?
    ensures Gets(code, m, n + 1, Step(code, m1).value)
  {
    RunOne(code, m1);
    GetsThen(code, m, n, m1, 1, Step(code, m1).value);
  }

  ghost predicate Reaches(code: seq<Byte>, m: State, m': State) {
    exists n: nat :: Gets(code, m, n, m')
  }

  lemma {:induction false} ReachesNow(code: seq<Byte>, m: State)
    ensures Gets(code, m, 0, m) && Reaches(code, m, m)
  {
    assert Gets(code, m, 0, m);
  }

  lemma {:induction false} StepsOf(code: seq<Byte>, m: State, m': State) returns (n: nat)
    requires Reaches(code, m, m')
    ensures Gets(code, m, n, m')
  {
    n :| Gets(code, m, n, m');
  }

  lemma {:induction false} ReachesThen(code: seq<Byte>, m: State, m1: State, m2: State)
    requires Reaches(code, m, m1) && Reaches(code, m1, m2)
    ensures Reaches(code, m, m2)
  {
    var n: nat :| Gets(code, m, n, m1);
    var k: nat :| Gets(code, m1, k, m2);
    GetsThen(code, m, n, m1, k, m2);
  }

  lemma {:induction false} ReachesStep(code: seq<Byte>, m: State, m1: State, m2: State)
    requires Reaches(code, m, m1) && Step(code, m1) == Some(m2)
    ensures Reaches(code, m, m2)
  {
    var n: nat :| Gets(code, m, n, m1);
    GetsStep(code, m, n, m1);
  }

  /** The interpreter's dispatch: F_LOOP_INCR looks at the next byte and, when that is a loop
      condition, executes it at once (src/interpret.c:2048-2073). */
  predicate Fuses(code: seq<Byte>, pc: nat, next: nat) {
    pc < |code| && code[pc] == F_LOOP_INCR && next < |code|
    && (code[next] == F_LOOP_COND_LOCAL || code[next] == F_LOOP_COND_NUMBER)
  }

  function Dispatch(code: seq<Byte>, m: State): Option<State> {
    match Step(code, m)
    case None => None
    case Some(m1) => if Fuses(code, m.pc, m1.pc) then Step(code, m1) else Some(m1)
  }

  function Dispatches(code: seq<Byte>, m: State, n: nat): Option<State>
    decreases n
  {
    if n == 0 then Some(m)
    else
      match Dispatch(code, m)
      case None => None
      case Some(m') => Dispatches(code, m', n - 1)
  }

  /** A dispatch is one or two plain steps. */
  lemma {:induction false} DispatchIsSteps(code: seq<Byte>, m: State) returns (k: nat)
    requires Dispatch(code, m).Some?
    ensures 1 <= k <= 2 && Gets(code, m, k, Dispatch(code, m).value)
  {
    var m1 := Step(code, m).value;
    RunOne(code, m);
    k := 1;
    if Fuses(code, m.pc, m1.pc) {
      GetsStep(code, m, 1, m1);
      k := 2;
    }
  }

  /** Fusing the loop increment with the loop condition is invisible: n dispatches do what some
      k >= n plain steps do, so plain steps lose no behaviour. */
  lemma {:induction false} FusionIsInvisible(code: seq<Byte>, m: State, n: nat) returns (k: nat)
    requires Dispatches(code, m, n).Some?
    ensures n <= k <= 2 * n && Run(code, m, k) == Dispatches(code, m, n)
    decreases n
  {
    hide Step;
    k := 0;
    if n > 0 {
      var m1 := Dispatch(code, m).value;
      var first := DispatchIsSteps(code, m);
      var rest := FusionIsInvisible(code, m1, n - 1);
      k := first + rest;
      GetsThen(code, m, first, m1, rest, Dispatches(code, m, n).value);
    }
  }
}
