/** The dying-variable optimizer of src/generate.c: the last read of a local becomes a transfer, which
    hands the value over and destroys the local (src/interpret.c:2080-2099). */
module Optimizer {
  import opened Basics
  import opened Bytecode

  /** A number, a real, a string, or any other value: an array, object and so on. */
  datatype Svalue = Number(n: int) | Real(r: real) | Text(s: string) | Other(ref: nat)

  type Locals = f: seq<Svalue> | |f| == 256 witness seq(256, _ => Number(0))

  /** The locals of the function, everything else a call can see or change, and a record that steers
      nothing: the locals a loop opcode has found to hold something other than a number. */
  datatype Store = Store(locals: Locals, world: int, odd: set<Byte>)

  /** Parse trees as the optimizer sees them.  A `Read` has an identity, because the optimizer changes
      single nodes in place. */
  datatype Tree =
    | Nothing
    | Constant(v: Svalue)
    | Read(id: nat, x: Byte)                           // F_LOCAL
    | Call(f: nat, a: Tree, b: Tree)                   // an operator or call on two operands
    | Assign(x: Byte, a: Tree)                         // F_ASSIGN to F_LOCAL_LVALUE
    | AssignVoid(x: Byte, a: Tree)                     // F_VOID_ASSIGN_LOCAL
    | Update(x: Byte, f: nat, a: Tree)                 // F_ADD_EQ and others on F_LOCAL_LVALUE
    | Count(x: Byte, step: int)                         // F_WHILE_DEC, F_LOOP_INCR
    | Less(x: Byte, y: Byte)                           // F_LOOP_COND_LOCAL
    | Below(x: Byte, n: int)                           // F_LOOP_COND_NUMBER
    | LandLor(isAnd: bool, a: Tree, b: Tree)           // NODE_LAND_LOR, NODE_BRANCH_LINK
    | Two(a: Tree, b: Tree)                            // NODE_TWO_VALUES and lists of arguments
    | If(c: Tree, a: Tree, b: Tree)                    // NODE_IF; a switch is a nest of them
    | Loop(testFirst: bool, body: Tree, inc: Tree, test: Tree)
    | Catch(a: Tree)
    | Jump(isBreak: bool)                              // NODE_CONTROL_JUMP
    | Return(a: Tree)

  // ---------- Meaning ----------

  datatype Way = Breaking | Continuing | Returning | Erring

  datatype Outcome = Normal(v: Svalue, st: Store) | Leaves(way: Way, v: Svalue, st: Store) | Timeout(st: Store)

  /** A value, or what a catch returns when there is a runtime error. */
  datatype Result = Value(v: Svalue) | Thrown(v: Svalue)

  /** What an operator or call does, and the number that is found where the pointer or the real of a value
      is stored. */
  datatype Env = Env(call: (nat, Svalue, Svalue, int) -> (Result, int), word: Svalue -> int)

  predicate Holds(v: Svalue) { v != Number(0) }

  function Put(st: Store, x: Byte, v: Svalue): Store {
    st.(locals := st.locals[x := v])
  }

  /** F_TRANSFER_LOCAL only overwrites the type of the local, so a number stays what it is. */
  function Destroyed(v: Svalue, env: Env): Svalue {
    if v.Number? then v else Number(env.word(v))
  }

  function Applied(env: Env, f: nat, a: Svalue, b: Svalue, st: Store): Outcome {
    var (r, w) := env.call(f, a, b, st.world);
    match r
    case Thrown(v) => Leaves(Erring, v, st.(world := w))
    case Value(v) => Normal(v, st.(world := w))
  }

  /** strcmp(s, t) < 0 */
  predicate Precedes(s: string, t: string) {
    t != [] && (s == [] || s[0] < t[0] || (s[0] == t[0] && Precedes(s[1..], t[1..])))
  }

  function Test(b: bool): Result { Value(Number(Truth(b))) }

  /** do_loop_cond_local */
  function LessThan(v: Svalue, u: Svalue): Result {
    match (v, u)
    case (Number(n), Number(m)) => Test(n < m)
    case (Real(r), Real(q)) => Test(r < q)
    case (Text(s), Text(t)) => Test(Precedes(s, t))
    case (Number(n), Real(q)) => Test(n as real < q)
    case (Real(r), Number(m)) => Test(r < m as real)
    case (Number(_), _) => Thrown(Text("*2nd argument to < is not numeric when the 1st is.\n"))
    case (Real(_), _) => Thrown(Text("*2nd argument to < is not numeric when the 1st is.\n"))
    case (Text(_), _) => Thrown(Text("*2nd argument to < is not string when the 1st is.\n"))
    case (Other(_), _) => Thrown(Text("*Bad 1st argument to <.\n"))
  }

  /** do_loop_cond_number */
  function LessThanNumber(v: Svalue, n: int): Result {
    match v
    case Number(m) => Test(m < n)
    case Real(r) => Test(r < n as real)
    case _ => Thrown(Text("*Right side of < is a number, left side is not.\n"))
  }

  /** A real is cut to an int when it is counted down. */
  function Cut(r: real): int { if r >= 0.0 then r.Floor else -(-r).Floor }

  /** F_WHILE_DEC and F_LOOP_INCR: the value that is tested, and the value that is stored. */
  function Counted(v: Svalue, step: int): (Result, Svalue) {
    match v
    case Number(n) => (Value(Number(n)), Number(n + step))
    case Real(r) => (Value(Number(Cut(r))), Real(r + step as real))
    case _ => (Thrown(Text(if step < 0 then "*-- of non-numeric argument\n" else "*++ of non-numeric argument\n")), v)
  }

  /** A loop opcode looks at x. */
  function Seen(st: Store, x: Byte): Store {
    if st.locals[x].Number? then st else st.(odd := st.odd + {x})
  }

  function Opcode(r: Result, st: Store): Outcome {
    match r
    case Thrown(v) => Leaves(Erring, v, st)
    case Value(v) => Normal(v, st)
  }

  /** Runs a tree in which the reads in `moved` are transfers. */
  function Eval(e: Tree, st: Store, moved: set<nat>, env: Env, fuel: nat): Outcome
    decreases fuel, e, 1
  {
    match e
    case Nothing => Normal(Number(0), st)
    case Constant(v) => Normal(v, st)
    case Read(id, x) =>
      var v := st.locals[x];
      Normal(v, if id in moved then Put(st, x, Destroyed(v, env)) else st)
    case Call(f, a, b) =>
      var p := Eval(a, st, moved, env, fuel);
      if !p.Normal? then p
      else
        var q := Eval(b, p.st, moved, env, fuel);
        if !q.Normal? then q else Applied(env, f, p.v, q.v, q.st)
    case Assign(x, a) =>
      var p := Eval(a, st, moved, env, fuel);
      if !p.Normal? then p else Normal(p.v, Put(p.st, x, p.v))
    case AssignVoid(x, a) =>
      var p := Eval(a, st, moved, env, fuel);
      if !p.Normal? then p else Normal(Number(0), Put(p.st, x, p.v))
    case Update(x, f, a) =>
      var p := Eval(a, st, moved, env, fuel);
      if !p.Normal? then p
      else
        var q := Applied(env, f, p.st.locals[x], p.v, p.st);
        if !q.Normal? then q else Normal(q.v, Put(q.st, x, q.v))
    case Count(x, step) =>
      var (r, v) := Counted(st.locals[x], step);
      Opcode(r, Put(Seen(st, x), x, v))
    case Less(x, y) => Opcode(LessThan(st.locals[x], st.locals[y]), Seen(Seen(st, x), y))
    case Below(x, n) => Opcode(LessThanNumber(st.locals[x], n), Seen(st, x))
    case LandLor(isAnd, a, b) =>
      var p := Eval(a, st, moved, env, fuel);
      if !p.Normal? || Holds(p.v) != isAnd then p else Eval(b, p.st, moved, env, fuel)
    case Two(a, b) =>
      var p := Eval(a, st, moved, env, fuel);
      if !p.Normal? then p else Eval(b, p.st, moved, env, fuel)
    case If(c, a, b) =>
      var p := Eval(c, st, moved, env, fuel);
      if !p.Normal? then p
      else if Holds(p.v) then Eval(a, p.st, moved, env, fuel)
      else Eval(b, p.st, moved, env, fuel)
    case Loop(testFirst, _, _, test) =>
      if testFirst then
        var p := Eval(test, st, moved, env, fuel);
        if !p.Normal? || !Holds(p.v) then p else Rounds(e, p.st, moved, env, fuel)
      else
        Rounds(e, st, moved, env, fuel)
    case Catch(a) =>
      var p := Eval(a, st, moved, env, fuel);
      if p.Leaves? && p.way.Erring? then Normal(p.v, p.st) else p
    case Jump(isBreak) => Leaves(if isBreak then Breaking else Continuing, Number(0), st)
    case Return(a) =>
      var p := Eval(a, st, moved, env, fuel);
      if !p.Normal? then p else Leaves(Returning, p.v, p.st)
  }

  function Rounds(e: Tree, st: Store, moved: set<nat>, env: Env, fuel: nat): Outcome
    requires e.Loop?
    decreases fuel, e, 0
  {
    if fuel == 0 then Timeout(st)
    else
      var p := Eval(e.body, st, moved, env, fuel);
      if p.Leaves? && p.way.Breaking? then Normal(p.v, p.st)
      else if !p.Normal? && !(p.Leaves? && p.way.Continuing?) then p
      else
        var q := Eval(e.inc, p.st, moved, env, fuel);
        if !q.Normal? then q
        else
          var r := Eval(e.test, q.st, moved, env, fuel);
          if !r.Normal? || !Holds(r.v) then r else Rounds(e, r.st, moved, env, fuel - 1)
  }

  // ---------- Liveness ----------

  /** The identities of the reads in a tree. */
  function Ids(e: Tree): set<nat> {
    match e
    case Read(id, _) => {id}
    case Call(_, a, b) => Ids(a) + Ids(b)
    case Assign(_, a) => Ids(a)
    case AssignVoid(_, a) => Ids(a)
    case Update(_, _, a) => Ids(a)
    case LandLor(_, a, b) => Ids(a) + Ids(b)
    case Two(a, b) => Ids(a) + Ids(b)
    case If(c, a, b) => Ids(c) + Ids(a) + Ids(b)
    case Loop(_, body, inc, test) => Ids(body) + Ids(inc) + Ids(test)
    case Catch(a) => Ids(a)
    case Return(a) => Ids(a)
    case _ => {}
  }

  /** The locals that are read anywhere in a tree, not counting the loop opcodes. */
  function Reads(e: Tree): set<Byte> {
    match e
    case Read(_, x) => {x}
    case Call(_, a, b) => Reads(a) + Reads(b)
    case Assign(_, a) => Reads(a)
    case AssignVoid(_, a) => Reads(a)
    case Update(x, _, a) => Reads(a) + {x}
    case LandLor(_, a, b) => Reads(a) + Reads(b)
    case Two(a, b) => Reads(a) + Reads(b)
    case If(c, a, b) => Reads(c) + Reads(a) + Reads(b)
    case Loop(_, body, inc, test) => Reads(body) + Reads(inc) + Reads(test)
    case Catch(a) => Reads(a)
    case Return(a) => Reads(a)
    case _ => {}
  }

  /** Locals that may be read before they are assigned. */
  function Gen(e: Tree): set<Byte> {
    match e
    case Read(_, x) => {x}
    case Call(_, a, b) => Gen(a) + (Gen(b) - Kill(a))
    case Assign(_, a) => Gen(a)
    case AssignVoid(_, a) => Gen(a)
    case Update(x, _, a) => Gen(a) + ({x} - Kill(a))
    case LandLor(_, a, b) => Gen(a) + (Gen(b) - Kill(a))
    case Two(a, b) => Gen(a) + (Gen(b) - Kill(a))
    case If(c, a, b) => Gen(c) + (Reads(a) + Reads(b) - Kill(c))
    case Loop(_, _, _, _) => Reads(e)
    case Catch(a) => Gen(a)
    case Return(a) => Gen(a)
    case _ => {}
  }

  /** Locals that are assigned on every way through the tree. */
  function Kill(e: Tree): set<Byte> {
    match e
    case Call(_, a, b) => Kill(a) + Kill(b)
    case Assign(x, a) => Kill(a) + {x}
    case AssignVoid(x, a) => Kill(a) + {x}
    case Update(_, _, a) => Kill(a)
    case LandLor(_, a, _) => Kill(a)
    case Two(a, b) => Kill(a) + Kill(b)
    case If(c, _, _) => Kill(c)
    case Return(a) => Kill(a)
    case _ => {}
  }

  /** The locals whose value matters before e when those in `after` matter behind it. */
  function Live(e: Tree, after: set<Byte>): set<Byte> {
    Gen(e) + (after - Kill(e))
  }

  /** Every transfer in the tree happens where its local is dead. */
  predicate Safe(e: Tree, moved: set<nat>, after: set<Byte>) {
    match e
    case Read(id, x) => id in moved ==> x !in after
    case Call(_, a, b) => Safe(a, moved, Live(b, after)) && Safe(b, moved, after)
    case Assign(x, a) => Safe(a, moved, after - {x})
    case AssignVoid(x, a) => Safe(a, moved, after - {x})
    case Update(x, _, a) => Safe(a, moved, after + {x})
    case LandLor(_, a, b) => Safe(a, moved, after + Gen(b)) && Safe(b, moved, after)
    case Two(a, b) => Safe(a, moved, Live(b, after)) && Safe(b, moved, after)
    case If(c, a, b) => Safe(c, moved, after + Reads(a) + Reads(b)) && Ids(a) !! moved && Ids(b) !! moved
    case Loop(_, _, _, _) => Ids(e) !! moved
    case Catch(a) => Safe(a, moved, after)
    case Return(a) => Safe(a, moved, after)
    case _ => true
  }

  // ---------- Trees the optimizer treats correctly ----------

  /** No assignment outside of an if or a loop. */
  predicate Calm(e: Tree) {
    match e
    case Call(_, a, b) => Calm(a) && Calm(b)
    case Assign(_, _) => false
    case AssignVoid(_, _) => false
    case Update(_, _, a) => Calm(a)
    case LandLor(_, a, b) => Calm(a) && Calm(b)
    case Two(a, b) => Calm(a) && Calm(b)
    case If(c, _, _) => Calm(c)
    case Catch(a) => Calm(a)
    case Return(a) => Calm(a)
    case _ => true
  }

  /** Outside of ifs and loops, nothing is assigned in a right operand of && or || or in a catch:
      there the optimizer does not know that the assignment may be skipped. */
  predicate Guarded(e: Tree) {
    match e
    case Call(_, a, b) => Guarded(a) && Guarded(b)
    case Assign(_, a) => Guarded(a)
    case AssignVoid(_, a) => Guarded(a)
    case Update(_, _, a) => Guarded(a)
    case LandLor(_, a, b) => Guarded(a) && Guarded(b) && Calm(b)
    case Two(a, b) => Guarded(a) && Guarded(b)
    case If(c, _, _) => Guarded(c)
    case Catch(a) => Guarded(a) && Calm(a)
    case Return(a) => Guarded(a)
    case _ => true
  }

  /** No two reads are the same node. */
  predicate Distinct(e: Tree) {
    match e
    case Call(_, a, b) => Distinct(a) && Distinct(b) && Ids(a) !! Ids(b)
    case Assign(_, a) => Distinct(a)
    case AssignVoid(_, a) => Distinct(a)
    case Update(_, _, a) => Distinct(a)
    case LandLor(_, a, b) => Distinct(a) && Distinct(b) && Ids(a) !! Ids(b)
    case Two(a, b) => Distinct(a) && Distinct(b) && Ids(a) !! Ids(b)
    case If(c, a, b) => Distinct(c) && Distinct(a) && Distinct(b) && Ids(c) !! Ids(a) + Ids(b) && Ids(a) !! Ids(b)
    case Loop(_, body, inc, test) =>
      Distinct(body) && Distinct(inc) && Distinct(test) && Ids(body) !! Ids(inc) + Ids(test) && Ids(inc) !! Ids(test)
    case Catch(a) => Distinct(a)
    case Return(a) => Distinct(a)
    case _ => true
  }

  // ---------- Two runs, one with transfers ----------

  /** The locals that transferred reads of the tree destroy. */
  function Given(e: Tree, moved: set<nat>): set<Byte> {
    match e
    case Read(id, x) => if id in moved then {x} else {}
    case Call(_, a, b) => Given(a, moved) + Given(b, moved)
    case Assign(_, a) => Given(a, moved)
    case AssignVoid(_, a) => Given(a, moved)
    case Update(_, _, a) => Given(a, moved)
    case LandLor(_, a, b) => Given(a, moved) + Given(b, moved)
    case Two(a, b) => Given(a, moved) + Given(b, moved)
    case If(c, a, b) => Given(c, moved) + Given(a, moved) + Given(b, moved)
    case Loop(_, body, inc, test) => Given(body, moved) + Given(inc, moved) + Given(test, moved)
    case Catch(a) => Given(a, moved)
    case Return(a) => Given(a, moved)
    case _ => {}
  }

  /** The locals that loop opcodes look at. */
  function Looped(e: Tree): set<Byte> {
    match e
    case Count(x, _) => {x}
    case Less(x, y) => {x, y}
    case Below(x, _) => {x}
    case Call(_, a, b) => Looped(a) + Looped(b)
    case Assign(_, a) => Looped(a)
    case AssignVoid(_, a) => Looped(a)
    case Update(_, _, a) => Looped(a)
    case LandLor(_, a, b) => Looped(a) + Looped(b)
    case Two(a, b) => Looped(a) + Looped(b)
    case If(c, a, b) => Looped(c) + Looped(a) + Looped(b)
    case Loop(_, body, inc, test) => Looped(body) + Looped(inc) + Looped(test)
    case Catch(a) => Looped(a)
    case Return(a) => Looped(a)
    case _ => {}
  }

  /** The record of odd locals only grows, by locals that loop opcodes look at. */
  predicate Grows(st: Store, p: Outcome, locals: set<Byte>) { st.odd <= p.st.odd <= st.odd + locals }

  lemma {:induction false} OddGrows(e: Tree, st: Store, moved: set<nat>, env: Env, fuel: nat)
    ensures Grows(st, Eval(e, st, moved, env, fuel), Looped(e))
    decreases fuel, e, 2
  {
    match e
    case Call(_, a, b) =>
      OddGrows(a, st, moved, env, fuel);
      OddGrows(b, Eval(a, st, moved, env, fuel).st, moved, env, fuel);
    case Assign(_, a) => OddGrows(a, st, moved, env, fuel);
    case AssignVoid(_, a) => OddGrows(a, st, moved, env, fuel);
    case Update(_, _, a) => OddGrows(a, st, moved, env, fuel);
    case LandLor(_, a, b) =>
      OddGrows(a, st, moved, env, fuel);
      OddGrows(b, Eval(a, st, moved, env, fuel).st, moved, env, fuel);
    case Two(a, b) =>
      OddGrows(a, st, moved, env, fuel);
      OddGrows(b, Eval(a, st, moved, env, fuel).st, moved, env, fuel);
    case If(c, a, b) =>
      OddGrows(c, st, moved, env, fuel);
      OddGrows(a, Eval(c, st, moved, env, fuel).st, moved, env, fuel);
      OddGrows(b, Eval(c, st, moved, env, fuel).st, moved, env, fuel);
    case Loop(testFirst, _, _, test) =>
      if testFirst { OddGrows(test, st, moved, env, fuel); }
      var p := Eval(test, st, moved, env, fuel);
      OddGrowsInRounds(e, if testFirst then p.st else st, moved, env, fuel);
    case Catch(a) => OddGrows(a, st, moved, env, fuel);
    case Return(a) => OddGrows(a, st, moved, env, fuel);
    case _ =>
  }

  lemma {:induction false} OddGrowsInRounds(e: Tree, st: Store, moved: set<nat>, env: Env, fuel: nat)
    requires e.Loop?
    ensures Grows(st, Rounds(e, st, moved, env, fuel), Looped(e))
    decreases fuel, e, 0
  {
    if fuel > 0 {
      OddGrows(e.body, st, moved, env, fuel);
      var p := Eval(e.body, st, moved, env, fuel);
      OddGrows(e.inc, p.st, moved, env, fuel);
      var q := Eval(e.inc, p.st, moved, env, fuel);
      OddGrows(e.test, q.st, moved, env, fuel);
      var r := Eval(e.test, q.st, moved, env, fuel);
      OddGrowsInRounds(e, r.st, moved, env, fuel - 1);
    }
  }

  /** Only locals in `given` differ, none of those in `live`, and no number is lost anywhere. */
  predicate Alike(st: Store, st': Store, given: set<Byte>, live: set<Byte>) {
    && st.world == st'.world
    && forall x: Byte :: x in live || x !in given || st.locals[x].Number? ==> st'.locals[x] == st.locals[x]
  }

  /** The outcome q of the run with transfers against the outcome p of the run without. */
  predicate SameOutcome(p: Outcome, q: Outcome, given: set<Byte>, after: set<Byte>, error: set<Byte>) {
    match p
    case Normal(v, st) => q.Normal? && q.v == v && Alike(st, q.st, given, after)
    case Leaves(way, v, st) => q.Leaves? && q.way == way && q.v == v && Alike(st, q.st, given, error)
    case Timeout(_) => q.Timeout?
  }

  /** The outcomes are the same if no loop opcode has found anything but a number in a local in `given`. */
  predicate Agree(p: Outcome, q: Outcome, given: set<Byte>, after: set<Byte>, error: set<Byte>) {
    p.st.odd !! given ==> SameOutcome(p, q, given, after, error)
  }

  /** Where nothing is transferred, equal locals stay equal. */
  lemma {:induction false} Unmoved(e: Tree, st: Store, st': Store, moved: set<nat>, given: set<Byte>, live: set<Byte>, env: Env, fuel: nat)
    requires Ids(e) !! moved && Reads(e) <= live && Alike(st, st', given, live)
    ensures Agree(Eval(e, st, {}, env, fuel), Eval(e, st', moved, env, fuel), given, live, live)
    decreases fuel, e, 2
  {
    match e
    case Call(_, _, _) => UnmovedCall(e, st, st', moved, given, live, env, fuel);
    case Assign(_, a) => Unmoved(a, st, st', moved, given, live, env, fuel);
    case AssignVoid(_, a) => Unmoved(a, st, st', moved, given, live, env, fuel);
    case Update(_, _, a) => Unmoved(a, st, st', moved, given, live, env, fuel);
    case LandLor(_, _, _) => UnmovedLogic(e, st, st', moved, given, live, env, fuel);
    case Two(_, _) => UnmovedTwo(e, st, st', moved, given, live, env, fuel);
    case If(_, _, _) => UnmovedIf(e, st, st', moved, given, live, env, fuel);
    case Loop(_, _, _, _) => UnmovedLoop(e, st, st', moved, given, live, env, fuel);
    case Catch(a) => Unmoved(a, st, st', moved, given, live, env, fuel);
    case Return(a) => Unmoved(a, st, st', moved, given, live, env, fuel);
    case _ =>
  }

  lemma {:induction false} UnmovedCall(e: Tree, st: Store, st': Store, moved: set<nat>, given: set<Byte>, live: set<Byte>, env: Env, fuel: nat)
    requires e.Call? && Ids(e) !! moved && Reads(e) <= live && Alike(st, st', given, live)
    ensures Agree(Eval(e, st, {}, env, fuel), Eval(e, st', moved, env, fuel), given, live, live)
    decreases fuel, e, 1
  {
    Unmoved(e.a, st, st', moved, given, live, env, fuel);
    var p, p' := Eval(e.a, st, {}, env, fuel), Eval(e.a, st', moved, env, fuel);
    OddGrows(e.b, p.st, {}, env, fuel);
    if p.Normal? && p.st.odd !! given {
      Unmoved(e.b, p.st, p'.st, moved, given, live, env, fuel);
    }
  }

  lemma {:induction false} UnmovedLogic(e: Tree, st: Store, st': Store, moved: set<nat>, given: set<Byte>, live: set<Byte>, env: Env, fuel: nat)
    requires e.LandLor? && Ids(e) !! moved && Reads(e) <= live && Alike(st, st', given, live)
    ensures Agree(Eval(e, st, {}, env, fuel), Eval(e, st', moved, env, fuel), given, live, live)
    decreases fuel, e, 1
  {
    Unmoved(e.a, st, st', moved, given, live, env, fuel);
    var p, p' := Eval(e.a, st, {}, env, fuel), Eval(e.a, st', moved, env, fuel);
    OddGrows(e.b, p.st, {}, env, fuel);
    if p.Normal? && p.st.odd !! given {
      Unmoved(e.b, p.st, p'.st, moved, given, live, env, fuel);
    }
  }

  lemma {:induction false} UnmovedTwo(e: Tree, st: Store, st': Store, moved: set<nat>, given: set<Byte>, live: set<Byte>, env: Env, fuel: nat)
    requires e.Two? && Ids(e) !! moved && Reads(e) <= live && Alike(st, st', given, live)
    ensures Agree(Eval(e, st, {}, env, fuel), Eval(e, st', moved, env, fuel), given, live, live)
    decreases fuel, e, 1
  {
    Unmoved(e.a, st, st', moved, given, live, env, fuel);
    var p, p' := Eval(e.a, st, {}, env, fuel), Eval(e.a, st', moved, env, fuel);
    OddGrows(e.b, p.st, {}, env, fuel);
    if p.Normal? && p.st.odd !! given {
      Unmoved(e.b, p.st, p'.st, moved, given, live, env, fuel);
    }
  }

  lemma {:induction false} UnmovedIf(e: Tree, st: Store, st': Store, moved: set<nat>, given: set<Byte>, live: set<Byte>, env: Env, fuel: nat)
    requires e.If? && Ids(e) !! moved && Reads(e) <= live && Alike(st, st', given, live)
    ensures Agree(Eval(e, st, {}, env, fuel), Eval(e, st', moved, env, fuel), given, live, live)
    decreases fuel, e, 1
  {
    Unmoved(e.c, st, st', moved, given, live, env, fuel);
    var p, p' := Eval(e.c, st, {}, env, fuel), Eval(e.c, st', moved, env, fuel);
    OddGrows(e.a, p.st, {}, env, fuel);
    OddGrows(e.b, p.st, {}, env, fuel);
    if p.Normal? && p.st.odd !! given {
      Unmoved(e.a, p.st, p'.st, moved, given, live, env, fuel);
      Unmoved(e.b, p.st, p'.st, moved, given, live, env, fuel);
    }
  }

  lemma {:induction false} UnmovedLoop(e: Tree, st: Store, st': Store, moved: set<nat>, given: set<Byte>, live: set<Byte>, env: Env, fuel: nat)
    requires e.Loop? && Ids(e) !! moved && Reads(e) <= live && Alike(st, st', given, live)
    ensures Agree(Eval(e, st, {}, env, fuel), Eval(e, st', moved, env, fuel), given, live, live)
    decreases fuel, e, 1
  {
    if e.testFirst {
      Unmoved(e.test, st, st', moved, given, live, env, fuel);
      var p, p' := Eval(e.test, st, {}, env, fuel), Eval(e.test, st', moved, env, fuel);
      OddGrowsInRounds(e, p.st, {}, env, fuel);
      if p.Normal? && p.st.odd !! given { UnmovedRounds(e, p.st, p'.st, moved, given, live, env, fuel); }
    } else {
      UnmovedRounds(e, st, st', moved, given, live, env, fuel);
    }
  }

  lemma {:induction false} UnmovedRounds(e: Tree, st: Store, st': Store, moved: set<nat>, given: set<Byte>, live: set<Byte>, env: Env, fuel: nat)
    requires e.Loop? && Ids(e) !! moved && Reads(e) <= live && Alike(st, st', given, live)
    ensures Agree(Rounds(e, st, {}, env, fuel), Rounds(e, st', moved, env, fuel), given, live, live)
    decreases fuel, e, 0
  {
    if fuel > 0 {
      OddGrowsInRound(e, st, env, fuel);
      Unmoved(e.body, st, st', moved, given, live, env, fuel);
      var p, p' := Eval(e.body, st, {}, env, fuel), Eval(e.body, st', moved, env, fuel);
      if (p.Normal? || (p.Leaves? && p.way.Continuing?)) && p.st.odd !! given {
        Unmoved(e.inc, p.st, p'.st, moved, given, live, env, fuel);
        var q, q' := Eval(e.inc, p.st, {}, env, fuel), Eval(e.inc, p'.st, moved, env, fuel);
        if q.Normal? && q.st.odd !! given {
          Unmoved(e.test, q.st, q'.st, moved, given, live, env, fuel);
          var r, r' := Eval(e.test, q.st, {}, env, fuel), Eval(e.test, q'.st, moved, env, fuel);
          if r.Normal? && r.st.odd !! given {
            UnmovedRounds(e, r.st, r'.st, moved, given, live, env, fuel - 1);
          }
        }
      }
    }
  }

  /** What one round records stays recorded. */
  lemma {:induction false} OddGrowsInRound(e: Tree, st: Store, env: Env, fuel: nat)
    requires e.Loop? && fuel > 0
    ensures
      var odd := Rounds(e, st, {}, env, fuel).st.odd;
      var p := Eval(e.body, st, {}, env, fuel);
      p.st.odd <= odd &&
      (p.Normal? || (p.Leaves? && p.way.Continuing?) ==>
        var q := Eval(e.inc, p.st, {}, env, fuel);
        q.st.odd <= odd && (q.Normal? ==> Eval(e.test, q.st, {}, env, fuel).st.odd <= odd))
  {
    var p := Eval(e.body, st, {}, env, fuel);
    OddGrows(e.inc, p.st, {}, env, fuel);
    var q := Eval(e.inc, p.st, {}, env, fuel);
    OddGrows(e.test, q.st, {}, env, fuel);
    OddGrowsInRounds(e, Eval(e.test, q.st, {}, env, fuel).st, {}, env, fuel - 1);
  }

  lemma {:induction false} CalmKillsNothing(e: Tree)
    requires Calm(e)
    ensures Kill(e) == {}
  {
    match e
    case Call(_, a, b) =>
      CalmKillsNothing(a);
      CalmKillsNothing(b);
    case Update(_, _, a) => CalmKillsNothing(a);
    case LandLor(_, a, _) => CalmKillsNothing(a);
    case Two(a, b) =>
      CalmKillsNothing(a);
      CalmKillsNothing(b);
    case If(c, _, _) => CalmKillsNothing(c);
    case Return(a) => CalmKillsNothing(a);
    case _ =>
  }

  /** What still matters when an error leaves the tree: nothing outside of a catch, and inside of one
      only what matters behind the tree as well. */
  predicate ErrorLive(e: Tree, after: set<Byte>, error: set<Byte>) {
    error == {} || (error <= after && Calm(e))
  }

  lemma {:induction false} AlikeOnLess(st: Store, st': Store, given: set<Byte>, live: set<Byte>, less: set<Byte>)
    requires Alike(st, st', given, live) && less <= live
    ensures Alike(st, st', given, less)
  {}

  /** Safe transfers change no value that is read later and no way that is taken. */
  lemma {:induction false} TransfersAreInvisible(
    e: Tree, st: Store, st': Store, moved: set<nat>, given: set<Byte>, after: set<Byte>, error: set<Byte>, env: Env, fuel: nat)
    requires Safe(e, moved, after) && Guarded(e) && Given(e, moved) <= given && Alike(st, st', given, Live(e, after)) && ErrorLive(e, after, error)
    ensures Agree(Eval(e, st, {}, env, fuel), Eval(e, st', moved, env, fuel), given, after, error)
    decreases e, 1
  {
    match e
    case Call(f, a, b) => CallIsSame(e, st, st', moved, given, after, error, env, fuel);
    case Assign(_, _) => AssignIsSame(e, st, st', moved, given, after, error, env, fuel);
    case AssignVoid(_, _) => AssignIsSame(e, st, st', moved, given, after, error, env, fuel);
    case Update(_, _, _) => AssignIsSame(e, st, st', moved, given, after, error, env, fuel);
    case LandLor(_, a, b) => LogicIsSame(e, st, st', moved, given, after, error, env, fuel);
    case Two(a, b) => TwoAreSame(e, st, st', moved, given, after, error, env, fuel);
    case If(c, a, b) => IfIsSame(e, st, st', moved, given, after, error, env, fuel);
    case Loop(_, _, _, _) =>
      Unmoved(e, st, st', moved, given, Live(e, after), env, fuel);
      LoopKeepsAll(e, after);
    case Catch(a) => TransfersAreInvisible(a, st, st', moved, given, after, after, env, fuel);
    case Return(a) => TransfersAreInvisible(a, st, st', moved, given, after, error, env, fuel);
    case _ => LeafIsSame(e, st, st', moved, given, after, error, env, fuel);
  }

  lemma {:induction false} AssignIsSame(
    e: Tree, st: Store, st': Store, moved: set<nat>, given: set<Byte>, after: set<Byte>, error: set<Byte>, env: Env, fuel: nat)
    requires e.Assign? || e.AssignVoid? || e.Update?
    requires Safe(e, moved, after) && Guarded(e) && Given(e, moved) <= given && Alike(st, st', given, Live(e, after)) && ErrorLive(e, after, error)
    ensures Agree(Eval(e, st, {}, env, fuel), Eval(e, st', moved, env, fuel), given, after, error)
    decreases e, 0
  {
    var before := if e.Update? then after + {e.x} else after - {e.x};
    TransfersAreInvisible(e.a, st, st', moved, given, before, error, env, fuel);
  }

  lemma {:induction false} LeafIsSame(
    e: Tree, st: Store, st': Store, moved: set<nat>, given: set<Byte>, after: set<Byte>, error: set<Byte>, env: Env, fuel: nat)
    requires e.Nothing? || e.Constant? || e.Read? || e.Count? || e.Less? || e.Below? || e.Jump?
    requires Safe(e, moved, after) && Given(e, moved) <= given && Alike(st, st', given, Live(e, after)) && ErrorLive(e, after, error)
    ensures Agree(Eval(e, st, {}, env, fuel), Eval(e, st', moved, env, fuel), given, after, error)
  {}

  lemma {:induction false} LoopKeepsAll(e: Tree, after: set<Byte>)
    requires e.Loop?
    ensures after <= Live(e, after) && Reads(e) <= Live(e, after)
  {}

  lemma {:induction false} CallIsSame(
    e: Tree, st: Store, st': Store, moved: set<nat>, given: set<Byte>, after: set<Byte>, error: set<Byte>, env: Env, fuel: nat)
    requires e.Call?
    requires Safe(e, moved, after) && Guarded(e) && Given(e, moved) <= given && Alike(st, st', given, Live(e, after)) && ErrorLive(e, after, error)
    ensures Agree(Eval(e, st, {}, env, fuel), Eval(e, st', moved, env, fuel), given, after, error)
    decreases e, 0
  {
    Sequenced(e.a, e.b, after, error);
    TransfersAreInvisible(e.a, st, st', moved, given, Live(e.b, after), error, env, fuel);
    var p, p' := Eval(e.a, st, {}, env, fuel), Eval(e.a, st', moved, env, fuel);
    OddGrows(e.b, p.st, {}, env, fuel);
    if p.Normal? && p.st.odd !! given {
      TransfersAreInvisible(e.b, p.st, p'.st, moved, given, after, error, env, fuel);
    }
  }

  lemma {:induction false} Sequenced(a: Tree, b: Tree, after: set<Byte>, error: set<Byte>)
    requires error == {} || (error <= after && Calm(a) && Calm(b))
    ensures ErrorLive(a, Live(b, after), error) && ErrorLive(b, after, error)
    ensures Live(a, Live(b, after)) == Gen(a) + (Gen(b) - Kill(a)) + (after - (Kill(a) + Kill(b)))
  {
    if error != {} { CalmKillsNothing(b); }
  }

  lemma {:induction false} TwoAreSame(
    e: Tree, st: Store, st': Store, moved: set<nat>, given: set<Byte>, after: set<Byte>, error: set<Byte>, env: Env, fuel: nat)
    requires e.Two?
    requires Safe(e, moved, after) && Guarded(e) && Given(e, moved) <= given && Alike(st, st', given, Live(e, after)) && ErrorLive(e, after, error)
    ensures Agree(Eval(e, st, {}, env, fuel), Eval(e, st', moved, env, fuel), given, after, error)
    decreases e, 0
  {
    Sequenced(e.a, e.b, after, error);
    TransfersAreInvisible(e.a, st, st', moved, given, Live(e.b, after), error, env, fuel);
    var p, p' := Eval(e.a, st, {}, env, fuel), Eval(e.a, st', moved, env, fuel);
    OddGrows(e.b, p.st, {}, env, fuel);
    if p.Normal? && p.st.odd !! given {
      TransfersAreInvisible(e.b, p.st, p'.st, moved, given, after, error, env, fuel);
    }
  }

  lemma {:induction false} LogicIsSame(
    e: Tree, st: Store, st': Store, moved: set<nat>, given: set<Byte>, after: set<Byte>, error: set<Byte>, env: Env, fuel: nat)
    requires e.LandLor?
    requires Safe(e, moved, after) && Guarded(e) && Given(e, moved) <= given && Alike(st, st', given, Live(e, after)) && ErrorLive(e, after, error)
    ensures Agree(Eval(e, st, {}, env, fuel), Eval(e, st', moved, env, fuel), given, after, error)
    decreases e, 0
  {
    assert Live(e, after) == Live(e.a, after + Gen(e.b));
    TransfersAreInvisible(e.a, st, st', moved, given, after + Gen(e.b), error, env, fuel);
    var p, p' := Eval(e.a, st, {}, env, fuel), Eval(e.a, st', moved, env, fuel);
    OddGrows(e.b, p.st, {}, env, fuel);
    if p.Normal? && p.st.odd !! given {
      AlikeOnLess(p.st, p'.st, given, after + Gen(e.b), Live(e.b, after));
      TransfersAreInvisible(e.b, p.st, p'.st, moved, given, after, error, env, fuel);
    }
  }

  lemma {:induction false} IfIsSame(
    e: Tree, st: Store, st': Store, moved: set<nat>, given: set<Byte>, after: set<Byte>, error: set<Byte>, env: Env, fuel: nat)
    requires e.If?
    requires Safe(e, moved, after) && Guarded(e) && Given(e, moved) <= given && Alike(st, st', given, Live(e, after)) && ErrorLive(e, after, error)
    ensures Agree(Eval(e, st, {}, env, fuel), Eval(e, st', moved, env, fuel), given, after, error)
    decreases e, 0
  {
    var live := after + Reads(e.a) + Reads(e.b);
    assert Live(e, after) == Live(e.c, live);
    TransfersAreInvisible(e.c, st, st', moved, given, live, error, env, fuel);
    var p, p' := Eval(e.c, st, {}, env, fuel), Eval(e.c, st', moved, env, fuel);
    OddGrows(e.a, p.st, {}, env, fuel);
    OddGrows(e.b, p.st, {}, env, fuel);
    if p.Normal? && p.st.odd !! given {
      Unmoved(e.a, p.st, p'.st, moved, given, live, env, fuel);
      Unmoved(e.b, p.st, p'.st, moved, given, live, env, fuel);
    }
  }

  // ---------- The optimizer ----------

  /** last_local_refs, the reads already rewritten, and the two bits of optimizer_state. */
  datatype Opt = Opt(refs: map<Byte, nat>, moved: set<nat>, inLoop: bool, inCond: bool)

  predicate Plain(s: Opt) { !s.inLoop && !s.inCond }

  function Forget(s: Opt, x: Byte): Opt { s.(refs := s.refs - {x}) }

  /** An assignment makes the last read of x a transfer. */
  function Settle(s: Opt, x: Byte): Opt {
    if Plain(s) && x in s.refs then Forget(s, x).(moved := s.moved + {s.refs[x]}) else s
  }

  function Optimized(e: Tree, s: Opt): Opt {
    match e
    case Read(id, x) => if Plain(s) then s.(refs := s.refs[x := id]) else Forget(s, x)
    case Call(_, a, b) => Optimized(b, Optimized(a, s))
    case Assign(x, a) => Forget(Settle(Optimized(a, s), x), x)
    case AssignVoid(x, a) => Settle(Optimized(a, s), x)
    case Update(x, _, a) => Forget(Optimized(a, s), x)
    case LandLor(_, a, b) => Optimized(b, Optimized(a, s))
    case Two(a, b) => Optimized(b, Optimized(a, s))
    case If(c, a, b) =>
      var s1 := Optimized(c, s);
      Optimized(b, Optimized(a, s1.(inCond := true))).(inCond := s1.inCond)
    case Loop(_, body, inc, test) =>
      Optimized(test, Optimized(inc, Optimized(body, s.(inLoop := true)))).(inLoop := s.inLoop)
    case Catch(a) => Optimized(a, s)
    case Return(a) => Optimized(a, s)
    case _ => s
  }

  /** optimizer_end_function: what is still recorded is never read again. */
  function Ended(s: Opt): set<nat> { s.moved + s.refs.Values }

  /** The read `id` may be a transfer when only `after` matters behind the tree. */
  ghost predicate Due(s: Opt, id: nat, after: set<Byte>) {
    id in s.moved || exists x :: x in s.refs && s.refs[x] == id && x !in after
  }

  /** Inside of an if or a loop nothing is recorded and nothing rewritten. */
  lemma {:induction false} InsideForgets(e: Tree, s: Opt)
    requires !Plain(s)
    ensures
      var r := Optimized(e, s);
      && r.moved == s.moved && r.inLoop == s.inLoop && r.inCond == s.inCond
      && forall x :: x in r.refs ==> x in s.refs && r.refs[x] == s.refs[x] && x !in Reads(e)
  {
    match e
    case Call(_, a, b) =>
      InsideForgets(a, s);
      InsideForgets(b, Optimized(a, s));
    case Assign(_, a) => InsideForgets(a, s);
    case AssignVoid(_, a) => InsideForgets(a, s);
    case Update(_, _, a) => InsideForgets(a, s);
    case LandLor(_, a, b) =>
      InsideForgets(a, s);
      InsideForgets(b, Optimized(a, s));
    case Two(a, b) =>
      InsideForgets(a, s);
      InsideForgets(b, Optimized(a, s));
    case If(c, a, b) =>
      InsideForgets(c, s);
      var s1 := Optimized(c, s).(inCond := true);
      InsideForgets(a, s1);
      InsideForgets(b, Optimized(a, s1));
    case Loop(_, body, inc, test) =>
      var s1 := s.(inLoop := true);
      InsideForgets(body, s1);
      InsideForgets(inc, Optimized(body, s1));
      InsideForgets(test, Optimized(inc, Optimized(body, s1)));
    case Catch(a) => InsideForgets(a, s);
    case Return(a) => InsideForgets(a, s);
    case _ =>
  }

  /** What the optimizer does to the reads recorded before a tree whose effects are gen and kill. */
  ghost predicate Follows(s: Opt, r: Opt, ids: set<nat>, gen: set<Byte>, kill: set<Byte>) {
    && Plain(r) && s.moved <= r.moved
    && (forall x :: x in r.refs && r.refs[x] !in ids ==> x in s.refs && s.refs[x] == r.refs[x] && x !in gen)
    && (forall id :: id in r.moved && id !in ids && id !in s.moved ==>
          exists x :: x in s.refs && s.refs[x] == id && x !in gen && x in kill)
  }

  /** Every recorded read belongs to the tree or was recorded before, and stays recorded only until its
      local is read again; it is rewritten only when its local is assigned first. */
  lemma {:induction false} OptimizedFollows(e: Tree, s: Opt)
    requires Plain(s) && Guarded(e)
    ensures Follows(s, Optimized(e, s), Ids(e), Gen(e), Kill(e))
    decreases e
  {
    match e
    case Call(_, a, b) =>
      OptimizedFollows(a, s);
      OptimizedFollows(b, Optimized(a, s));
      FollowsThen(s, Optimized(a, s), Optimized(e, s), a, b);
    case Assign(_, a) => OptimizedFollows(a, s);
    case AssignVoid(_, a) => OptimizedFollows(a, s);
    case Update(_, _, a) => OptimizedFollows(a, s);
    case LandLor(_, a, b) =>
      OptimizedFollows(a, s);
      OptimizedFollows(b, Optimized(a, s));
      FollowsThen(s, Optimized(a, s), Optimized(e, s), a, b);
      CalmKillsNothing(b);
    case Two(a, b) =>
      OptimizedFollows(a, s);
      OptimizedFollows(b, Optimized(a, s));
      FollowsThen(s, Optimized(a, s), Optimized(e, s), a, b);
    case If(c, a, b) =>
      OptimizedFollows(c, s);
      var s1 := Optimized(c, s).(inCond := true);
      InsideForgets(a, s1);
      InsideForgets(b, Optimized(a, s1));
    case Loop(_, body, inc, test) =>
      var s1 := s.(inLoop := true);
      InsideForgets(body, s1);
      InsideForgets(inc, Optimized(body, s1));
      InsideForgets(test, Optimized(inc, Optimized(body, s1)));
    case Catch(a) =>
      OptimizedFollows(a, s);
      CalmKillsNothing(a);
    case Return(a) => OptimizedFollows(a, s);
    case _ =>
  }

  lemma {:induction false} FollowsThen(s: Opt, s1: Opt, s2: Opt, a: Tree, b: Tree)
    requires Follows(s, s1, Ids(a), Gen(a), Kill(a)) && Follows(s1, s2, Ids(b), Gen(b), Kill(b))
    ensures Follows(s, s2, Ids(a) + Ids(b), Gen(a) + (Gen(b) - Kill(a)), Kill(a) + Kill(b))
  {
  }

  /** The optimizer records and rewrites only reads it has seen. */
  lemma {:induction false} OptimizedOwns(e: Tree, s: Opt)
    ensures
      var r := Optimized(e, s);
      && r.refs.Values <= s.refs.Values + Ids(e) && r.moved <= s.moved + s.refs.Values + Ids(e)
  {
    match e
    case Call(_, a, b) =>
      OptimizedOwns(a, s);
      OptimizedOwns(b, Optimized(a, s));
    case Assign(x, a) =>
      OptimizedOwns(a, s);
      SettledOwns(Optimized(a, s), x);
    case AssignVoid(x, a) =>
      OptimizedOwns(a, s);
      SettledOwns(Optimized(a, s), x);
    case Update(_, _, a) => OptimizedOwns(a, s);
    case LandLor(_, a, b) =>
      OptimizedOwns(a, s);
      OptimizedOwns(b, Optimized(a, s));
    case Two(a, b) =>
      OptimizedOwns(a, s);
      OptimizedOwns(b, Optimized(a, s));
    case If(c, a, b) =>
      OptimizedOwns(c, s);
      var s1 := Optimized(c, s).(inCond := true);
      OptimizedOwns(a, s1);
      OptimizedOwns(b, Optimized(a, s1));
    case Loop(_, body, inc, test) =>
      var s1 := s.(inLoop := true);
      OptimizedOwns(body, s1);
      OptimizedOwns(inc, Optimized(body, s1));
      OptimizedOwns(test, Optimized(inc, Optimized(body, s1)));
    case Catch(a) => OptimizedOwns(a, s);
    case Return(a) => OptimizedOwns(a, s);
    case _ =>
  }

  lemma {:induction false} SettledOwns(s: Opt, x: Byte)
    ensures
      var r := Settle(s, x);
      && r.refs.Values <= s.refs.Values && r.moved <= s.moved + s.refs.Values
      && Forget(r, x).refs.Values <= s.refs.Values
  {}

  /** The reads of e are new to the optimizer. */
  predicate Fresh(e: Tree, s: Opt) { Ids(e) !! s.moved && Ids(e) !! s.refs.Values }

  /** `moved` holds only reads of e that may be transfers. */
  ghost predicate AllDue(e: Tree, r: Opt, moved: set<nat>, after: set<Byte>) {
    forall id :: id in moved && id in Ids(e) ==> Due(r, id, after)
  }

  /** Whatever the optimizer rewrites, during the tree or later, is safe. */
  lemma {:induction false} OptimizedIsSafe(e: Tree, s: Opt, moved: set<nat>, after: set<Byte>)
    requires Plain(s) && Guarded(e) && Distinct(e) && Fresh(e, s) && AllDue(e, Optimized(e, s), moved, after)
    ensures Safe(e, moved, after)
    decreases e
  {
    match e
    case Read(id, x) =>
    case Call(_, a, b) =>
      SafeHalves(a, b, s, moved, after);
      OptimizedIsSafe(a, s, moved, Live(b, after));
      OptimizedIsSafe(b, Optimized(a, s), moved, after);
    case Assign(x, a) =>
      AssignedDue(a, s, x, moved, after);
      OptimizedIsSafe(a, s, moved, after - {x});
    case AssignVoid(x, a) =>
      AssignedDue(a, s, x, moved, after);
      OptimizedIsSafe(a, s, moved, after - {x});
    case Update(x, _, a) =>
      UpdatedDue(a, s, x, moved, after);
      OptimizedIsSafe(a, s, moved, after + {x});
    case LandLor(_, a, b) =>
      SafeHalves(a, b, s, moved, after);
      CalmKillsNothing(b);
      assert Live(b, after) == after + Gen(b);
      OptimizedIsSafe(a, s, moved, Live(b, after));
      OptimizedIsSafe(b, Optimized(a, s), moved, after);
    case Two(a, b) =>
      SafeHalves(a, b, s, moved, after);
      OptimizedIsSafe(a, s, moved, Live(b, after));
      OptimizedIsSafe(b, Optimized(a, s), moved, after);
    case If(c, a, b) =>
      ConditionDue(e, s, moved, after);
      OptimizedIsSafe(c, s, moved, after + Reads(a) + Reads(b));
    case Loop(_, _, _, _) => LoopDue(e, s, moved, after);
    case Catch(a) => OptimizedIsSafe(a, s, moved, after);
    case Return(a) => OptimizedIsSafe(a, s, moved, after);
    case _ =>
  }

  lemma {:induction false} DueBefore(s1: Opt, s2: Opt, b: Tree, id: nat, after: set<Byte>)
    requires Follows(s1, s2, Ids(b), Gen(b), Kill(b)) && id !in Ids(b) && Due(s2, id, after)
    ensures Due(s1, id, Live(b, after))
  {}

  lemma {:induction false} SafeHalves(a: Tree, b: Tree, s: Opt, moved: set<nat>, after: set<Byte>)
    requires Plain(s) && Guarded(a) && Guarded(b) && Ids(a) !! Ids(b) && Fresh(a, s) && Fresh(b, s)
    requires
      var r := Optimized(b, Optimized(a, s));
      AllDue(a, r, moved, after) && AllDue(b, r, moved, after)
    ensures
      var s1 := Optimized(a, s);
      Plain(s1) && Fresh(b, s1) && AllDue(a, s1, moved, Live(b, after))
  {
    var s1 := Optimized(a, s);
    OptimizedFollows(a, s);
    OptimizedFollows(b, s1);
    OptimizedOwns(a, s);
    forall id | id in moved && id in Ids(a) ensures Due(s1, id, Live(b, after)) {
      DueBefore(s1, Optimized(b, s1), b, id, after);
    }
  }

  lemma {:induction false} NotDue(r: Opt, id: nat, after: set<Byte>)
    requires id !in r.moved && id !in r.refs.Values
    ensures !Due(r, id, after)
  {}

  lemma {:induction false} AssignedDue(a: Tree, s: Opt, x: Byte, moved: set<nat>, after: set<Byte>)
    requires
      var r := Settle(Optimized(a, s), x);
      AllDue(a, r, moved, after) || AllDue(a, Forget(r, x), moved, after)
    ensures AllDue(a, Optimized(a, s), moved, after - {x})
  {
    var s1 := Optimized(a, s);
    var r := Settle(s1, x);
    forall id | id in moved && id in Ids(a) ensures Due(s1, id, after - {x}) {
      assert Due(r, id, after) || Due(Forget(r, x), id, after);
    }
  }

  lemma {:induction false} UpdatedDue(a: Tree, s: Opt, x: Byte, moved: set<nat>, after: set<Byte>)
    requires AllDue(a, Forget(Optimized(a, s), x), moved, after)
    ensures AllDue(a, Optimized(a, s), moved, after + {x})
  {
    var s1 := Optimized(a, s);
    forall id | id in moved && id in Ids(a) ensures Due(s1, id, after + {x}) {
      assert Due(Forget(s1, x), id, after);
    }
  }

  lemma {:induction false} ConditionDue(e: Tree, s: Opt, moved: set<nat>, after: set<Byte>)
    requires e.If? && Plain(s) && Guarded(e) && Distinct(e) && Fresh(e, s)
    requires AllDue(e, Optimized(e, s), moved, after)
    ensures Ids(e.a) !! moved && Ids(e.b) !! moved
    ensures AllDue(e.c, Optimized(e.c, s), moved, after + Reads(e.a) + Reads(e.b))
  {
    var s1 := Optimized(e.c, s);
    var s2 := s1.(inCond := true);
    var r := Optimized(e, s);
    OptimizedOwns(e.c, s);
    InsideForgets(e.a, s2);
    InsideForgets(e.b, Optimized(e.a, s2));
    OptimizedFollows(e.c, s);
    forall id | id in Ids(e.a) + Ids(e.b) ensures id !in moved { NotDue(r, id, after); }
    forall id | id in moved && id in Ids(e.c) ensures Due(s1, id, after + Reads(e.a) + Reads(e.b)) {
      assert Due(r, id, after);
    }
  }

  lemma {:induction false} LoopDue(e: Tree, s: Opt, moved: set<nat>, after: set<Byte>)
    requires e.Loop? && Plain(s) && Fresh(e, s) && AllDue(e, Optimized(e, s), moved, after)
    ensures Ids(e) !! moved
  {
    var s1 := s.(inLoop := true);
    var r := Optimized(e, s);
    InsideForgets(e.body, s1);
    InsideForgets(e.inc, Optimized(e.body, s1));
    InsideForgets(e.test, Optimized(e.inc, Optimized(e.body, s1)));
    forall id | id in Ids(e) ensures id !in moved { NotDue(r, id, after); }
  }

  // ---------- The result ----------

  const START: Opt := Opt(map[], {}, false, false)

  /** The reads of a function body that the optimizer turns into transfers. */
  function Transfers(e: Tree): set<nat> { Ended(Optimized(e, START)) }

  /** What the caller sees: the value or the way out, and what has happened outside of the locals. */
  predicate Equivalent(p: Outcome, q: Outcome) {
    match p
    case Normal(v, st) => q.Normal? && q.v == v && q.st.world == st.world
    case Leaves(way, v, st) => q.Leaves? && q.way == way && q.v == v && q.st.world == st.world
    case Timeout(_) => q.Timeout?
  }

  /** The optimized function does what the original does on every run in which a loop opcode finds only
      numbers in the locals that are transferred. */
  lemma {:induction false} OptimizerKeepsMeaning(e: Tree, st: Store, env: Env, fuel: nat)
    requires Guarded(e) && Distinct(e)
    ensures
      var p := Eval(e, st, {}, env, fuel);
      p.st.odd !! Given(e, Transfers(e)) ==> Equivalent(p, Eval(e, st, Transfers(e), env, fuel))
  {
    var r, given := Optimized(e, START), Given(e, Transfers(e));
    forall id | id in Transfers(e) && id in Ids(e) ensures Due(r, id, {}) {}
    OptimizedIsSafe(e, START, Transfers(e), {});
    TransfersAreInvisible(e, st, st, Transfers(e), given, {}, {}, env, fuel);
  }

  /** It does so on every run at all when no loop opcode looks at a local that is transferred. */
  lemma {:induction false} OptimizerIsRight(e: Tree, st: Store, env: Env, fuel: nat)
    requires Guarded(e) && Distinct(e) && Looped(e) !! Given(e, Transfers(e)) && st.odd == {}
    ensures Equivalent(Eval(e, st, {}, env, fuel), Eval(e, st, Transfers(e), env, fuel))
  {
    OddGrows(e, st, {}, env, fuel);
    OptimizerKeepsMeaning(e, st, env, fuel);
  }

  /** The arguments of f(x, 0 && (x = 7), x): the assignment is skipped, and the last read finds x destroyed. */
  function Skipped(): Tree {
    Two(Two(Read(0, 0), LandLor(true, Constant(Number(0)), Assign(0, Constant(Number(7))))), Read(1, 0))
  }

  lemma {:induction false} SkippedTransfers()
    ensures !Guarded(Skipped()) && Distinct(Skipped()) && Transfers(Skipped()) == {0, 1}
  {
    var s1 := START.(refs := map[0 := 0]);
    assert Optimized(Read(0, 0), START) == s1;
    var s2 := Optimized(Two(Read(0, 0), LandLor(true, Constant(Number(0)), Assign(0, Constant(Number(7))))), START);
    assert s2 == Optimized(Assign(0, Constant(Number(7))), s1);
    assert s2.moved == {0} && s2.refs == map[];
    assert Optimized(Skipped(), START) == s2.(refs := map[0 := 1]);
  }

  lemma {:induction false} SkippedResult(st: Store, moved: set<nat>, env: Env, fuel: nat)
    ensures
      var v := if 0 in moved then Destroyed(st.locals[0], env) else st.locals[0];
      var o := Eval(Skipped(), st, moved, env, fuel);
      o.Normal? && o.v == v && o.st.world == st.world
  {
    var e := Skipped();
    var st1 := if 0 in moved then Put(st, 0, Destroyed(st.locals[0], env)) else st;
    assert Eval(e.a.a, st, moved, env, fuel) == Normal(st.locals[0], st1);
    assert Eval(e.a.b, st1, moved, env, fuel) == Normal(Number(0), st1);
    assert Eval(e.a, st, moved, env, fuel) == Normal(Number(0), st1);
  }

  /** The guard is needed: here the optimized function returns the same exactly when the local is a number. */
  lemma {:induction false} SkippedAssignment(st: Store, env: Env, fuel: nat)
    ensures !Guarded(Skipped()) && Distinct(Skipped()) && Looped(Skipped()) == {}
    ensures
      var e := Skipped();
      Equivalent(Eval(e, st, {}, env, fuel), Eval(e, st, Transfers(e), env, fuel)) <==> st.locals[0].Number?
  {
    SkippedTransfers();
    SkippedResult(st, {}, env, fuel);
    SkippedResult(st, {0, 1}, env, fuel);
  }

  /** f(x); while (test) return 1;  The last read of x, by the optimizer's reckoning, is the argument. */
  function Tested(f: nat, x: Byte, test: Tree): Tree {
    Two(Call(f, Read(0, x), Nothing), Loop(true, Return(Constant(Number(1))), Nothing, test))
  }

  lemma {:induction false} TestedTransfers(f: nat, x: Byte, test: Tree)
    requires test.Less? || test.Below? || test.Count?
    ensures Guarded(Tested(f, x, test)) && Distinct(Tested(f, x, test)) && Transfers(Tested(f, x, test)) == {0}
  {
    var e := Tested(f, x, test);
    var s1 := START.(refs := map[x := 0]);
    assert Optimized(e.a, START) == s1;
    var s2 := s1.(inLoop := true);
    assert Optimized(e.b.body, s2) == s2;
    assert Optimized(e.b, s1) == s1;
    assert Optimized(e, START) == s1;
    assert s1.refs[x] == 0 && s1.refs.Values == {0};
  }

  lemma {:induction false} TestedResult(f: nat, x: Byte, test: Tree, st: Store, moved: set<nat>, env: Env, fuel: nat)
    requires fuel > 0 && (test.Less? || test.Below? || test.Count?)
    ensures
      var st1 := if 0 in moved then Put(st, x, Destroyed(st.locals[x], env)) else st;
      var p := Applied(env, f, st.locals[x], Number(0), st1);
      var q := Eval(test, p.st, moved, env, fuel);
      Eval(Tested(f, x, test), st, moved, env, fuel) ==
        if !p.Normal? then p
        else if !q.Normal? || !Holds(q.v) then q
        else Leaves(Returning, Number(1), q.st)
  {
    var e := Tested(f, x, test);
    var st1 := if 0 in moved then Put(st, x, Destroyed(st.locals[x], env)) else st;
    var p := Applied(env, f, st.locals[x], Number(0), st1);
    assert Eval(e.a.b, st1, moved, env, fuel) == Normal(Number(0), st1);
    assert Eval(e.a, st, moved, env, fuel) == p;
    var q := Eval(test, p.st, moved, env, fuel);
    assert Eval(e.b.body.a, q.st, moved, env, fuel) == Normal(Number(1), q.st);
    assert Eval(e.b.body, q.st, moved, env, fuel) == Leaves(Returning, Number(1), q.st);
    assert Rounds(e.b, q.st, moved, env, fuel) == Leaves(Returning, Number(1), q.st);
  }

  lemma {:induction false} LoopOpcodes(x: Byte, y: Byte, step: int, st: Store, moved: set<nat>, env: Env, fuel: nat)
    ensures
      var lt := LessThan(st.locals[x], st.locals[y]);
      Eval(Less(x, y), st, moved, env, fuel) == Opcode(lt, Seen(Seen(st, x), y))
    ensures
      var (c, v) := Counted(st.locals[x], step);
      Eval(Count(x, step), st, moved, env, fuel) == Opcode(c, Put(Seen(st, x), x, v))
  {}

  /** The loop opcodes count: where a comparison follows, the optimized function does the same exactly
      when destroying x does not change what the comparison finds.  With two strings it always does. */
  lemma {:induction false} TransferThenCompare(f: nat, x: Byte, y: Byte, st: Store, env: Env, fuel: nat)
    requires fuel > 0
    ensures
      var e := Tested(f, x, Less(x, y));
      var v, u := st.locals[x], st.locals[y];
      var v' := Destroyed(v, env);
      var fails := env.call(f, v, Number(0), st.world).0.Thrown?;
      var same := Equivalent(Eval(e, st, {}, env, fuel), Eval(e, st, Transfers(e), env, fuel));
      && Guarded(e) && Distinct(e)
      && (same <==> fails || LessThan(v, u) == LessThan(v', if x == y then v' else u))
      && (x != y && v.Text? && u.Text? && !fails ==> !same)
  {
    hide Eval, Transfers, Guarded, Distinct, Tested;
    TestedTransfers(f, x, Less(x, y));
    TestedResult(f, x, Less(x, y), st, {}, env, fuel);
    TestedResult(f, x, Less(x, y), st, {0}, env, fuel);
    var st1 := Put(st, x, Destroyed(st.locals[x], env));
    var v := st.locals[x];
    LoopOpcodes(x, y, -1, Applied(env, f, v, Number(0), st).st, {}, env, fuel);
    LoopOpcodes(x, y, -1, Applied(env, f, v, Number(0), st1).st, {0}, env, fuel);
  }

  /** The same for counting down.  A string is an error that goes unnoticed then, and a real is tested by
      the number that is found in its place. */
  lemma {:induction false} TransferThenCount(f: nat, x: Byte, st: Store, env: Env, fuel: nat)
    requires fuel > 0
    ensures
      var e := Tested(f, x, Count(x, -1));
      var v := st.locals[x];
      var fails := env.call(f, v, Number(0), st.world).0.Thrown?;
      var same := Equivalent(Eval(e, st, {}, env, fuel), Eval(e, st, Transfers(e), env, fuel));
      && Guarded(e) && Distinct(e)
      && (same <==> fails || v.Number? || (v.Real? && (Cut(v.r) == 0 <==> env.word(v) == 0)))
  {
    hide Eval, Transfers, Guarded, Distinct, Tested;
    TestedTransfers(f, x, Count(x, -1));
    TestedResult(f, x, Count(x, -1), st, {}, env, fuel);
    TestedResult(f, x, Count(x, -1), st, {0}, env, fuel);
    var st1 := Put(st, x, Destroyed(st.locals[x], env));
    var v := st.locals[x];
    LoopOpcodes(x, x, -1, Applied(env, f, v, Number(0), st).st, {}, env, fuel);
    LoopOpcodes(x, x, -1, Applied(env, f, v, Number(0), st1).st, {0}, env, fuel);
  }

  // ---------- The pass itself ----------

  class Pass {
    var lastLocalRefs: map<Byte, nat>
    var moved: set<nat>                 // the nodes whose opcode is F_TRANSFER_LOCAL now
    var inLoop: bool
    var inCond: bool

    constructor ()
      ensures Abstract() == START
    {
      lastLocalRefs, moved, inLoop, inCond := map[], {}, false, false;
    }

    function Abstract(): Opt
      reads this
    {
      Opt(lastLocalRefs, moved, inLoop, inCond)
    }

    method MakeTransfer(x: Byte)
      modifies this
      ensures Abstract() == Settle(old(Abstract()), x)
    {
      if x in lastLocalRefs && !inLoop && !inCond {
        moved := moved + {lastLocalRefs[x]};
        lastLocalRefs := lastLocalRefs - {x};
      }
    }

    method Optimize(e: Tree)
      modifies this
      ensures Abstract() == Optimized(e, old(Abstract()))
      decreases e
    {
      match e
      case Read(id, x) =>
        if !inLoop && !inCond {
          lastLocalRefs := lastLocalRefs[x := id];
        } else {
          lastLocalRefs := lastLocalRefs - {x};
        }
      case Call(_, a, b) =>
        Optimize(a);
        Optimize(b);
      case Assign(x, a) =>
        Optimize(a);
        MakeTransfer(x);
        lastLocalRefs := lastLocalRefs - {x};
      case AssignVoid(x, a) =>
        Optimize(a);
        MakeTransfer(x);
      case Update(x, _, a) =>
        Optimize(a);
        lastLocalRefs := lastLocalRefs - {x};
      case LandLor(_, a, b) =>
        Optimize(a);
        Optimize(b);
      case Two(a, b) =>
        Optimize(a);
        Optimize(b);
      case If(c, a, b) =>
        Optimize(c);
        var saved := inCond;
        inCond := true;
        Optimize(a);
        Optimize(b);
        inCond := saved;
      case Loop(_, body, inc, test) =>
        var saved := inLoop;
        inLoop := true;
        Optimize(body);
        Optimize(inc);
        Optimize(test);
        inLoop := saved;
      case Catch(a) => Optimize(a);
      case Return(a) => Optimize(a);
      case _ =>
    }

    /** optimizer_end_function */
    method End()
      modifies this
      ensures moved == Ended(old(Abstract()))
    {
      var i: int := 0;
      while i < 256
        invariant 0 <= i <= 256 && lastLocalRefs == old(lastLocalRefs)
        invariant moved == old(moved) + set x | x in lastLocalRefs && x < i :: lastLocalRefs[x]
      {
        if i in lastLocalRefs { moved := moved + {lastLocalRefs[i]}; }
        i := i + 1;
      }
    }
  }

  /** Optimizes a function body; the result is the set of reads that are transfers now. */
  method OptimizeFunction(e: Tree) returns (moved: set<nat>)
    requires Guarded(e) && Distinct(e)
    ensures moved == Transfers(e)
    ensures forall st, env, fuel ::
      Eval(e, st, {}, env, fuel).st.odd !! Given(e, moved) ==>
        Equivalent(Eval(e, st, {}, env, fuel), Eval(e, st, moved, env, fuel))
  {
    var pass := new Pass();
    pass.Optimize(e);
    pass.End();
    moved := pass.moved;
    forall st, env, fuel | Eval(e, st, {}, env, fuel).st.odd !! Given(e, moved)
      ensures Equivalent(Eval(e, st, {}, env, fuel), Eval(e, st, moved, env, fuel))
    {
      OptimizerKeepsMeaning(e, st, env, fuel);
    }
  }
}
