/** What later writes keep of code already generated: code is only appended to, or patched at the
    offsets of branches that are still open. */
module Patching {
  import opened Bytecode
  import opened ParseTree
  import opened Layout

  /** G agrees with F on [lo, hi). */
  predicate Agree(F: seq<Byte>, G: seq<Byte>, lo: nat, hi: nat) {
    hi <= |G| && hi <= |F| && forall i :: lo <= i < hi ==> G[i] == F[i]
  }

  // ---------- Expressions survive changes elsewhere ----------

  lemma {:induction false} KeepFlushed(F: seq<Byte>, G: seq<Byte>, p: Pos)
    requires Flushed(F, p) && Agree(F, G, p.at, Flush(p).at)
    ensures Flushed(G, p)
  {}

  lemma {:induction false} KeepEmitted(F: seq<Byte>, G: seq<Byte>, p: Pos, bytes: seq<Byte>)
    requires Emitted(F, p, bytes) && Agree(F, G, p.at, Flush(p).at + |bytes|)
    ensures Emitted(G, p, bytes)
  {}

  lemma {:induction false} KeepLeads(F: seq<Byte>, G: seq<Byte>, h: nat, target: nat)
    requires Leads(F, h, target) && Agree(F, G, h, h + 2)
    ensures Leads(G, h, target)
  {}

  lemma {:induction false} KeepExpr(F: seq<Byte>, G: seq<Byte>, e: Expr, p: Pos)
    requires HasExpr(F, e, p) && Agree(F, G, p.at, AfterExpr(e, p).at)
    ensures HasExpr(G, e, p)
    decreases e, 1
  {
    hide Emitted, Flushed, Leads;
    match e
    case Number(n) =>
      KeepNumber(F, G, n, p);
    case Local(x) =>
      if x <= PUSH_MASK { KeepPush(F, G, p, PushLocal(x)); } else { KeepEmitted(F, G, p, [F_LOCAL, x]); }
    case Binary(op, l, r) =>
      KeepOperands(F, G, e, p);
      KeepEmitted(F, G, AfterExpr(r, AfterExpr(l, p)), [BinaryCode(op)]);
    case Unary(uop, e1) =>
      KeepExpr(F, G, e1, p);
      ExprGrows(e1, p);
      KeepEmitted(F, G, AfterExpr(e1, p), [if uop.Not? then F_NOT else F_NEGATE]);
    case Assign(x, e1) =>
      KeepExpr(F, G, e1, p);
      ExprGrows(e1, p);
      KeepEmitted(F, G, AfterExpr(e1, p), [F_LOCAL_LVALUE, x, F_ASSIGN]);
    case LandLor(isAnd, chain, r) =>
      KeepLandLor(F, G, e, p);
    case Cond(c, a, b) =>
      KeepTernary(F, G, e, p);
  }

  lemma {:induction false} KeepPush(F: seq<Byte>, G: seq<Byte>, p: Pos, u: Push)
    requires PushedAt(F, p, u) && Agree(F, G, p.at, Pushing(p, u).at)
    ensures PushedAt(G, p, u)
  {
    if |p.pend| == 254 { KeepFlushed(F, G, Pos(p.at, p.pend + [u])); }
  }

  lemma {:induction false} KeepNumber(F: seq<Byte>, G: seq<Byte>, n: Int32, p: Pos)
    requires HasExpr(F, Number(n), p) && Agree(F, G, p.at, AfterNumber(n, p).at)
    ensures HasExpr(G, Number(n), p)
  {
    hide Emitted;
    if 0 <= n <= PUSH_MASK {
      KeepPush(F, G, p, PushNumber(n));
    } else if 0 <= n < 256 {
      KeepEmitted(F, G, p, [F_BYTE, n]);
    } else if -256 < n < 0 {
      KeepEmitted(F, G, p, [F_NBYTE, -(n as int)]);
    } else {
      KeepEmitted(F, G, p, [F_NUMBER] + IntBytes(n));
    }
  }

  lemma {:induction false} KeepOperands(F: seq<Byte>, G: seq<Byte>, e: Expr, p: Pos)
    requires e.Binary? && HasExpr(F, e.l, p) && HasExpr(F, e.r, AfterExpr(e.l, p))
    requires Agree(F, G, p.at, AfterExpr(e.r, AfterExpr(e.l, p)).at)
    ensures HasExpr(G, e.l, p) && HasExpr(G, e.r, AfterExpr(e.l, p))
    ensures p.at <= AfterExpr(e.l, p).at <= AfterExpr(e.r, AfterExpr(e.l, p)).at
    decreases e, 0
  {
    ExprGrows(e.l, p);
    ExprGrows(e.r, AfterExpr(e.l, p));
    KeepExpr(F, G, e.l, p);
    KeepExpr(F, G, e.r, AfterExpr(e.l, p));
  }

  lemma {:induction false} KeepLandLor(F: seq<Byte>, G: seq<Byte>, e: Expr, p: Pos)
    requires e.LandLor? && HasExpr(F, e, p) && Agree(F, G, p.at, AfterExpr(e, p).at)
    ensures HasExpr(G, e, p)
    decreases e, 0
  {
    hide Emitted, Flushed, Leads, HasChain, ChainPatched, ChainHoles, AfterChain;
    var q := AfterChain(e.chain, p);
    var end := AfterExpr(e, p).at;
    ChainGrows(e.chain, p);
    ExprGrows(e.r, Branch(q));
    KeepChain(F, G, e.chain, p);
    KeepExpr(F, G, e.r, Branch(q));
    KeepFlushed(F, G, AfterExpr(e.r, Branch(q)));
    KeepEmitted(F, G, q, [LogicCode(e.isAnd)]);
    KeepLeads(F, G, Hole(q), end);
    KeepChainPatched(F, G, e.isAnd, e.chain, p, end);
  }

  lemma {:induction false} KeepChainPatched(F: seq<Byte>, G: seq<Byte>, isAnd: bool, chain: Chain, p: Pos, end: nat)
    requires ChainPatched(F, isAnd, ChainHoles(chain, p), end) && Agree(F, G, p.at, AfterChain(chain, p).at)
    ensures ChainPatched(G, isAnd, ChainHoles(chain, p), end)
  {
    hide ChainPatched, Agree;
    ChainHolesInside(chain, p);
    KeepLinks(F, G, isAnd, ChainHoles(chain, p), end, p.at, AfterChain(chain, p).at);
  }

  lemma {:induction false} KeepLinks(F: seq<Byte>, G: seq<Byte>, isAnd: bool, holes: seq<nat>, end: nat, lo: nat, hi: nat)
    requires ChainPatched(F, isAnd, holes, end) && Agree(F, G, lo, hi)
    requires forall i :: 0 <= i < |holes| ==> lo < holes[i] && holes[i] + 2 <= hi
    ensures ChainPatched(G, isAnd, holes, end)
  {
    forall i | 0 <= i < |holes|
      ensures 1 <= holes[i] && Leads(G, holes[i], end) && G[holes[i] - 1] == LogicCode(isAnd)
    {
      assert Leads(F, holes[i], end);
      var h := holes[i];
      assert G[h] == F[h] && G[h + 1] == F[h + 1] && G[h - 1] == F[h - 1];
    }
  }

  lemma {:induction false} ChainHolesInside(chain: Chain, p: Pos)
    ensures forall i :: 0 <= i < |ChainHoles(chain, p)| ==>
              p.at < ChainHoles(chain, p)[i] && ChainHoles(chain, p)[i] + 2 <= AfterChain(chain, p).at
    decreases chain
  {
    match chain
    case First(_) =>
    case Link(l, r) =>
      ChainHolesInside(l, p);
      ChainGrows(l, p);
      ExprGrows(r, Branch(AfterChain(l, p)));
  }

  lemma {:induction false} KeepChain(F: seq<Byte>, G: seq<Byte>, chain: Chain, p: Pos)
    requires HasChain(F, chain, p) && Agree(F, G, p.at, AfterChain(chain, p).at)
    ensures HasChain(G, chain, p)
    decreases chain, 1
  {
    hide Flushed;
    match chain
    case First(e) => KeepExpr(F, G, e, p);
    case Link(l, r) =>
      var q := AfterChain(l, p);
      ChainGrows(l, p);
      ExprGrows(r, Branch(q));
      KeepChain(F, G, l, p);
      KeepFlushed(F, G, q);
      KeepExpr(F, G, r, Branch(q));
  }

  lemma {:induction false} KeepCond(F: seq<Byte>, G: seq<Byte>, c: Expr, invert: bool, p: Pos)
    requires 2 <= AfterCond(c, invert, p).at <= |G|
    requires HasCond(F, c, invert, p) && Agree(F, G, p.at, AfterCond(c, invert, p).at - 2)
    ensures HasCond(G, c, invert, p)
    decreases c, 2
  {
    hide Emitted, HasExpr, AfterExpr;
    if IsNot(c) {
      KeepCond(F, G, c.e, !invert, p);
    } else if IsFused(c, invert) {
      var q := AfterExpr(c.r, AfterExpr(c.l, p));
      KeepOperands(F, G, c, p);
      KeepEmitted(F, G, q, [FusedBranch(c.op, invert).value]);
    } else {
      ExprGrows(c, p);
      KeepExpr(F, G, c, p);
      KeepEmitted(F, G, AfterExpr(c, p), [PlainBranch(invert)]);
    }
  }

  lemma {:induction false} TernaryHas(code: seq<Byte>, e: Expr, p: Pos)
    requires e.Cond?
    requires
      var q := AfterCond(e.c, false, p);
      var q1 := AfterExpr(e.a, q);
      var q2 := Branch(q1);
      && HasCond(code, e.c, false, p) && q.at >= 2 && Leads(code, q.at - 2, q2.at)
      && HasExpr(code, e.a, q)
      && BranchAt(code, q1, F_BRANCH) && Leads(code, Hole(q1), Flush(AfterExpr(e.b, q2)).at)
      && HasExpr(code, e.b, q2) && Flushed(code, AfterExpr(e.b, q2))
    ensures HasExpr(code, e, p)
  {
    hide HasCond, Leads, AfterCond, Flushed, BranchAt;
  }

  lemma {:induction false} TernaryParts(code: seq<Byte>, e: Expr, p: Pos)
    requires e.Cond? && HasExpr(code, e, p)
    ensures
      var q := AfterCond(e.c, false, p);
      var q1 := AfterExpr(e.a, q);
      var q2 := Branch(q1);
      && HasCond(code, e.c, false, p) && q.at >= 2 && Leads(code, q.at - 2, q2.at)
      && HasExpr(code, e.a, q)
      && BranchAt(code, q1, F_BRANCH) && Leads(code, Hole(q1), Flush(AfterExpr(e.b, q2)).at)
      && HasExpr(code, e.b, q2) && Flushed(code, AfterExpr(e.b, q2))
      && AfterExpr(e, p) == Flush(AfterExpr(e.b, q2))
  {
    hide HasCond, Leads, AfterCond;
  }

  lemma {:induction false} KeepTernary(F: seq<Byte>, G: seq<Byte>, e: Expr, p: Pos)
    requires e.Cond? && HasExpr(F, e, p) && Agree(F, G, p.at, AfterExpr(e, p).at)
    ensures HasExpr(G, e, p)
    decreases e, 0
  {
    hide Emitted, Flushed, Leads, HasExpr, AfterExpr, HasCond, AfterCond;
    TernaryParts(F, e, p);
    var q := AfterCond(e.c, false, p);
    var q1 := AfterExpr(e.a, q);
    var q2 := Branch(q1);
    CondGrows(e.c, false, p);
    ExprGrows(e.a, q);
    ExprGrows(e.b, q2);
    KeepCond(F, G, e.c, false, p);
    KeepLeads(F, G, q.at - 2, q2.at);
    KeepExpr(F, G, e.a, q);
    KeepEmitted(F, G, q1, [F_BRANCH]);
    KeepLeads(F, G, Hole(q1), AfterExpr(e, p).at);
    KeepExpr(F, G, e.b, q2);
    KeepFlushed(F, G, AfterExpr(e.b, q2));
    TernaryHas(G, e, p);
  }

  // ---------- Statements survive changes elsewhere and at their open offsets ----------

  /** Byte i belongs to the offset of a jump that leaves s. */
  predicate InHole(s: Stmt, p: Pos, i: nat)
    decreases s
  {
    match s
    case Two(s1, s2) => InHole(s1, p, i) || InHole(s2, AfterStmt(s1, p), i)
    case If(c, t, f) =>
      || InHole(t, AfterCond(c, false, p), i)
      || (!f.Empty? && InHole(f, Branch(AfterStmt(t, AfterCond(c, false, p))), i))
    case Break => Hole(p) <= i < Hole(p) + 2
    case Continue => Hole(p) <= i < Hole(p) + 2
    case _ => false
  }

  predicate AgreeBut(F: seq<Byte>, G: seq<Byte>, s: Stmt, p: Pos) {
    AfterStmt(s, p).at <= |F| && AfterStmt(s, p).at <= |G|
    && forall i :: p.at <= i < AfterStmt(s, p).at && !InHole(s, p, i) ==> G[i] == F[i]
  }

  lemma {:induction false} HoleInside(s: Stmt, p: Pos, i: nat)
    requires InHole(s, p, i)
    ensures p.at < i < AfterStmt(s, p).at
    decreases s
  {
    match s
    case Two(s1, s2) =>
      StmtGrows(s1, p);
      StmtGrows(s2, AfterStmt(s1, p));
      if InHole(s1, p, i) { HoleInside(s1, p, i); } else { HoleInside(s2, AfterStmt(s1, p), i); }
    case If(c, t, f) =>
      var q := AfterCond(c, false, p);
      var q1 := AfterStmt(t, q);
      CondGrows(c, false, p);
      StmtGrows(t, q);
      StmtGrows(f, Branch(q1));
      if InHole(t, q, i) { HoleInside(t, q, i); } else { HoleInside(f, Branch(q1), i); }
    case _ =>
  }

  lemma {:induction false} KeepBack(F: seq<Byte>, G: seq<Byte>, h: nat, target: nat)
    requires LeadsBack(F, h, target) && Agree(F, G, h, h + 2)
    ensures LeadsBack(G, h, target)
  {}

  lemma {:induction false} KeepBackBranch(F: seq<Byte>, G: seq<Byte>, q: Pos, op: Byte, start: nat)
    requires BackBranch(F, q, op, start) && Agree(F, G, q.at, Branch(q).at)
    ensures BackBranch(G, q, op, start)
  {
    KeepEmitted(F, G, q, [op]);
    KeepBack(F, G, Hole(q), start);
  }

  lemma {:induction false} KeepGeneral(F: seq<Byte>, G: seq<Byte>, e: Expr, p: Pos, start: nat)
    requires HasGeneral(F, e, p, start) && Agree(F, G, p.at, AfterGeneral(e, p).at)
    ensures HasGeneral(G, e, p, start)
  {
    hide BackBranch, HasExpr, AfterExpr, Flushed;
    if IsNot(e) {
      ExprGrows(e.e, p);
      KeepExpr(F, G, e.e, p);
      KeepBackBranch(F, G, AfterExpr(e.e, p), F_BBRANCH_WHEN_ZERO, start);
    } else if e.Number? {
      if e.n == 0 { KeepFlushed(F, G, p); } else { KeepBackBranch(F, G, p, F_BBRANCH, start); }
    } else if IsLess(e) {
      KeepOperands(F, G, e, p);
      KeepBackBranch(F, G, AfterExpr(e.r, AfterExpr(e.l, p)), F_BBRANCH_LT, start);
    } else {
      ExprGrows(e, p);
      KeepExpr(F, G, e, p);
      KeepBackBranch(F, G, AfterExpr(e, p), F_BBRANCH_WHEN_NON_ZERO, start);
    }
  }

  lemma {:induction false} KeepTest(F: seq<Byte>, G: seq<Byte>, t: Test, p: Pos, start: nat)
    requires HasTest(F, t, p, start) && Agree(F, G, p.at, AfterTest(t, p).at)
    ensures HasTest(G, t, p, start)
  {
    hide Emitted, LeadsBack, HasGeneral, AfterGeneral;
    match t
    case CondLocal(x, y) =>
      KeepEmitted(F, G, p, [F_LOOP_COND_LOCAL, x, y]);
      KeepBack(F, G, Emit(p, 3).at, start);
    case CondNumber(x, n) =>
      KeepEmitted(F, G, p, [F_LOOP_COND_NUMBER, x] + IntBytes(n));
      KeepBack(F, G, Emit(p, 6).at, start);
    case WhileDec(x) =>
      KeepEmitted(F, G, p, [F_WHILE_DEC, x]);
      KeepBack(F, G, Emit(p, 2).at, start);
    case General(e) =>
      if Mistaken(t) {
        KeepEmitted(F, G, p, [F_BYTE, e.n]);
        KeepBack(F, G, Emit(p, 2).at, start);
      } else {
        KeepGeneral(F, G, Stripped(e), p, start);
      }
  }

  lemma {:induction false} KeepStmt(F: seq<Byte>, G: seq<Byte>, s: Stmt, p: Pos)
    requires HasStmt(F, s, p) && AgreeBut(F, G, s, p)
    ensures HasStmt(G, s, p)
    decreases s, 1
  {
    hide Emitted, Flushed, Leads;
    match s
    case Empty =>
    case Pop(e) =>
      ExprGrows(e, p);
      KeepExpr(F, G, e, p);
      KeepEmitted(F, G, AfterExpr(e, p), [F_POP_VALUE]);
    case AssignVoid(x, e) =>
      ExprGrows(e, p);
      KeepExpr(F, G, e, p);
      KeepEmitted(F, G, AfterExpr(e, p), [F_VOID_ASSIGN_LOCAL, x]);
    case Increment(x) => KeepEmitted(F, G, p, [F_LOOP_INCR, x]);
    case Two(s1, s2) =>
      AgreeOnParts(F, G, s, p);
      KeepStmt(F, G, s1, p);
      KeepStmt(F, G, s2, AfterStmt(s1, p));
    case If(_, _, _) => KeepIf(F, G, s, p);
    case Loop(_, _, _, _) => KeepLoop(F, G, s, p);
    case Break => KeepEmitted(F, G, p, [F_BRANCH]);
    case Continue => KeepEmitted(F, G, p, [F_BRANCH]);
  }

  /** The open offsets of one part of a sequence lie outside the other. */
  lemma {:induction false} AgreeOnParts(F: seq<Byte>, G: seq<Byte>, s: Stmt, p: Pos)
    requires s.Two? && AgreeBut(F, G, s, p)
    ensures AgreeBut(F, G, s.s1, p) && AgreeBut(F, G, s.s2, AfterStmt(s.s1, p))
  {
    var q := AfterStmt(s.s1, p);
    StmtGrows(s.s1, p);
    StmtGrows(s.s2, q);
    forall i | p.at <= i < q.at && !InHole(s.s1, p, i)
      ensures G[i] == F[i]
    {
      if InHole(s.s2, q, i) { HoleInside(s.s2, q, i); }
    }
    forall i | q.at <= i < AfterStmt(s, p).at && !InHole(s.s2, q, i)
      ensures G[i] == F[i]
    {
      if InHole(s.s1, p, i) { HoleInside(s.s1, p, i); }
    }
  }

  lemma {:induction false} IfOrder(s: Stmt, p: Pos)
    requires s.If?
    ensures
      var q := AfterCond(s.c, false, p);
      var q1 := AfterStmt(s.t, q);
      var q3 := AfterStmt(s.f, Branch(q1));
      && p.at + 3 <= q.at <= q1.at <= Flush(q1).at && Branch(q1).at <= q3.at <= Flush(q3).at
      && AfterStmt(s, p) == if s.f.Empty? then Flush(q1) else Flush(q3)
  {
    CondGrows(s.c, false, p);
    StmtGrows(s.t, AfterCond(s.c, false, p));
    StmtGrows(s.f, Branch(AfterStmt(s.t, AfterCond(s.c, false, p))));
  }

  /** The open offsets of an if lie inside its two parts. */
  lemma {:induction false} IfHole(s: Stmt, p: Pos, i: nat)
    requires s.If? && InHole(s, p, i)
    ensures
      var q := AfterCond(s.c, false, p);
      var q1 := AfterStmt(s.t, q);
      var q2 := Branch(q1);
      || (InHole(s.t, q, i) && q.at < i < q1.at)
      || (!s.f.Empty? && InHole(s.f, q2, i) && q2.at < i < AfterStmt(s.f, q2).at)
  {
    hide AfterCond, AfterStmt;
    var q := AfterCond(s.c, false, p);
    if InHole(s.t, q, i) { HoleInside(s.t, q, i); } else { HoleInside(s.f, Branch(AfterStmt(s.t, q)), i); }
  }

  predicate AgreeAt(F: seq<Byte>, G: seq<Byte>, i: nat) { i < |F| && i < |G| && G[i] == F[i] }

  lemma {:induction false} AgreeBetween(F: seq<Byte>, G: seq<Byte>, s: Stmt, p: Pos, i: nat)
    requires s.If? && AgreeBut(F, G, s, p) && p.at <= i < AfterStmt(s, p).at
    ensures
      var q := AfterCond(s.c, false, p);
      var q1 := AfterStmt(s.t, q);
      var q2 := Branch(q1);
      || AgreeAt(F, G, i)
      || (InHole(s.t, q, i) && q.at < i < q1.at)
      || (!s.f.Empty? && InHole(s.f, q2, i) && q2.at < i < AfterStmt(s.f, q2).at)
  {
    hide AfterCond, AfterStmt;
    if InHole(s, p, i) { IfHole(s, p, i); }
  }

  lemma {:induction false} AgreeOnIf(F: seq<Byte>, G: seq<Byte>, s: Stmt, p: Pos)
    requires s.If? && AgreeBut(F, G, s, p)
    ensures
      var q := AfterCond(s.c, false, p);
      var q1 := AfterStmt(s.t, q);
      var q2 := Branch(q1);
      && p.at + 3 <= q.at <= q1.at && AgreeBut(F, G, s.t, q) && Agree(F, G, p.at, q.at)
      && (s.f.Empty? ==> Agree(F, G, q1.at, Flush(q1).at))
      && (!s.f.Empty? ==>
            && Agree(F, G, q1.at, q2.at) && AgreeBut(F, G, s.f, q2)
            && q2.at <= AfterStmt(s.f, q2).at && Agree(F, G, AfterStmt(s.f, q2).at, AfterStmt(s, p).at))
  {
    hide AfterCond, AfterStmt, InHole;
    var end := AfterStmt(s, p).at;
    IfOrder(s, p);
    forall i: nat | p.at <= i < end
      ensures
        var q := AfterCond(s.c, false, p);
        var q1 := AfterStmt(s.t, q);
        var q2 := Branch(q1);
        || G[i] == F[i]
        || (InHole(s.t, q, i) && q.at < i < q1.at)
        || (!s.f.Empty? && InHole(s.f, q2, i) && q2.at < i < AfterStmt(s.f, q2).at)
    {
      AgreeBetween(F, G, s, p, i);
    }
  }

  lemma {:induction false} KeepIf(F: seq<Byte>, G: seq<Byte>, s: Stmt, p: Pos)
    requires s.If? && HasStmt(F, s, p) && AgreeBut(F, G, s, p)
    ensures HasStmt(G, s, p)
    decreases s, 0
  {
    hide Emitted, Flushed, Leads, HasCond, AfterCond;
    var q := AfterCond(s.c, false, p);
    var q1 := AfterStmt(s.t, q);
    var q2 := Branch(q1);
    AgreeOnIf(F, G, s, p);
    hide AgreeBut, InHole;
    KeepCond(F, G, s.c, false, p);
    KeepStmt(F, G, s.t, q);
    KeepFlushed(F, G, q1);
    if s.f.Empty? {
      KeepLeads(F, G, q.at - 2, Flush(q1).at);
    } else {
      KeepEmitted(F, G, q1, [F_BRANCH]);
      KeepLeads(F, G, q.at - 2, q2.at);
      KeepStmt(F, G, s.f, q2);
      KeepFlushed(F, G, AfterStmt(s.f, q2));
      KeepLeads(F, G, Hole(q1), AfterStmt(s, p).at);
    }
  }

  lemma {:induction false} KeepLoop(F: seq<Byte>, G: seq<Byte>, s: Stmt, p: Pos)
    requires s.Loop? && HasLoop(F, s, p) && AgreeBut(F, G, s, p)
    ensures HasLoop(G, s, p)
    decreases s, 0
  {
    hide Emitted, Flushed, Leads, HasTest, AfterTest;
    var start, next, test, end := LoopStart(s, p), ContinuePos(s, p), TestPos(s, p), AfterStmt(s, p).at;
    LoopGrows(s, p);
    assert Agree(F, G, p.at, end);
    KeepFlushed(F, G, p);
    if Skips(s) {
      KeepEmitted(F, G, p, [F_BRANCH]);
      KeepLeads(F, G, Hole(p), test.at);
    }
    KeepStmt(F, G, s.block, start);
    KeepFlushed(F, G, AfterStmt(s.block, start));
    KeepAllLead(F, G, s.block, start, true, end, end);
    KeepAllLead(F, G, s.block, start, false, next.at, end);
    KeepStmt(F, G, s.inc, next);
    KeepFlushed(F, G, AfterStmt(s.inc, next));
    KeepTest(F, G, s.test, test, start.at);
  }

  lemma {:induction false} KeepAllLead(F: seq<Byte>, G: seq<Byte>, s: Stmt, p: Pos, isBreak: bool, target: nat, end: nat)
    requires AllLead(F, JumpHoles(s, p, isBreak), target)
    requires AfterStmt(s, p).at <= end && Agree(F, G, p.at, end)
    ensures AllLead(G, JumpHoles(s, p, isBreak), target)
  {
    hide Leads;
    var holes := JumpHoles(s, p, isBreak);
    JumpHolesInside(s, p, isBreak);
    forall i | 0 <= i < |holes| ensures Leads(G, holes[i], target) { KeepLeads(F, G, holes[i], target); }
  }

  // ---------- The open jumps ----------

  /** Both bytes of an open offset at h lie inside s. */
  predicate OpenIn(s: Stmt, p: Pos, h: nat) {
    p.at < h && h + 2 <= AfterStmt(s, p).at && InHole(s, p, h) && InHole(s, p, h + 1)
  }

  lemma {:induction false} JumpHoleInside(s: Stmt, p: Pos, isBreak: bool, i: nat)
    requires i < |JumpHoles(s, p, isBreak)|
    ensures OpenIn(s, p, JumpHoles(s, p, isBreak)[i])
    decreases s, 1
  {
    if s.Two? {
      var q := AfterStmt(s.s1, p);
      var k := |JumpHoles(s.s2, q, isBreak)|;
      StmtGrows(s.s1, p);
      StmtGrows(s.s2, q);
      if i < k { JumpHoleInside(s.s2, q, isBreak, i); } else { JumpHoleInside(s.s1, p, isBreak, i - k); }
    } else if s.If? {
      IfHoleInside(s, p, isBreak, i);
    }
  }

  lemma {:induction false} IfHoleInside(s: Stmt, p: Pos, isBreak: bool, i: nat)
    requires s.If? && i < |JumpHoles(s, p, isBreak)|
    ensures OpenIn(s, p, JumpHoles(s, p, isBreak)[i])
    decreases s, 0
  {
    hide AfterCond, AfterStmt;
    var q := AfterCond(s.c, false, p);
    var q2 := Branch(AfterStmt(s.t, q));
    var k := if s.f.Empty? then 0 else |JumpHoles(s.f, q2, isBreak)|;
    IfOrder(s, p);
    if i < k { JumpHoleInside(s.f, q2, isBreak, i); } else { JumpHoleInside(s.t, q, isBreak, i - k); }
  }

  lemma {:induction false} JumpHolesInside(s: Stmt, p: Pos, isBreak: bool)
    ensures forall i :: 0 <= i < |JumpHoles(s, p, isBreak)| ==> OpenIn(s, p, JumpHoles(s, p, isBreak)[i])
  {
    forall i | 0 <= i < |JumpHoles(s, p, isBreak)|
      ensures OpenIn(s, p, JumpHoles(s, p, isBreak)[i])
    {
      JumpHoleInside(s, p, isBreak, i);
    }
  }

  /** Offsets in decreasing order that do not overlap. */
  predicate Spread(holes: seq<nat>) {
    forall i, j :: 0 <= i < j < |holes| ==> holes[j] + 2 <= holes[i]
  }

  lemma {:induction false} JumpHolesSpread(s: Stmt, p: Pos, isBreak: bool)
    ensures Spread(JumpHoles(s, p, isBreak))
    decreases s
  {
    hide AfterCond;
    match s
    case Two(s1, s2) =>
      JumpHolesSpread(s1, p, isBreak);
      JumpHolesSpread(s2, AfterStmt(s1, p), isBreak);
      JumpHolesInside(s1, p, isBreak);
      JumpHolesInside(s2, AfterStmt(s1, p), isBreak);
      SpreadAppend(JumpHoles(s2, AfterStmt(s1, p), isBreak), JumpHoles(s1, p, isBreak), AfterStmt(s1, p).at);
    case If(c, t, f) =>
      var q := AfterCond(c, false, p);
      var q1 := AfterStmt(t, q);
      JumpHolesSpread(t, q, isBreak);
      JumpHolesInside(t, q, isBreak);
      JumpHolesSpread(f, Branch(q1), isBreak);
      JumpHolesInside(f, Branch(q1), isBreak);
      SpreadAppend(if f.Empty? then [] else JumpHoles(f, Branch(q1), isBreak), JumpHoles(t, q, isBreak), q1.at);
    case _ =>
  }

  lemma {:induction false} SpreadAppend(a: seq<nat>, b: seq<nat>, mid: nat)
    requires Spread(a) && Spread(b)
    requires (forall i :: 0 <= i < |a| ==> mid <= a[i]) && (forall i :: 0 <= i < |b| ==> b[i] + 2 <= mid)
    ensures Spread(a + b)
  {}

  predicate Apart(a: nat, b: nat) { a + 2 <= b || b + 2 <= a }

  /** A break offset and a continue offset never overlap. */
  lemma {:induction false} JumpsApart(s: Stmt, p: Pos, i: nat, j: nat)
    requires i < |JumpHoles(s, p, true)| && j < |JumpHoles(s, p, false)|
    ensures Apart(JumpHoles(s, p, true)[i], JumpHoles(s, p, false)[j])
    decreases s
  {
    hide AfterCond;
    match s
    case Two(s1, s2) =>
      var q := AfterStmt(s1, p);
      var m, k := |JumpHoles(s2, q, true)|, |JumpHoles(s2, q, false)|;
      if i < m && j < k { JumpsApart(s2, q, i, j); }
      else if i >= m && j >= k { JumpsApart(s1, p, i - m, j - k); }
      else { PartsApart(s1, p, s2, q, i, j); }
    case If(c, t, f) =>
      var q := AfterCond(c, false, p);
      if f.Empty? {
        assert JumpHoles(s, p, true) == [] + JumpHoles(t, q, true);
        assert JumpHoles(s, p, false) == [] + JumpHoles(t, q, false);
        JumpsApart(t, q, i, j);
      } else {
        var q2 := Branch(AfterStmt(t, q));
        var m, k := |JumpHoles(f, q2, true)|, |JumpHoles(f, q2, false)|;
        if i < m && j < k { JumpsApart(f, q2, i, j); }
        else if i >= m && j >= k { JumpsApart(t, q, i - m, j - k); }
        else { PartsApart(t, q, f, q2, i, j); }
      }
    case _ =>
  }

  lemma {:induction false} PartsApart(s1: Stmt, p1: Pos, s2: Stmt, p2: Pos, i: nat, j: nat)
    requires AfterStmt(s1, p1).at <= p2.at
    requires i < |JumpHoles(s2, p2, true) + JumpHoles(s1, p1, true)|
    requires j < |JumpHoles(s2, p2, false) + JumpHoles(s1, p1, false)|
    requires i < |JumpHoles(s2, p2, true)| <==> j >= |JumpHoles(s2, p2, false)|
    ensures Apart((JumpHoles(s2, p2, true) + JumpHoles(s1, p1, true))[i],
                  (JumpHoles(s2, p2, false) + JumpHoles(s1, p1, false))[j])
  {
    hide AfterStmt, JumpHoles, InHole;
    var m, k := |JumpHoles(s2, p2, true)|, |JumpHoles(s2, p2, false)|;
    if i < m {
      JumpHoleInside(s2, p2, true, i);
      JumpHoleInside(s1, p1, false, j - k);
    } else {
      JumpHoleInside(s1, p1, true, i - m);
      JumpHoleInside(s2, p2, false, j);
    }
  }

  // ---------- Patching a list of offsets ----------

  /** upd_short */
  function Patched(code: seq<Byte>, h: nat, v: nat): (r: seq<Byte>)
    requires h + 2 <= |code| && v < 0x1_0000
    ensures |r| == |code| && Short(r, h) == v
    ensures forall i :: 0 <= i < |code| && !(h <= i < h + 2) ==> r[i] == code[i]
  {
    code[h := v % 256][h + 1 := v / 256]
  }

  /** Every offset of the list lies before `target`, within reach of a short. */
  predicate Patchable(holes: seq<nat>, target: nat) {
    target <= 0x7fff && forall i :: 0 <= i < |holes| ==> holes[i] + 2 <= target
  }

  /** i_update_branch_list: all offsets of the list are made to lead to `target`. */
  function PatchAll(code: seq<Byte>, holes: seq<nat>, target: nat): (r: seq<Byte>)
    requires Patchable(holes, target) && target <= |code|
    ensures |r| == |code|
    decreases |holes|
  {
    if holes == [] then code
    else PatchAll(Patched(code, holes[0], target - holes[0]), holes[1..], target)
  }

  predicate Outside(holes: seq<nat>, i: nat) {
    forall k :: 0 <= k < |holes| ==> !(holes[k] <= i < holes[k] + 2)
  }

  lemma {:induction false} PatchAllElsewhere(code: seq<Byte>, holes: seq<nat>, target: nat, i: nat)
    requires Patchable(holes, target) && target <= |code| && i < |code| && Outside(holes, i)
    ensures PatchAll(code, holes, target)[i] == code[i]
    decreases |holes|
  {
    if holes != [] {
      PatchAllElsewhere(Patched(code, holes[0], target - holes[0]), holes[1..], target, i);
    }
  }

  lemma {:induction false} PatchAllLeads(code: seq<Byte>, holes: seq<nat>, target: nat)
    requires Patchable(holes, target) && target <= |code| && Spread(holes)
    ensures AllLead(PatchAll(code, holes, target), holes, target)
    decreases |holes|
  {
    if holes != [] {
      var h, rest := holes[0], holes[1..];
      var code1 := Patched(code, h, target - h);
      PatchAllLeads(code1, rest, target);
      PatchAllElsewhere(code1, rest, target, h);
      PatchAllElsewhere(code1, rest, target, h + 1);
      LeadsCons(PatchAll(code1, rest, target), h, rest, target);
      assert holes == [h] + rest;
    }
  }

  lemma {:induction false} LeadsCons(code: seq<Byte>, h: nat, rest: seq<nat>, target: nat)
    requires Leads(code, h, target) && AllLead(code, rest, target)
    ensures AllLead(code, [h] + rest, target)
  {
    hide Leads;
  }

  // ---------- Patching the inner operators of a chain ----------

  /** upd_byte and upd_short on the placeholder of a chain's inner operator. */
  function PatchedLink(code: seq<Byte>, h: nat, op: Byte, v: nat): (r: seq<Byte>)
    requires 1 <= h && h + 2 <= |code| && v < 0x1_0000
    ensures |r| == |code| && Short(r, h) == v && r[h - 1] == op
    ensures forall i :: 0 <= i < |code| && !(h - 1 <= i < h + 2) ==> r[i] == code[i]
  {
    Patched(code[h - 1 := op], h, v)
  }

  predicate Linkable(holes: seq<nat>, target: nat) {
    Patchable(holes, target) && forall i :: 0 <= i < |holes| ==> 1 <= holes[i]
  }

  function PatchLinks(code: seq<Byte>, holes: seq<nat>, op: Byte, target: nat): (r: seq<Byte>)
    requires Linkable(holes, target) && target <= |code|
    ensures |r| == |code|
    decreases |holes|
  {
    if holes == [] then code
    else PatchLinks(PatchedLink(code, holes[0], op, target - holes[0]), holes[1..], op, target)
  }

  predicate OutsideLinks(holes: seq<nat>, i: nat) {
    forall k :: 0 <= k < |holes| ==> !(holes[k] <= i + 1 < holes[k] + 3)
  }

  lemma {:induction false} PatchLinksElsewhere(code: seq<Byte>, holes: seq<nat>, op: Byte, target: nat, i: nat)
    requires Linkable(holes, target) && target <= |code| && i < |code| && OutsideLinks(holes, i)
    ensures PatchLinks(code, holes, op, target)[i] == code[i]
    decreases |holes|
  {
    if holes != [] {
      PatchLinksElsewhere(PatchedLink(code, holes[0], op, target - holes[0]), holes[1..], op, target, i);
    }
  }

  /** Placeholders in decreasing order that do not overlap. */
  predicate LinksSpread(holes: seq<nat>) {
    forall i, j :: 0 <= i < j < |holes| ==> holes[j] + 3 <= holes[i]
  }

  lemma {:induction false} ChainHolesSpread(chain: Chain, p: Pos)
    ensures LinksSpread(ChainHoles(chain, p))
    decreases chain
  {
    if chain.Link? {
      ChainHolesSpread(chain.l, p);
      ChainHolesInside(chain.l, p);
    }
  }

  lemma {:induction false} PatchLinksLead(code: seq<Byte>, isAnd: bool, holes: seq<nat>, target: nat)
    requires Linkable(holes, target) && target <= |code| && LinksSpread(holes)
    ensures ChainPatched(PatchLinks(code, holes, LogicCode(isAnd), target), isAnd, holes, target)
    decreases |holes|
  {
    if holes != [] {
      var h, rest, op := holes[0], holes[1..], LogicCode(isAnd);
      var code1 := PatchedLink(code, h, op, target - h);
      PatchLinksLead(code1, isAnd, rest, target);
      LaterLinksKeep(code1, holes, op, target);
      PatchedCons(PatchLinks(code1, rest, op, target), isAnd, h, rest, target);
      assert holes == [h] + rest;
    }
  }

  lemma {:induction false} LaterLinksKeep(code: seq<Byte>, holes: seq<nat>, op: Byte, target: nat)
    requires holes != [] && Linkable(holes, target) && target <= |code| && LinksSpread(holes)
    ensures
      var h, r := holes[0], PatchLinks(code, holes[1..], op, target);
      r[h - 1] == code[h - 1] && r[h] == code[h] && r[h + 1] == code[h + 1]
  {
    hide PatchLinks;
    var h, rest := holes[0], holes[1..];
    assert forall k :: 0 <= k < |rest| ==> rest[k] + 3 <= h;
    PatchLinksElsewhere(code, rest, op, target, h - 1);
    PatchLinksElsewhere(code, rest, op, target, h);
    PatchLinksElsewhere(code, rest, op, target, h + 1);
  }

  lemma {:induction false} PatchedCons(code: seq<Byte>, isAnd: bool, h: nat, rest: seq<nat>, target: nat)
    requires 1 <= h && Leads(code, h, target) && code[h - 1] == LogicCode(isAnd)
    requires ChainPatched(code, isAnd, rest, target)
    ensures ChainPatched(code, isAnd, [h] + rest, target)
  {
    hide Leads;
  }

  predicate AgreeButLinks(F: seq<Byte>, G: seq<Byte>, chain: Chain, p: Pos) {
    AfterChain(chain, p).at <= |F| && AfterChain(chain, p).at <= |G|
    && forall i :: p.at <= i < AfterChain(chain, p).at && OutsideLinks(ChainHoles(chain, p), i) ==> G[i] == F[i]
  }

  /** Patching placeholders keeps the chain around them. */
  lemma {:induction false} KeepChainBut(F: seq<Byte>, G: seq<Byte>, chain: Chain, p: Pos)
    requires HasChain(F, chain, p) && AgreeButLinks(F, G, chain, p)
    ensures HasChain(G, chain, p)
    decreases chain
  {
    match chain
    case First(e) => KeepExpr(F, G, e, p);
    case Link(l, r) =>
      hide Flushed, HasExpr, AfterExpr, Agree, AgreeButLinks;
      var q := AfterChain(l, p);
      AgreeOnLink(F, G, l, r, p);
      KeepChainBut(F, G, l, p);
      KeepFlushed(F, G, q);
      KeepExpr(F, G, r, Branch(q));
  }

  lemma {:induction false} AgreeOnLink(F: seq<Byte>, G: seq<Byte>, l: Chain, r: Expr, p: Pos)
    requires AgreeButLinks(F, G, Link(l, r), p)
    ensures
      var q := AfterChain(l, p);
      && AgreeButLinks(F, G, l, p) && Agree(F, G, q.at, Flush(q).at) && Branch(q).at <= |G|
      && Agree(F, G, Branch(q).at, AfterExpr(r, Branch(q)).at)
  {
    hide AfterExpr, Flushed;
    var q := AfterChain(l, p);
    var q1 := Branch(q);
    ChainGrows(l, p);
    ExprGrows(r, q1);
    LinkOutside(l, r, p);
    hide OutsideLinks, ChainHoles;
    assert forall i :: q.at <= i < Flush(q).at ==> OutsideLinks(ChainHoles(Link(l, r), p), i);
    assert forall i :: q1.at <= i < AfterExpr(r, q1).at ==> OutsideLinks(ChainHoles(Link(l, r), p), i);
  }

  /** A byte before the branch is outside the placeholders of the chain when it is outside those of
      the first part; a byte after it is outside all of them. */
  lemma {:induction false} LinkOutside(l: Chain, r: Expr, p: Pos)
    ensures
      var q, holes := AfterChain(l, p), ChainHoles(Link(l, r), p);
      forall i: nat ::
        && (i < Flush(q).at && OutsideLinks(ChainHoles(l, p), i) ==> OutsideLinks(holes, i))
        && (q.at <= i < Flush(q).at || Branch(q).at <= i ==> OutsideLinks(holes, i))
  {
    hide AfterChain, AfterExpr;
    var q, rest, holes := AfterChain(l, p), ChainHoles(l, p), ChainHoles(Link(l, r), p);
    ChainHolesInside(l, p);
    assert holes == [Hole(q)] + rest;
    assert forall k :: 0 < k < |holes| ==> holes[k] == rest[k - 1];
  }

  // ---------- Closing the jumps that leave a block ----------

  lemma {:induction false} HolesOutside(s: Stmt, p: Pos, isBreak: bool, i: nat)
    requires !InHole(s, p, i)
    ensures Outside(JumpHoles(s, p, isBreak), i)
  {
    hide InHole, JumpHoles;
    var holes := JumpHoles(s, p, isBreak);
    JumpHolesInside(s, p, isBreak);
    forall k | 0 <= k < |holes| ensures !(holes[k] <= i < holes[k] + 2) {
      assert OpenIn(s, p, holes[k]);
    }
  }

  /** The code after the block with its breaks (or continues) closed. */
  lemma {:induction false} JumpsClosed(F: seq<Byte>, s: Stmt, p: Pos, isBreak: bool, target: nat)
    requires HasStmt(F, s, p) && AfterStmt(s, p).at <= target <= |F| && target <= 0x7fff
    ensures Patchable(JumpHoles(s, p, isBreak), target)
    ensures
      var holes := JumpHoles(s, p, isBreak);
      var r := PatchAll(F, holes, target);
      && HasStmt(r, s, p) && AllLead(r, holes, target)
      && Agree(F, r, 0, p.at) && Agree(F, r, AfterStmt(s, p).at, |F|)
  {
    hide HasStmt, InHole, JumpHoles, AllLead, PatchAll, AfterStmt;
    var holes := JumpHoles(s, p, isBreak);
    JumpHolesInside(s, p, isBreak);
    JumpHolesSpread(s, p, isBreak);
    StmtGrows(s, p);
    assert Patchable(holes, target);
    var r := PatchAll(F, holes, target);
    PatchAllLeads(F, holes, target);
    forall i | 0 <= i < |F| && !InHole(s, p, i) ensures r[i] == F[i] {
      HolesOutside(s, p, isBreak, i);
      PatchAllElsewhere(F, holes, target, i);
    }
    forall i: nat ensures InHole(s, p, i) ==> p.at < i < AfterStmt(s, p).at {
      if InHole(s, p, i) { HoleInside(s, p, i); }
    }
    KeepStmt(F, r, s, p);
  }

  /** Closing the breaks leaves the continues as they are. */
  lemma {:induction false} OtherJumpsStay(F: seq<Byte>, s: Stmt, p: Pos, target: nat, other: nat)
    requires Patchable(JumpHoles(s, p, true), target) && target <= |F|
    requires AllLead(F, JumpHoles(s, p, false), other)
    ensures AllLead(PatchAll(F, JumpHoles(s, p, true), target), JumpHoles(s, p, false), other)
  {
    hide JumpHoles, PatchAll;
    var holes, conts := JumpHoles(s, p, true), JumpHoles(s, p, false);
    var r := PatchAll(F, holes, target);
    forall j | 0 <= j < |conts| ensures Leads(r, conts[j], other) {
      forall i | 0 <= i < |holes| ensures Apart(holes[i], conts[j]) { JumpsApart(s, p, i, j); }
      PatchAllElsewhere(F, holes, target, conts[j]);
      PatchAllElsewhere(F, holes, target, conts[j] + 1);
    }
  }
}
