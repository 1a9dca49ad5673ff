/** The code generator of src/icode.c: it appends bytes, merges adjacent pushes by rewinding the
    output, threads open forward branches through their own offset bytes, and patches offsets when
    the target is known. */
module CodeGenerator {
  import opened Bytecode
  import opened ParseTree
  import opened Layout
  import opened Patching
  import opened Correctness

  /** The bytes of a run of pushes whose count is not final yet. */
  function Pending(us: seq<Push>): seq<Byte> {
    if us == [] then []
    else if |us| == 1 then Single(us[0])
    else [F_PUSH, 0] + PushBytes(us)
  }

  /** Offsets are signed shorts. */
  predicate Fits(p: Pos) { Flush(p).at <= 0x7fff }

  lemma {:induction false} PendingAppend(us: seq<Push>, u: Push)
    requires us != []
    ensures [F_PUSH, 0] + PushBytes(us) + [PushByte(u)] == Pending(us + [u])
  {
    assert PushBytes(us + [u]) == PushBytes(us) + [PushByte(u)];
  }

  /** Bytes appended after end_pushes. */
  lemma {:induction false} EmittedAppend(F: seq<Byte>, p: Pos, bytes: seq<Byte>)
    requires Flushed(F, p) && |F| == Flush(p).at
    ensures Emitted(F + bytes, p, bytes) && |F + bytes| == Emit(p, |bytes|).at
    ensures Agree(F, F + bytes, 0, |F|)
  {
    hide Flushed;
    KeepFlushed(F, F + bytes, p);
  }

  lemma {:induction false} SuffixFlushed(F: seq<Byte>, p: Pos)
    requires |p.pend| < 256 && forall i :: 0 <= i < |p.pend| ==> Small(p.pend[i])
    requires p.at <= |F| && F[p.at..] == Encoding(p.pend)
    ensures Flushed(F, p) && |F| == Flush(p).at
  {
    hide Encoding;
    assert |Encoding(p.pend)| == EncodingLength(p.pend) by { EncodingIsLong(p.pend); }
    assert forall i :: 0 <= i < |Encoding(p.pend)| ==> F[p.at + i] == F[p.at..][i];
  }

  lemma {:induction false} EncodingIsLong(us: seq<Push>)
    requires |us| < 256
    ensures |Encoding(us)| == EncodingLength(us)
  {}

  /** Writing the count of a merged run completes it. */
  lemma {:induction false} CountCompletes(F: seq<Byte>, at: nat, us: seq<Push>)
    requires 1 < |us| < 256 && at <= |F| && F[at..] == Pending(us)
    ensures at + 1 < |F| && F[at + 1 := |us|][at..] == Encoding(us)
  {
    var G := F[at + 1 := |us|];
    assert G[at..] == F[at..][1 := |us|];
  }

  // ---------- Assembling translations from the steps that write them ----------

  /** G keeps all of F below `hi` except the offset at h. */
  predicate AgreeExcept(F: seq<Byte>, G: seq<Byte>, h: nat, hi: nat) {
    h + 2 <= hi && Agree(F, G, 0, h) && Agree(F, G, h + 2, hi)
  }

  /** All of e but its inner branches is in place. */
  predicate AllButLinks(code: seq<Byte>, e: Expr, p: Pos)
    requires e.LandLor?
  {
    var q, end := AfterChain(e.chain, p), AfterExpr(e, p).at;
    && HasChain(code, e.chain, p) && BranchAt(code, q, LogicCode(e.isAnd)) && Leads(code, Hole(q), end)
    && HasExpr(code, e.r, Branch(q)) && Flushed(code, AfterExpr(e.r, Branch(q))) && |code| == end
  }

  /** c1: after the chain; c2: after its last branch; c3: after the right operand; c4: with the last
      branch closed. */
  lemma {:induction false} LandLorClosed(c1: seq<Byte>, c2: seq<Byte>, c3: seq<Byte>, c4: seq<Byte>, e: Expr, p: Pos)
    requires e.LandLor?
    requires
      var q, op := AfterChain(e.chain, p), LogicCode(e.isAnd);
      var p3 := AfterExpr(e.r, Branch(q));
      && HasChain(c1, e.chain, p)
      && BranchAt(c2, q, op) && Agree(c1, c2, 0, q.at)
      && HasExpr(c3, e.r, Branch(q)) && Agree(c2, c3, 0, Branch(q).at)
      && AgreeExcept(c3, c4, Hole(q), p3.at) && Flushed(c4, p3) && Leads(c4, Hole(q), Flush(p3).at)
      && |c4| == Flush(p3).at
    ensures AllButLinks(c4, e, p) && Agree(c1, c4, 0, p.at)
  {
    hide Flushed, HasExpr, HasChain, AfterChain, Leads;
    var q, op := AfterChain(e.chain, p), LogicCode(e.isAnd);
    ChainGrows(e.chain, p);
    ExprGrows(e.r, Branch(q));
    KeepChain(c1, c4, e.chain, p);
    KeepEmitted(c2, c4, q, [op]);
    KeepExpr(c3, c4, e.r, Branch(q));
  }

  /** Closing the inner branches completes e. */
  lemma {:induction false} LinksClosed(code: seq<Byte>, e: Expr, p: Pos)
    requires e.LandLor? && AllButLinks(code, e, p) && |code| <= 0x7fff
    ensures Linkable(ChainHoles(e.chain, p), |code|)
    ensures
      var r := PatchLinks(code, ChainHoles(e.chain, p), LogicCode(e.isAnd), |code|);
      HasExpr(r, e, p) && Agree(code, r, 0, p.at)
  {
    hide Emitted, Flushed, HasExpr, HasChain, AfterChain, ChainHoles, PatchLinks, Leads;
    var q, op, holes := AfterChain(e.chain, p), LogicCode(e.isAnd), ChainHoles(e.chain, p);
    ChainGrows(e.chain, p);
    ExprGrows(e.r, Branch(q));
    ChainHolesInside(e.chain, p);
    ChainHolesSpread(e.chain, p);
    var r := PatchLinks(code, holes, op, |code|);
    forall i | 0 <= i < |code| && OutsideLinks(holes, i) ensures r[i] == code[i] {
      PatchLinksElsewhere(code, holes, op, |code|, i);
    }
    PatchLinksLead(code, e.isAnd, holes, |code|);
    KeepChainBut(code, r, e.chain, p);
    assert forall i: nat :: i < p.at || q.at <= i ==> OutsideLinks(holes, i);
    hide OutsideLinks;
    KeepEmitted(code, r, q, [op]);
    KeepLeads(code, r, Hole(q), |code|);
    KeepExpr(code, r, e.r, Branch(q));
    KeepFlushed(code, r, AfterExpr(e.r, Branch(q)));
    LandLorHas(r, e, p);
  }

  lemma {:induction false} LandLorHas(code: seq<Byte>, e: Expr, p: Pos)
    requires e.LandLor?
    requires
      var q, end := AfterChain(e.chain, p), AfterExpr(e, p).at;
      && HasChain(code, e.chain, p) && ChainPatched(code, e.isAnd, ChainHoles(e.chain, p), end)
      && BranchAt(code, q, LogicCode(e.isAnd)) && Leads(code, Hole(q), end)
      && HasExpr(code, e.r, Branch(q)) && Flushed(code, AfterExpr(e.r, Branch(q)))
    ensures HasExpr(code, e, p)
  {}

  /** A copied offset is appended and the original patched. */
  lemma {:induction false} ElseBytes(F: seq<Byte>, G: seq<Byte>, h: nat)
    requires h + 2 < |F| <= 0x7ffd && G == Patched(F + ShortBytes(Short(F, h)), h, |F| + 2 - h)
    ensures |G| == |F| + 2 && Leads(G, h, |G|) && Short(G, |F|) == Short(F, h)
    ensures Agree(F, G, 0, h) && Agree(F, G, h + 2, |F|)
  {
    var v := ShortBytes(Short(F, h));
    assert G[|F|] == v[0] && G[|F| + 1] == v[1];
  }

  /** Five stages of a two-way branch.  The condition ends at q, the first part at q1 (f1 when its
      pushes are final), its branch at q2, the second part at q3. */
  lemma {:induction false} FiveStages(c1: seq<Byte>, c2: seq<Byte>, c3: seq<Byte>, c4: seq<Byte>, c5: seq<Byte>,
                   q: nat, q1: nat, f1: nat, q2: nat, q3: nat)
    requires 2 <= q <= q1 <= f1 && q2 == f1 + 3 <= q3
    requires Agree(c1, c2, 0, q) && AgreeExcept(c2, c3, q - 2, q1) && Agree(c3, c4, 0, q2)
    requires AgreeExcept(c4, c5, f1 + 1, q3)
    ensures Agree(c1, c5, 0, q - 2) && q <= |c5| && Agree(c2, c5, q, q1) && Agree(c3, c5, q - 2, q)
    ensures Agree(c3, c5, q1, f1 + 1) && Agree(c4, c5, q2, q3)
  {}

  lemma {:induction false} AgreeInside(F: seq<Byte>, G: seq<Byte>, lo: nat, hi: nat, lo': nat, hi': nat)
    requires Agree(F, G, lo, hi) && lo <= lo' && hi' <= hi
    ensures Agree(F, G, lo', hi')
  {}

  /** c1: after the condition's branch; c2: after the first value; c3: after its own branch; c4: after
      the second value; c5: with that branch closed. */
  lemma {:induction false} TernaryDone(c1: seq<Byte>, c2: seq<Byte>, c3: seq<Byte>, c4: seq<Byte>, c5: seq<Byte>, e: Expr, p: Pos)
    requires e.Cond?
    requires
      var q := AfterCond(e.c, false, p);
      var q1 := AfterExpr(e.a, q);
      var q2 := Branch(q1);
      var q3 := AfterExpr(e.b, q2);
      && q.at >= 2 && HasCond(c1, e.c, false, p)
      && HasExpr(c2, e.a, q) && Agree(c1, c2, 0, q.at)
      && BranchAt(c3, q1, F_BRANCH) && AgreeExcept(c2, c3, q.at - 2, q1.at) && Leads(c3, q.at - 2, q2.at)
      && HasExpr(c4, e.b, q2) && Agree(c3, c4, 0, q2.at)
      && AgreeExcept(c4, c5, Hole(q1), q3.at) && Flushed(c5, q3) && Leads(c5, Hole(q1), Flush(q3).at)
    ensures HasExpr(c5, e, p) && Agree(c1, c5, 0, p.at)
  {
    hide Flushed, HasExpr, AfterExpr, HasCond, AfterCond, Leads;
    var q := AfterCond(e.c, false, p);
    var q1 := AfterExpr(e.a, q);
    var q2 := Branch(q1);
    CondGrows(e.c, false, p);
    ExprGrows(e.a, q);
    ExprGrows(e.b, q2);
    FiveStages(c1, c2, c3, c4, c5, q.at, q1.at, Flush(q1).at, q2.at, AfterExpr(e.b, q2).at);
    AgreeInside(c1, c5, 0, q.at - 2, p.at, q.at - 2);
    AgreeInside(c1, c5, 0, q.at - 2, 0, p.at);
    hide Agree, AgreeExcept;
    KeepCond(c1, c5, e.c, false, p);
    KeepExpr(c2, c5, e.a, q);
    KeepEmitted(c3, c5, q1, [F_BRANCH]);
    KeepLeads(c3, c5, q.at - 2, q2.at);
    KeepExpr(c4, c5, e.b, q2);
    TernaryHas(c5, e, p);
  }

  /** The same for an if; without an else part only the condition's branch is closed. */
  lemma {:induction false} IfDone(c1: seq<Byte>, c2: seq<Byte>, c3: seq<Byte>, s: Stmt, p: Pos)
    requires s.If? && s.f.Empty?
    requires
      var q := AfterCond(s.c, false, p);
      var q1 := AfterStmt(s.t, q);
      && q.at >= 2 && HasCond(c1, s.c, false, p)
      && HasStmt(c2, s.t, q) && Agree(c1, c2, 0, q.at)
      && AgreeExcept(c2, c3, q.at - 2, q1.at) && Flushed(c3, q1) && Leads(c3, q.at - 2, Flush(q1).at)
    ensures HasStmt(c3, s, p) && Agree(c1, c3, 0, p.at)
  {
    hide Flushed, HasCond, AfterCond, Leads;
    var q := AfterCond(s.c, false, p);
    CondGrows(s.c, false, p);
    StmtGrows(s.t, q);
    KeepCond(c1, c3, s.c, false, p);
    KeepStmt(c2, c3, s.t, q);
  }

  lemma {:induction false} StmtAgrees(F: seq<Byte>, G: seq<Byte>, s: Stmt, p: Pos)
    requires Agree(F, G, p.at, AfterStmt(s, p).at)
    ensures AgreeBut(F, G, s, p)
  {
    hide InHole, AfterStmt;
  }

  lemma {:induction false} IfElseDone(c1: seq<Byte>, c2: seq<Byte>, c3: seq<Byte>, c4: seq<Byte>, c5: seq<Byte>, s: Stmt, p: Pos)
    requires s.If? && !s.f.Empty?
    requires
      var q := AfterCond(s.c, false, p);
      var q1 := AfterStmt(s.t, q);
      var q2 := Branch(q1);
      var q3 := AfterStmt(s.f, q2);
      && q.at >= 2 && q1.pend == [] && HasCond(c1, s.c, false, p)
      && HasStmt(c2, s.t, q) && Agree(c1, c2, 0, q.at)
      && BranchAt(c3, q1, F_BRANCH) && AgreeExcept(c2, c3, q.at - 2, q1.at) && Leads(c3, q.at - 2, q2.at)
      && HasStmt(c4, s.f, q2) && Agree(c3, c4, 0, q2.at)
      && AgreeExcept(c4, c5, Hole(q1), q3.at) && Flushed(c5, q3) && Leads(c5, Hole(q1), Flush(q3).at)
    ensures HasStmt(c5, s, p) && Agree(c1, c5, 0, p.at)
  {
    hide Flushed, HasStmt, AfterStmt, HasCond, AfterCond, Leads, InHole;
    var q := AfterCond(s.c, false, p);
    var q1 := AfterStmt(s.t, q);
    var q2 := Branch(q1);
    CondGrows(s.c, false, p);
    StmtGrows(s.t, q);
    StmtGrows(s.f, q2);
    FiveStages(c1, c2, c3, c4, c5, q.at, q1.at, q1.at, q2.at, AfterStmt(s.f, q2).at);
    AgreeInside(c1, c5, 0, q.at - 2, p.at, q.at - 2);
    AgreeInside(c1, c5, 0, q.at - 2, 0, p.at);
    StmtAgrees(c2, c5, s.t, q);
    StmtAgrees(c4, c5, s.f, q2);
    hide Agree, AgreeExcept, AgreeBut;
    KeepCond(c1, c5, s.c, false, p);
    KeepStmt(c2, c5, s.t, q);
    KeepEmitted(c3, c5, q1, [F_BRANCH]);
    KeepLeads(c3, c5, q.at - 2, q2.at);
    KeepStmt(c4, c5, s.f, q2);
    IfElseHas(c5, s, p);
  }

  lemma {:induction false} IfElseHas(code: seq<Byte>, s: Stmt, p: Pos)
    requires s.If? && !s.f.Empty?
    requires
      var q := AfterCond(s.c, false, p);
      var q1 := AfterStmt(s.t, q);
      var q2 := Branch(q1);
      && HasCond(code, s.c, false, p) && q.at >= 2 && Leads(code, q.at - 2, q2.at)
      && HasStmt(code, s.t, q) && q1.pend == []
      && BranchAt(code, q1, F_BRANCH) && Leads(code, Hole(q1), Flush(AfterStmt(s.f, q2)).at)
      && HasStmt(code, s.f, q2) && Flushed(code, AfterStmt(s.f, q2))
    ensures HasStmt(code, s, p)
  {
    hide HasCond, AfterCond, Leads, HasExpr;
  }

  /** The block and the increment of a loop are in place and its continues are closed. */
  predicate BodyDone(code: seq<Byte>, s: Stmt, p: Pos)
    requires s.Loop?
  {
    var start, next := LoopStart(s, p), ContinuePos(s, p);
    && HasStmt(code, s.block, start) && AllLead(code, JumpHoles(s.block, start, false), next.at)
    && HasStmt(code, s.inc, next)
  }

  /** The jump over a loop's block.  c0: before the loop; c1: after the jump; c4: after the increment;
      c: with the jump closed. */
  predicate Headed(c0: seq<Byte>, c1: seq<Byte>, c4: seq<Byte>, c: seq<Byte>, s: Stmt, p: Pos)
    requires s.Loop?
  {
    var start, test := LoopStart(s, p), TestPos(s, p);
    && Agree(c0, c1, 0, p.at)
    && if Skips(s) then
         BranchAt(c1, p, F_BRANCH) && AgreeExcept(c4, c, Hole(p), test.at) && Leads(c, Hole(p), test.at)
         && start.at == p.at + 3 && Hole(p) == p.at + 1
       else c == c4
  }

  /** c2: after the block; c3: with its continues closed; c4: after the increment. */
  lemma {:induction false} LoopBodyDone(c2: seq<Byte>, c3: seq<Byte>, c4: seq<Byte>, s: Stmt, p: Pos)
    requires s.Loop? && p.pend == []
    requires
      var start, next := LoopStart(s, p), ContinuePos(s, p);
      && HasStmt(c2, s.block, start) && AfterStmt(s.block, start) == next && next.at == |c2| <= 0x7fff
      && Patchable(JumpHoles(s.block, start, false), next.at)
      && c3 == PatchAll(c2, JumpHoles(s.block, start, false), next.at)
      && HasStmt(c4, s.inc, next) && Agree(c3, c4, 0, next.at)
    ensures BodyDone(c4, s, p) && Agree(c2, c4, 0, LoopStart(s, p).at)
  {
    hide HasStmt, AfterStmt, JumpHoles, AllLead, PatchAll, InHole, LoopStart, ContinuePos;
    var start, next := LoopStart(s, p), ContinuePos(s, p);
    JumpsClosed(c2, s.block, start, false, next.at);
    StmtGrows(s.block, start);
    KeepStmt(c3, c4, s.block, start);
    KeepAllLead(c3, c4, s.block, start, false, next.at, next.at);
  }

  /** c4: after the increment; c5: after the test; c6: with the breaks closed. */
  lemma {:induction false} LoopDone(c4: seq<Byte>, c5: seq<Byte>, c6: seq<Byte>, s: Stmt, p: Pos)
    requires s.Loop? && p.pend == []
    requires
      var start, next, test, end := LoopStart(s, p), ContinuePos(s, p), TestPos(s, p), AfterStmt(s, p).at;
      && BodyDone(c4, s, p) && HasTest(c5, s.test, test, start.at) && Agree(c4, c5, start.at, test.at) && |c5| == end <= 0x7fff
      && (Skips(s) ==> BranchAt(c5, p, F_BRANCH) && Leads(c5, Hole(p), test.at))
      && Patchable(JumpHoles(s.block, start, true), end)
      && c6 == PatchAll(c5, JumpHoles(s.block, start, true), end)
    ensures HasLoop(c6, s, p) && Agree(c5, c6, 0, p.at)
  {
    hide HasStmt, AfterStmt, JumpHoles, AllLead, PatchAll, InHole, LoopStart, ContinuePos, TestPos, HasTest,
      AfterTest, Leads;
    var start, next, test, end := LoopStart(s, p), ContinuePos(s, p), TestPos(s, p), AfterStmt(s, p).at;
    LoopGrows(s, p);
    LoopEnds(s, p);
    StmtGrows(s.block, start);
    StmtGrows(s.inc, next);
    KeepStmt(c4, c5, s.block, start);
    KeepAllLead(c4, c5, s.block, start, false, next.at, next.at);
    KeepStmt(c4, c5, s.inc, next);
    JumpsClosed(c5, s.block, start, true, end);
    OtherJumpsStay(c5, s.block, start, end, next.at);
    KeepStmt(c5, c6, s.inc, next);
    KeepTest(c5, c6, s.test, test, start.at);
    if Skips(s) {
      KeepEmitted(c5, c6, p, [F_BRANCH]);
      KeepLeads(c5, c6, Hole(p), test.at);
    }
    LoopHas(c6, s, p);
  }

  lemma {:induction false} LoopEnds(s: Stmt, p: Pos)
    requires s.Loop? && p.pend == []
    ensures
      var start, next, test := LoopStart(s, p), ContinuePos(s, p), TestPos(s, p);
      && start.pend == next.pend == test.pend == []
      && AfterStmt(s.block, start) == next && AfterStmt(s.inc, next) == test
      && AfterStmt(s, p) == Flush(AfterTest(s.test, test)) && AfterTest(s.test, test).at <= AfterStmt(s, p).at
      && start.at == (if Skips(s) then p.at + 3 else p.at)
  {
    StmtGrows(s.block, LoopStart(s, p));
    StmtGrows(s.inc, ContinuePos(s, p));
  }

  lemma {:induction false} LoopHas(code: seq<Byte>, s: Stmt, p: Pos)
    requires s.Loop? && p.pend == []
    requires
      var start, next, test, end := LoopStart(s, p), ContinuePos(s, p), TestPos(s, p), AfterStmt(s, p).at;
      && (Skips(s) ==> BranchAt(code, p, F_BRANCH) && Leads(code, Hole(p), test.at))
      && HasStmt(code, s.block, start) && HasStmt(code, s.inc, next) && HasTest(code, s.test, test, start.at)
      && AllLead(code, JumpHoles(s.block, start, true), end)
      && AllLead(code, JumpHoles(s.block, start, false), next.at)
      && |code| == end
    ensures HasLoop(code, s, p)
  {
    hide HasStmt, HasTest, Leads, AllLead, JumpHoles, HasExpr;
    LoopGrows(s, p);
    LoopEnds(s, p);
  }

  lemma {:induction false} TwoParts(s: Stmt, p: Pos)
    requires s.Two?
    ensures
      var q := AfterStmt(s.s1, p);
      && AfterStmt(s, p) == AfterStmt(s.s2, q)
      && JumpHoles(s, p, true) == JumpHoles(s.s2, q, true) + JumpHoles(s.s1, p, true)
      && JumpHoles(s, p, false) == JumpHoles(s.s2, q, false) + JumpHoles(s.s1, p, false)
  {}

  lemma {:induction false} TwoHas(code: seq<Byte>, s: Stmt, p: Pos)
    requires s.Two? && HasStmt(code, s.s1, p) && HasStmt(code, s.s2, AfterStmt(s.s1, p))
    ensures HasStmt(code, s, p)
  {}

  lemma {:induction false} NoJumps(s: Stmt, p: Pos)
    requires IsIncrement(s) || s.Loop?
    ensures JumpHoles(s, p, true) == JumpHoles(s, p, false) == []
    ensures s.Loop? ==> forall code :: HasLoop(code, s, p) ==> HasStmt(code, s, p)
    ensures IsIncrement(s) ==> WellFormed(s)
  {
    if IsIncrement(s) {
      NoHolesInIncrement(s, p);
      IncrementIsWellFormed(s);
    }
  }

  lemma {:induction false} AgreeBounds(F: seq<Byte>, G: seq<Byte>, lo: nat, hi: nat)
    requires Agree(F, G, lo, hi)
    ensures hi <= |F| && hi <= |G|
  {}

  lemma {:induction false} AfterTernary(e: Expr, p: Pos)
    requires e.Cond?
    ensures AfterExpr(e, p) == Flush(AfterExpr(e.b, Branch(AfterExpr(e.a, AfterCond(e.c, false, p)))))
  {
    hide AfterCond;
  }

  /** The jumps of an if, in front of those that were there before. */
  lemma {:induction false} IfJumps(s: Stmt, p: Pos, isBreak: bool, before: seq<nat>)
    requires s.If?
    ensures
      var q := AfterCond(s.c, false, p);
      JumpHoles(s, p, isBreak) + before ==
        if s.f.Empty? then JumpHoles(s.t, q, isBreak) + before
        else JumpHoles(s.f, Branch(AfterStmt(s.t, q)), isBreak) + (JumpHoles(s.t, q, isBreak) + before)
  {
    hide AfterCond, AfterStmt;
    var q := AfterCond(s.c, false, p);
    var f, t := JumpHoles(s.f, Branch(AfterStmt(s.t, q)), isBreak), JumpHoles(s.t, q, isBreak);
    assert JumpHoles(s, p, isBreak) == (if s.f.Empty? then [] else f) + t;
    assert (f + t) + before == f + (t + before) && [] + t == t;
  }

  lemma {:induction false} AfterLandLor(e: Expr, p: Pos)
    requires e.LandLor?
    ensures AfterExpr(e, p) == Flush(AfterExpr(e.r, Branch(AfterChain(e.chain, p))))
  {}

  lemma {:induction false} ThreeAppended(c: seq<Byte>, a: Byte, b: Byte, s: seq<Byte>)
    ensures c + [a] + [b] + s == c + ([a, b] + s)
  {}

  /** Bytes followed by the offset of a branch back to `start`. */
  lemma {:induction false} TestBytes(F: seq<Byte>, p: Pos, bytes: seq<Byte>, start: nat)
    requires p.pend == [] && |F| == p.at && start <= p.at && p.at + |bytes| <= 0x7fff
    ensures
      var G := F + bytes + ShortBytes(p.at + |bytes| - start);
      && Emitted(G, p, bytes) && LeadsBack(G, p.at + |bytes|, start)
      && Agree(F, G, 0, p.at) && |G| == p.at + |bytes| + 2
  {
    var v := p.at + |bytes| - start;
    var G := F + bytes + ShortBytes(v);
    assert G[p.at + |bytes|] == ShortBytes(v)[0] && G[p.at + |bytes| + 1] == ShortBytes(v)[1];
    assert Short(G, p.at + |bytes|) == Short(ShortBytes(v), 0);
  }

  lemma {:induction false} GeneralEnds(e: Expr, p: Pos)
    ensures AfterGeneral(e, p).pend == []
  {}

  lemma {:induction false} ThreeBytes(code: seq<Byte>, p: Pos, a: Byte, b: Byte, c: Byte)
    requires Emitted(code, p, [a, b]) && Emitted(code, Emit(p, 2), [c])
    ensures Emitted(code, p, [a, b, c])
  {
    hide Flushed;
    var at := Flush(p).at;
    assert code[at + 0] == [a, b][0] && code[at + 1] == [a, b][1] && code[at + 2 + 0] == [c][0];
  }

  lemma {:induction false} NoLinks(chain: Chain, p: Pos, code: seq<Byte>, op: Byte)
    requires chain.First? && |code| <= 0x7fff
    ensures ChainHoles(chain, p) == [] && PatchLinks(code, [], op, |code|) == code
  {}

  lemma {:induction false} Concat(a: seq<nat>, b: seq<nat>, c: seq<nat>)
    ensures a + (b + c) == (a + b) + c
    ensures [] + c == c
  {}

  lemma {:induction false} AgreeSelf(F: seq<Byte>, hi: nat)
    requires hi <= |F|
    ensures Agree(F, F, 0, hi)
  {}

  lemma {:induction false} KeepShort(F: seq<Byte>, G: seq<Byte>, h: nat, hi: nat)
    requires Agree(F, G, 0, hi) && h + 2 <= hi
    ensures Short(G, h) == Short(F, h)
  {}

  lemma {:induction false} AgreeThree(F: seq<Byte>, G: seq<Byte>, H: seq<Byte>, I: seq<Byte>, hi: nat)
    requires Agree(F, G, 0, hi) && Agree(G, H, 0, hi) && (H == I || Agree(H, I, 0, hi))
    ensures Agree(F, I, 0, hi)
  {}

  lemma {:induction false} DecrementDone(c0: seq<Byte>, c1: seq<Byte>, c2: seq<Byte>, t: Test, p: Pos, start: nat)
    requires t.WhileDec? && Emitted(c1, p, [F_WHILE_DEC, t.x]) && LeadsBack(c2, Emit(p, 2).at, start)
    requires Agree(c0, c1, 0, p.at) && Agree(c1, c2, 0, Emit(p, 2).at)
    ensures HasTest(c2, t, p, start) && Agree(c0, c2, 0, p.at)
  {
    hide Flushed, LeadsBack, Emitted;
    KeepEmitted(c1, c2, p, [F_WHILE_DEC, t.x]);
  }

  /** The jumps of a block that has just been generated. */
  lemma {:induction false} BlockJumps(code: seq<Byte>, s: Stmt, p: Pos)
    requires s.Loop? && p.pend == [] && Fits(AfterStmt(s, p)) && HasStmt(code, s.block, LoopStart(s, p))
    requires |code| == ContinuePos(s, p).at
    ensures
      var start, next := LoopStart(s, p), ContinuePos(s, p);
      && (forall h: seq<nat> :: h + [] == h)
      && Patchable(JumpHoles(s.block, start, false), next.at)
      && Agree(code, PatchAll(code, JumpHoles(s.block, start, false), next.at), 0, start.at)
  {
    LoopGrows(s, p);
    LoopEnds(s, p);
    hide HasStmt, AfterStmt, JumpHoles, InHole, LoopStart, ContinuePos, TestPos, AllLead, PatchAll;
    JumpsClosed(code, s.block, LoopStart(s, p), false, ContinuePos(s, p).at);
  }

  lemma {:induction false} GeneralHas(code: seq<Byte>, t: Test, p: Pos, start: nat)
    requires t.General? && !Mistaken(t) && HasGeneral(code, Stripped(t.e), p, start)
    ensures HasTest(code, t, p, start)
  {}

  lemma {:induction false} LoopStarts(s: Stmt, p: Pos)
    requires s.Loop? && p.pend == []
    ensures LoopStart(s, p) == if Skips(s) then Branch(p) else p
    ensures Flush(p) == p && Branch(p) == Pos(p.at + 3, []) && Hole(p) == p.at + 1
  {}

  lemma {:induction false} LoopIsStmt(code: seq<Byte>, s: Stmt, p: Pos)
    requires s.Loop? && HasLoop(code, s, p)
    ensures HasStmt(code, s, p)
  {}

  lemma {:induction false} PatchableJumps(s: Stmt, p: Pos)
    requires s.Loop? && p.pend == [] && Fits(AfterStmt(s, p))
    ensures Patchable(JumpHoles(s.block, LoopStart(s, p), true), AfterStmt(s, p).at)
  {
    LoopGrows(s, p);
    hide AfterStmt, LoopStart, ContinuePos, TestPos, JumpHoles;
    JumpHolesInside(s.block, LoopStart(s, p), true);
  }

  /** c5: after the test. */
  lemma {:induction false} LoopHead(c0: seq<Byte>, c1: seq<Byte>, c4: seq<Byte>, c: seq<Byte>, c5: seq<Byte>, s: Stmt, p: Pos)
    requires s.Loop? && p.pend == [] && Headed(c0, c1, c4, c, s, p)
    requires
      var start, test := LoopStart(s, p), TestPos(s, p);
      && p.at <= start.at <= test.at <= |c4| && Agree(c1, c4, 0, start.at) && Agree(c, c5, 0, test.at)
    ensures
      var start, test := LoopStart(s, p), TestPos(s, p);
      && Agree(c0, c5, 0, p.at) && Agree(c4, c5, start.at, test.at)
      && (Skips(s) ==> BranchAt(c5, p, F_BRANCH) && Leads(c5, Hole(p), test.at))
  {
    hide Emitted, Flushed, LoopStart, TestPos, Leads;
    if Skips(s) {
      KeepEmitted(c1, c5, p, [F_BRANCH]);
      KeepLeads(c, c5, Hole(p), TestPos(s, p).at);
    }
  }

  /** c1: after end_pushes. */
  lemma {:induction false} BackBranchDone(c0: seq<Byte>, c1: seq<Byte>, c: seq<Byte>, p: Pos, b: Byte, start: nat)
    requires p.at <= |c0| && Agree(c0, c1, 0, p.at) && Flushed(c1, p) && |c1| == Flush(p).at && start <= |c1|
    requires |c1| + 1 - start < 0x1_0000
    requires c == if b == F_WHILE_DEC then c1 + ShortBytes(|c1| - start) else (c1 + [b]) + ShortBytes(|c1| + 1 - start)
    ensures Agree(c0, c, 0, p.at) && Flushed(c, p)
    ensures if b == F_WHILE_DEC then LeadsBack(c, Flush(p).at, start) else BackBranch(c, p, b, start)
  {
    hide Flushed;
    KeepFlushed(c1, c, p);
    if b != F_WHILE_DEC {
      EmittedAppend(c1, p, [b]);
      KeepEmitted(c1 + [b], c, p, [b]);
    }
  }

  class Generator {
    var code: seq<Byte>
    var pushState: nat
    var pushStart: nat
    var currentForwardBranch: nat
    var breaks: seq<nat>        // branch_list[CJ_BREAK], last jump first
    var continues: seq<nat>     // branch_list[CJ_CONTINUE]
    ghost var pos: Pos

    /** The output and the push state are those of position `pos`. */
    ghost predicate Shape()
      reads `code, `pushState, `pushStart, `pos
    {
      && |pos.pend| <= 255 && (forall i :: 0 <= i < |pos.pend| ==> Small(pos.pend[i]))
      && pushState == |pos.pend| && pos.at <= |code| && code[pos.at..] == Pending(pos.pend)
      && (pushState == 1 ==> pushStart == pos.at)
      && (pushState > 1 ==> pushStart == pos.at + 1)
    }

    ghost predicate Valid()
      reads `code, `pushState, `pushStart, `pos
    {
      Shape() && pushState < 255
    }

    /** A push that was left behind when bytes were written without end_pushes. */
    ghost predicate Stray()
      reads `code, `pushState, `pushStart, `pos
    {
      pushState == 1 && pos == Pos(|code|, [])
    }

    constructor ()
      ensures Valid() && pos == Pos(0, []) && code == []
      ensures currentForwardBranch == 0 && breaks == [] && continues == []
    {
      code, pushState, pushStart, currentForwardBranch := [], 0, 0, 0;
      breaks, continues := [], [];
      pos := Pos(0, []);
    }

    // ---------- Bytes ----------

    method InsByte(b: Byte)
      modifies `code
      ensures code == old(code) + [b]
    {
      code := code + [b];
    }

    method InsShort(v: nat)
      requires v < 0x1_0000
      modifies `code
      ensures code == old(code) + ShortBytes(v)
    {
      code := code + ShortBytes(v);
    }

    method InsInt(n: Int32)
      modifies `code
      ensures code == old(code) + IntBytes(n)
    {
      code := code + IntBytes(n);
    }

    method UpdShort(h: nat, v: nat)
      requires h + 2 <= |code| && v < 0x1_0000
      modifies `code
      ensures code == Patched(old(code), h, v)
    {
      code := code[h := v % 256][h + 1 := v / 256];
    }

    method UpdByte(h: nat, b: Byte)
      requires h < |code|
      modifies `code
      ensures code == old(code)[h := b]
    {
      code := code[h := b];
    }

    // ---------- Pushes ----------

    method EndPushes()
      requires Shape() || Stray()
      modifies `code, `pushState, `pos
      ensures Valid() && pos == Flush(old(pos)) && |code| == pos.at
      ensures Agree(old(code), code, 0, old(pos.at)) && Flushed(code, old(pos))
      ensures old(pos.pend) == [] ==> code == old(code)
    {
      ghost var p0 := pos;
      if pushState != 0 {
        if pushState > 1 {
          CountCompletes(code, pos.at, pos.pend);
          UpdByte(pushStart, pushState);
        }
        pushState := 0;
      }
      SuffixFlushed(code, p0);
      pos := Flush(pos);
    }

    /** Rewinds the output to the single pending push and starts an F_PUSH in its place. */
    method InitializePush()
      requires Shape() && pushState == 1
      modifies `code, `pushStart
      ensures code == old(code)[..pos.at] + [F_PUSH, 0] + PushBytes(pos.pend) && pushStart == pos.at + 1
    {
      var u := pos.pend[0];
      assert forall i :: pos.at <= i < |code| ==> code[i] == code[pos.at..][i - pos.at];
      var what := code[pushStart];
      var arg := if pushStart + 1 < |code| then code[pushStart + 1] else 0;
      code := code[..pushStart];
      InsByte(F_PUSH);
      pushStart := pushStart + 1;
      InsByte(0);
      if what == F_CONST0 {
        InsByte(PUSH_NUMBER);
      } else if what == F_CONST1 {
        InsByte(PUSH_NUMBER + 1);
      } else if what == F_BYTE {
        InsByte(PUSH_NUMBER + arg);
      } else if what == F_LOCAL {
        InsByte(PUSH_LOCAL + arg);
      }
    }

    /** Joins a push to the run that is open. */
    method JoinPush(u: Push)
      requires Valid() && pushState != 0 && Small(u)
      modifies `code, `pushState, `pushStart, `pos
      ensures Valid() && Agree(old(code), code, 0, old(pos.at))
      ensures pos == Pushing(old(pos), u) && PushedAt(code, old(pos), u)
    {
      ghost var p0, c0 := pos, code;
      if pushState == 1 { InitializePush(); }
      assert code == c0[..p0.at] + ([F_PUSH, 0] + PushBytes(p0.pend));
      pushState := pushState + 1;
      InsByte(PushByte(u));
      PendingAppend(p0.pend, u);
      assert code == c0[..p0.at] + Pending(p0.pend + [u]);
      pos := Pos(pos.at, pos.pend + [u]);
      if pushState == 255 { EndPushes(); }
    }

    /** Writes a push that opens a run. */
    method StartPush(u: Push)
      requires Valid() && pushState == 0 && Small(u)
      modifies `code, `pushState, `pushStart, `pos
      ensures Valid() && Agree(old(code), code, 0, old(pos.at))
      ensures pos == Pushing(old(pos), u)
    {
      ghost var c0 := code;
      pushStart := |code|;
      pushState := 1;
      if u.PushLocal? {
        InsByte(F_LOCAL);
        InsByte(u.v);
      } else if u.v == 0 {
        InsByte(F_CONST0);
      } else if u.v == 1 {
        InsByte(F_CONST1);
      } else {
        InsByte(F_BYTE);
        InsByte(u.v);
      }
      assert code == c0 + Single(u);
      pos := Pos(pos.at, [u]);
    }

    method TryToPush(u: Push) returns (done: bool)
      requires Valid()
      modifies `code, `pushState, `pushStart, `pos
      ensures Valid() && Agree(old(code), code, 0, old(pos.at))
      ensures done == Small(u)
      ensures Small(u) ==> pos == Pushing(old(pos), u) && PushedAt(code, old(pos), u)
      ensures !Small(u) ==> pos == Flush(old(pos)) && Flushed(code, old(pos)) && |code| == pos.at
    {
      if pushState != 0 {
        if u.v <= PUSH_MASK {
          JoinPush(u);
          return true;
        }
        EndPushes();
      } else if u.v <= PUSH_MASK {
        StartPush(u);
        return true;
      }
      return false;
    }

    method WriteSmallNumber(n: Byte)
      requires Valid()
      modifies `code, `pushState, `pushStart, `pos
      ensures Valid() && pos == AfterNumber(n, old(pos)) && HasExpr(code, Number(n), old(pos))
      ensures Agree(old(code), code, 0, old(pos.at))
    {
      ghost var p0 := pos;
      var done := TryToPush(PushNumber(n));
      if done { return; }
      ghost var before := code;
      EmittedAppend(code, p0, [F_BYTE, n]);
      InsByte(F_BYTE);
      InsByte(n);
      assert code == before + [F_BYTE, n];
      pos := Pos(|code|, []);
    }

    method WriteNumber(n: Int32)
      requires Valid()
      modifies `code, `pushState, `pushStart, `pos
      ensures Valid() && pos == AfterNumber(n, old(pos)) && HasExpr(code, Number(n), old(pos))
      ensures Agree(old(code), code, 0, old(pos.at))
    {
      hide Flushed, Emitted;
      ghost var p0 := pos;
      if 0 <= n < 256 {
        WriteSmallNumber(n);
        return;
      }
      EndPushes();
      ghost var before := code;
      if -256 < n < 0 {
        EmittedAppend(code, p0, [F_NBYTE, -(n as int)]);
        InsByte(F_NBYTE);
        InsByte(-(n as int));
        assert code == before + [F_NBYTE, -(n as int)];
      } else {
        EmittedAppend(code, p0, [F_NUMBER] + IntBytes(n));
        InsByte(F_NUMBER);
        InsInt(n);
        assert code == before + ([F_NUMBER] + IntBytes(n));
      }
      pos := Pos(|code|, []);
    }

    /** One or more bytes after end_pushes. */
    method Op1(b: Byte)
      requires Valid()
      modifies `code, `pushState, `pos
      ensures Valid() && pos == Emit(old(pos), 1) && Emitted(code, old(pos), [b])
      ensures Agree(old(code), code, 0, old(pos.at))
    {
      ghost var p0 := pos;
      EndPushes();
      EmittedAppend(code, p0, [b]);
      InsByte(b);
      pos := Pos(|code|, []);
    }

    method Op2(b: Byte, x: Byte)
      requires Valid()
      modifies `code, `pushState, `pos
      ensures Valid() && pos == Emit(old(pos), 2) && Emitted(code, old(pos), [b, x])
      ensures Agree(old(code), code, 0, old(pos.at))
    {
      ghost var p0 := pos;
      EndPushes();
      EmittedAppend(code, p0, [b, x]);
      ghost var before := code;
      InsByte(b);
      InsByte(x);
      assert code == before + [b, x];
      pos := Pos(|code|, []);
    }

    method WriteLocal(x: Byte)
      requires Valid()
      modifies `code, `pushState, `pushStart, `pos
      ensures Valid() && pos == AfterExpr(Local(x), old(pos)) && HasExpr(code, Local(x), old(pos))
      ensures Agree(old(code), code, 0, old(pos.at))
    {
      ghost var p0 := pos;
      var done := TryToPush(PushLocal(x));
      if !done {
        ghost var c1 := code;
        Op2(F_LOCAL, x);
        KeepFlushed(c1, code, p0);
      }
    }

    // ---------- Forward branches ----------

    /** The open branches form a list threaded through their offset bytes. */
    method GenerateForwardBranch(b: Byte)
      requires Valid() && currentForwardBranch <= 0x7fff
      modifies `code, `pushState, `pos, `currentForwardBranch
      ensures Valid() && pos == Branch(old(pos)) && BranchAt(code, old(pos), b) && |code| == pos.at
      ensures Agree(old(code), code, 0, old(pos.at))
      ensures currentForwardBranch == Hole(old(pos)) && Short(code, currentForwardBranch) == old(currentForwardBranch)
    {
      ghost var p0 := pos;
      EndPushes();
      EmittedAppend(code, p0, [b]);
      InsByte(b);
      ghost var c1 := code;
      InsShort(currentForwardBranch);
      KeepEmitted(c1, code, p0, [b]);
      currentForwardBranch := |code| - 2;
      pos := Pos(|code|, []);
    }

    /** The innermost open branch is made to lead here and leaves the list. */
    method UpdateForwardBranch()
      requires Valid() && Fits(pos) && currentForwardBranch + 2 <= pos.at
      modifies `code, `pushState, `pos, `currentForwardBranch
      ensures Valid() && pos == Flush(old(pos)) && |code| == pos.at && Flushed(code, old(pos))
      ensures Leads(code, old(currentForwardBranch), pos.at)
      ensures AgreeExcept(old(code), code, old(currentForwardBranch), old(pos.at))
      ensures currentForwardBranch == Short(old(code), old(currentForwardBranch))
    {
      var i := Short(code, currentForwardBranch);
      ghost var p0 := pos;
      EndPushes();
      ghost var c1 := code;
      UpdShort(currentForwardBranch, |code| - currentForwardBranch);
      KeepFlushed(c1, code, p0);
      currentForwardBranch := i;
    }

    /** The same, with the inner operators of a chain. */
    method UpdateForwardBranchLinks(kind: Byte, links: seq<nat>) returns (ghost c2: seq<Byte>)
      requires Valid() && Fits(pos) && currentForwardBranch + 2 <= pos.at
      requires Linkable(links, pos.at)
      modifies `code, `pushState, `pos, `currentForwardBranch
      ensures Valid() && pos == Flush(old(pos)) && |code| == pos.at
      ensures |c2| == pos.at && Flushed(c2, old(pos)) && Leads(c2, old(currentForwardBranch), pos.at)
      ensures AgreeExcept(old(code), c2, old(currentForwardBranch), old(pos.at))
      ensures code == PatchLinks(c2, links, kind, pos.at)
      ensures currentForwardBranch == Short(old(code), old(currentForwardBranch))
    {
      hide Flushed, Leads, AgreeExcept, Short;
      UpdateForwardBranch();
      c2 := code;
      var rest := links;
      while rest != []
        invariant Valid() && pos == Flush(old(pos)) && |code| == pos.at
        invariant currentForwardBranch == Short(old(code), old(currentForwardBranch))
        invariant Linkable(rest, pos.at)
        invariant PatchLinks(code, rest, kind, pos.at) == PatchLinks(c2, links, kind, pos.at)
      {
        var h := rest[0];
        ghost var c := code;
        UpdByte(h - 1, kind);
        UpdShort(h, |code| - h);
        assert code == PatchedLink(c, h, kind, pos.at - h);
        rest := rest[1..];
      }
    }

    /** The branch that ends the first part of an if leads behind this point's own branch. */
    method GenerateElse()
      requires Valid() && Fits(Branch(pos)) && currentForwardBranch + 2 <= pos.at
      requires Short(code, currentForwardBranch) <= 0x7fff
      modifies `code, `pushState, `pos, `currentForwardBranch
      ensures Valid() && pos == Branch(old(pos)) && |code| == pos.at && BranchAt(code, old(pos), F_BRANCH)
      ensures Leads(code, old(currentForwardBranch), pos.at)
      ensures AgreeExcept(old(code), code, old(currentForwardBranch), old(pos.at))
      ensures currentForwardBranch == Hole(old(pos))
      ensures Short(code, currentForwardBranch) == Short(old(code), old(currentForwardBranch))
    {
      hide Flushed;
      ghost var p0, h := pos, currentForwardBranch;
      EndPushes();
      ghost var c0 := code;
      EmittedAppend(code, p0, [F_BRANCH]);
      InsByte(F_BRANCH);
      ghost var c1 := code;
      InsShort(Short(code, currentForwardBranch));
      UpdShort(currentForwardBranch, |code| - currentForwardBranch);
      ElseBytes(c1, code, h);
      KeepEmitted(c1, code, p0, [F_BRANCH]);
      currentForwardBranch := |code| - 2;
      pos := Pos(|code|, []);
    }

    /** i_update_branch_list */
    method UpdateBranchList(list: seq<nat>)
      requires (Valid() || Stray()) && pos.pend == [] && Patchable(list, pos.at)
      modifies `code, `pushState, `pos
      ensures Valid() && pos == old(pos) && |code| == pos.at
      ensures code == PatchAll(old(code), list, pos.at)
    {
      hide Shape, Flushed, Agree, Pending, Short;
      EndPushes();
      NothingPending();
      var size := |code|;
      var rest := list;
      while rest != []
        invariant pushState == 0 && pos == old(pos) && |code| == size == pos.at
        invariant Patchable(rest, size)
        invariant PatchAll(code, rest, size) == PatchAll(old(code), list, size)
      {
        UpdShort(rest[0], size - rest[0]);
        rest := rest[1..];
      }
      PlainShape();
    }

    lemma {:induction false} NothingPending()
      requires Shape() && pos.pend == []
      ensures pushState == 0
    {}

    lemma {:induction false} PlainShape()
      requires pushState == 0 && pos.pend == [] && pos.at == |code|
      ensures Valid()
    {}

    // ---------- Expressions ----------

    method GenerateExpr(e: Expr)
      requires Valid() && Fits(AfterExpr(e, pos)) && currentForwardBranch <= 0x7fff
      modifies `code, `pushState, `pushStart, `pos, `currentForwardBranch
      ensures Valid() && pos == AfterExpr(e, old(pos)) && HasExpr(code, e, old(pos))
      ensures Agree(old(code), code, 0, old(pos.at)) && currentForwardBranch == old(currentForwardBranch)
      decreases e, 1
    {
      hide Emitted, Flushed, Shape;
      ghost var p0 := pos;
      match e
      case Number(n) => WriteNumber(n);
      case Local(x) => WriteLocal(x);
      case Binary(op, l, r) =>
        GenerateOperands(e);
        ghost var c2 := code;
        Op1(BinaryCode(op));
        KeepOperands(c2, code, e, p0);
      case Unary(uop, e1) =>
        ExprGrows(e1, p0);
        GenerateExpr(e1);
        ghost var c1 := code;
        Op1(if uop.Not? then F_NOT else F_NEGATE);
        KeepExpr(c1, code, e1, p0);
      case Assign(x, e1) =>
        ExprGrows(e1, p0);
        GenerateExpr(e1);
        ghost var c1, p1 := code, pos;
        Op2(F_LOCAL_LVALUE, x);
        ghost var c2 := code;
        Op1(F_ASSIGN);
        KeepExpr(c1, code, e1, p0);
        KeepEmitted(c2, code, p1, [F_LOCAL_LVALUE, x]);
        ThreeBytes(code, p1, F_LOCAL_LVALUE, x, F_ASSIGN);
      case LandLor(isAnd, chain, r) => GenerateLandLor(e);
      case Cond(c, a, b) => GenerateTernary(e);
    }

    method GenerateOperands(e: Expr)
      requires e.Binary? && Valid() && Fits(AfterExpr(e.r, AfterExpr(e.l, pos))) && currentForwardBranch <= 0x7fff
      modifies `code, `pushState, `pushStart, `pos, `currentForwardBranch
      ensures Valid() && pos == AfterExpr(e.r, AfterExpr(e.l, old(pos)))
      ensures HasExpr(code, e.l, old(pos)) && HasExpr(code, e.r, AfterExpr(e.l, old(pos)))
      ensures Agree(old(code), code, 0, old(pos.at)) && currentForwardBranch == old(currentForwardBranch)
      ensures old(pos.at) <= AfterExpr(e.l, old(pos)).at <= pos.at
      decreases e, 0
    {
      hide HasExpr, AfterExpr, Shape;
      ghost var p0 := pos;
      ExprGrows(e.l, p0);
      ExprGrows(e.r, AfterExpr(e.l, p0));
      GenerateExpr(e.l);
      ghost var c1 := code;
      GenerateExpr(e.r);
      KeepExpr(c1, code, e.l, p0);
    }

    /** NODE_BRANCH_LINK: the branches of the inner operators stay open; their offsets are returned,
        last one first. */
    method GenerateChain(chain: Chain) returns (links: seq<nat>)
      requires Valid() && Fits(AfterChain(chain, pos)) && currentForwardBranch <= 0x7fff
      modifies `code, `pushState, `pushStart, `pos, `currentForwardBranch
      ensures Valid() && pos == AfterChain(chain, old(pos)) && HasChain(code, chain, old(pos))
      ensures links == ChainHoles(chain, old(pos))
      ensures Agree(old(code), code, 0, old(pos.at)) && currentForwardBranch == old(currentForwardBranch)
      decreases chain, 1
    {
      hide Flushed, Shape, HasExpr, AfterExpr, Emitted;
      ghost var p0 := pos;
      match chain
      case First(e) =>
        GenerateExpr(e);
        links := [];
      case Link(l, r) =>
        ChainGrows(l, p0);
        ExprGrows(r, Branch(AfterChain(l, p0)));
        var rest := GenerateChain(l);
        ghost var c1 := code;
        var h := Placeholder();
        links := [h] + rest;
        ghost var c2 := code;
        GenerateExpr(r);
        KeepChain(c1, code, l, p0);
        KeepFlushed(c2, code, AfterChain(l, p0));
    }

    method Placeholder() returns (h: nat)
      requires Valid()
      modifies `code, `pushState, `pos
      ensures Valid() && pos == Branch(old(pos)) && Flushed(code, old(pos)) && |code| == pos.at
      ensures h == Hole(old(pos)) && Agree(old(code), code, 0, old(pos.at))
    {
      hide Flushed;
      ghost var p0 := pos;
      EndPushes();
      ghost var c1 := code;
      InsByte(0);
      h := |code|;
      InsShort(0);
      pos := Pos(|code|, []);
      KeepFlushed(c1, code, p0);
    }

    method GenerateLandLor(e: Expr)
      requires e.LandLor?
      requires Valid() && Fits(AfterExpr(e, pos)) && currentForwardBranch <= 0x7fff
      modifies `code, `pushState, `pushStart, `pos, `currentForwardBranch
      ensures Valid() && pos == AfterExpr(e, old(pos)) && HasExpr(code, e, old(pos))
      ensures Agree(old(code), code, 0, old(pos.at)) && currentForwardBranch == old(currentForwardBranch)
      decreases e, 0
    {
      hide Flushed, Shape, HasExpr, AfterExpr, Emitted, HasChain, AfterChain, ChainHoles, Leads, Agree, AgreeExcept, PatchLinks, Short;
      ghost var p0 := pos;
      ghost var q := AfterChain(e.chain, p0);
      AfterLandLor(e, p0);
      ChainGrows(e.chain, p0);
      ExprGrows(e.r, Branch(q));
      var op := LogicCode(e.isAnd);
      var links := GenerateChain(e.chain);
      ghost var c1 := code;
      GenerateForwardBranch(op);
      ghost var c2 := code;
      GenerateExpr(e.r);
      ghost var c3, c4 := code, code;
      KeepShort(c2, c3, Hole(q), Branch(q).at);
      ChainHolesInside(e.chain, p0);
      if e.chain.Link? {
        c4 := UpdateForwardBranchLinks(op, links);
      } else {
        UpdateForwardBranch();
        c4 := code;
        NoLinks(e.chain, p0, code, op);
      }
      LandLorClosed(c1, c2, c3, c4, e, p0);
      LinksClosed(c4, e, p0);
      AgreeThree(old(code), c1, c4, code, p0.at);
    }

    method GenerateTernary(e: Expr)
      requires e.Cond?
      requires Valid() && Fits(AfterExpr(e, pos)) && currentForwardBranch <= 0x7fff
      modifies `code, `pushState, `pushStart, `pos, `currentForwardBranch
      ensures Valid() && pos == AfterExpr(e, old(pos)) && HasExpr(code, e, old(pos))
      ensures Agree(old(code), code, 0, old(pos.at)) && currentForwardBranch == old(currentForwardBranch)
      decreases e, 0
    {
      hide Flushed, Shape, HasExpr, AfterExpr, Emitted, HasCond, AfterCond, Leads, Agree, AgreeExcept, Short;
      ghost var p0, c0 := pos, code;
      ghost var q := AfterCond(e.c, false, p0);
      ghost var q1 := AfterExpr(e.a, q);
      AfterTernary(e, p0);
      CondGrows(e.c, false, p0);
      ExprGrows(e.a, q);
      ExprGrows(e.b, Branch(q1));
      GenerateIfBranch(e.c, false);
      ghost var c1 := code;
      GenerateExpr(e.a);
      ghost var c2 := code;
      KeepShort(c1, c2, q.at - 2, q.at);
      GenerateElse();
      ghost var c3 := code;
      GenerateExpr(e.b);
      ghost var c4 := code;
      KeepShort(c3, c4, Hole(q1), Branch(q1).at);
      UpdateForwardBranch();
      TernaryDone(c1, c2, c3, c4, code, e, p0);
      AgreeThree(c0, c1, code, code, p0.at);
    }

    /** i_generate_if_branch: comparisons are folded into the branch. */
    method GenerateIfBranch(c: Expr, invert: bool)
      requires Valid() && Fits(AfterCond(c, invert, pos)) && currentForwardBranch <= 0x7fff
      modifies `code, `pushState, `pushStart, `pos, `currentForwardBranch
      ensures Valid() && pos == AfterCond(c, invert, old(pos)) && HasCond(code, c, invert, old(pos))
      ensures |code| == pos.at && pos.at >= 3 && Agree(old(code), code, 0, old(pos.at))
      ensures currentForwardBranch == pos.at - 2
      ensures Short(code, currentForwardBranch) == old(currentForwardBranch)
      decreases c, 2
    {
      hide Flushed, Shape, HasExpr, AfterExpr;
      ghost var p0 := pos;
      if IsNot(c) {
        GenerateIfBranch(c.e, !invert);
      } else if IsFused(c, invert) {
        ExprGrows(c.r, AfterExpr(c.l, p0));
        GenerateOperands(c);
        ghost var c1 := code;
        GenerateForwardBranch(FusedBranch(c.op, invert).value);
        KeepOperands(c1, code, c, p0);
      } else {
        ExprGrows(c, p0);
        GenerateExpr(c);
        ghost var c1 := code;
        GenerateForwardBranch(PlainBranch(invert));
        KeepExpr(c1, code, c, p0);
      }
    }

    // ---------- Statements ----------

    /** i_generate_node on statements; open breaks and continues join the branch lists. */
    method GenerateStmt(s: Stmt)
      requires Valid() && pos.pend == [] && WellFormed(s) && Fits(AfterStmt(s, pos)) && currentForwardBranch <= 0x7fff
      modifies this
      ensures Valid() && pos == AfterStmt(s, old(pos)) && pos.pend == [] && HasStmt(code, s, old(pos))
      ensures Agree(old(code), code, 0, old(pos.at)) && currentForwardBranch == old(currentForwardBranch)
      ensures breaks == JumpHoles(s, old(pos), true) + old(breaks)
      ensures continues == JumpHoles(s, old(pos), false) + old(continues)
      decreases s, 3
    {
      hide Shape, HasStmt, AfterStmt, JumpHoles, InHole, Agree;
      StmtGrows(s, pos);
      Concat([], [], breaks);
      Concat([], [], continues);
      if IsSimple(s) {
        NoJumps(s, pos);
        GenerateSimple(s);
      } else if s.Two? {
        GenerateTwo(s);
      } else if s.If? {
        GenerateIf(s);
      } else if s.Loop? {
        NoJumps(s, pos);
        GenerateLoop(s);
      } else {
        GenerateControlJump(s);
      }
    }

    method GenerateTwo(s: Stmt)
      requires s.Two?
      requires Valid() && pos.pend == [] && WellFormed(s) && Fits(AfterStmt(s, pos)) && currentForwardBranch <= 0x7fff
      modifies this
      ensures Valid() && pos == AfterStmt(s, old(pos)) && pos.pend == [] && HasStmt(code, s, old(pos))
      ensures Agree(old(code), code, 0, old(pos.at)) && currentForwardBranch == old(currentForwardBranch)
      ensures breaks == JumpHoles(s, old(pos), true) + old(breaks)
      ensures continues == JumpHoles(s, old(pos), false) + old(continues)
      decreases s, 0
    {
      hide Shape, InHole, JumpHoles, AfterStmt, HasStmt;
      ghost var p0 := pos;
      ghost var q := AfterStmt(s.s1, p0);
      TwoParts(s, p0);
      StmtGrows(s.s1, p0);
      StmtGrows(s.s2, q);
      GenerateStmt(s.s1);
      ghost var c1 := code;
      GenerateStmt(s.s2);
      KeepStmt(c1, code, s.s1, p0);
      Concat(JumpHoles(s.s2, q, true), JumpHoles(s.s1, p0, true), old(breaks));
      Concat(JumpHoles(s.s2, q, false), JumpHoles(s.s1, p0, false), old(continues));
      TwoHas(code, s, p0);
    }

    method GenerateSimple(s: Stmt)
      requires IsSimple(s) && Valid() && Fits(AfterStmt(s, pos)) && currentForwardBranch <= 0x7fff
      modifies `code, `pushState, `pushStart, `pos, `currentForwardBranch
      ensures Valid() && pos == AfterStmt(s, old(pos)) && HasStmt(code, s, old(pos))
      ensures Agree(old(code), code, 0, old(pos.at)) && currentForwardBranch == old(currentForwardBranch)
    {
      hide Emitted, Flushed, Shape, HasExpr, AfterExpr;
      ghost var p0 := pos;
      match s
      case Empty =>
        assert Agree(code, code, 0, p0.at) by { Bounded(); }
      case Pop(e) =>
        ExprGrows(e, p0);
        GenerateExpr(e);
        ghost var c1 := code;
        Op1(F_POP_VALUE);
        KeepExpr(c1, code, e, p0);
      case AssignVoid(x, e) =>
        ExprGrows(e, p0);
        GenerateExpr(e);
        ghost var c1 := code;
        Op2(F_VOID_ASSIGN_LOCAL, x);
        KeepExpr(c1, code, e, p0);
      case Increment(x) => Op2(F_LOOP_INCR, x);
    }

    lemma {:induction false} Bounded()
      requires Valid()
      ensures pos.at <= |code| && (pos.pend == [] ==> pos.at == |code|)
    {}

    /** NODE_CONTROL_JUMP: a branch whose offset joins a branch list. */
    method GenerateControlJump(s: Stmt)
      requires (s.Break? || s.Continue?) && Valid()
      modifies `code, `pushState, `pos, `breaks, `continues
      ensures Valid() && pos == AfterStmt(s, old(pos)) && HasStmt(code, s, old(pos))
      ensures Agree(old(code), code, 0, old(pos.at))
      ensures breaks == JumpHoles(s, old(pos), true) + old(breaks)
      ensures continues == JumpHoles(s, old(pos), false) + old(continues)
    {
      hide Emitted, Flushed;
      ghost var p0 := pos;
      EndPushes();
      EmittedAppend(code, p0, [F_BRANCH]);
      InsByte(F_BRANCH);
      if s.Break? { breaks := [|code|] + breaks; } else { continues := [|code|] + continues; }
      ghost var c1 := code;
      InsShort(0);
      pos := Pos(|code|, []);
      KeepEmitted(c1, code, p0, [F_BRANCH]);
    }

    method GenerateIf(s: Stmt)
      requires s.If?
      requires Valid() && pos.pend == [] && WellFormed(s) && Fits(AfterStmt(s, pos)) && currentForwardBranch <= 0x7fff
      modifies this
      ensures Valid() && pos == AfterStmt(s, old(pos)) && pos.pend == [] && HasStmt(code, s, old(pos))
      ensures Agree(old(code), code, 0, old(pos.at)) && currentForwardBranch == old(currentForwardBranch)
      ensures breaks == JumpHoles(s, old(pos), true) + old(breaks)
      ensures continues == JumpHoles(s, old(pos), false) + old(continues)
      decreases s, 0
    {
      hide Emitted, Flushed, Shape, AfterCond, HasCond, AfterStmt, HasStmt, InHole, JumpHoles, Leads, Agree, AgreeExcept, Short;
      ghost var p0, fb, c0 := pos, currentForwardBranch, code;
      ghost var q := AfterCond(s.c, false, p0);
      ghost var q1 := AfterStmt(s.t, q);
      IfOrder(s, p0);
      CondGrows(s.c, false, p0);
      StmtGrows(s.t, q);
      StmtGrows(s.f, Branch(q1));
      GenerateIfBranch(s.c, false);
      ghost var c1 := code;
      GenerateStmt(s.t);
      ghost var c2 := code;
      KeepShort(c1, c2, q.at - 2, q.at);
      AgreeBounds(c1, c2, 0, q.at);
      if !s.f.Empty? {
        GenerateElsePart(c1, s, p0, fb);
      } else {
        UpdateForwardBranch();
        IfDone(c1, c2, code, s, p0);
      }
      AgreeThree(c0, c1, code, code, p0.at);
      IfJumps(s, p0, true, old(breaks));
      IfJumps(s, p0, false, old(continues));
    }

    /** The rest of an if, after its first part. */
    method GenerateElsePart(ghost c1: seq<Byte>, s: Stmt, ghost p: Pos, ghost fb: nat)
      requires s.If? && !s.f.Empty? && WellFormed(s) && p.pend == [] && Fits(AfterStmt(s, p)) && fb <= 0x7fff
      requires
        var q := AfterCond(s.c, false, p);
        && Valid() && pos == AfterStmt(s.t, q) && pos.pend == [] && 2 <= q.at <= pos.at
        && HasCond(c1, s.c, false, p) && HasStmt(code, s.t, q) && Agree(c1, code, 0, q.at)
        && currentForwardBranch == q.at - 2 && currentForwardBranch + 2 <= |code| && Short(code, q.at - 2) == fb
      modifies this
      ensures Valid() && pos == AfterStmt(s, p) && HasStmt(code, s, p) && Agree(c1, code, 0, p.at)
      ensures currentForwardBranch == fb
      ensures
        var q2 := Branch(AfterStmt(s.t, AfterCond(s.c, false, p)));
        && breaks == JumpHoles(s.f, q2, true) + old(breaks)
        && continues == JumpHoles(s.f, q2, false) + old(continues)
      decreases s.f, 4
    {
      hide Emitted, Flushed, Shape, AfterCond, HasCond, AfterStmt, HasStmt, InHole, JumpHoles, Leads, Agree, AgreeExcept, Short;
      ghost var q, q1, c2 := AfterCond(s.c, false, p), pos, code;
      IfOrder(s, p);
      StmtGrows(s.f, Branch(q1));
      GenerateElse();
      ghost var c3 := code;
      GenerateStmt(s.f);
      ghost var c4 := code;
      KeepShort(c3, c4, Hole(q1), Branch(q1).at);
      UpdateForwardBranch();
      IfElseDone(c1, c2, c3, c4, code, s, p);
    }

    // ---------- Loops ----------

    /** i_branch_backwards; the opcode of F_WHILE_DEC is already written. */
    method BranchBackwards(b: Byte, start: nat)
      requires Valid() && start <= Flush(pos).at && (b != 0 ==> Fits(Emit(pos, 2)))
      modifies `code, `pushState, `pos
      ensures Valid() && Agree(old(code), code, 0, old(pos.at)) && |code| == pos.at
      ensures b == 0 ==> pos == Flush(old(pos)) && Flushed(code, old(pos))
      ensures b == F_WHILE_DEC ==>
        pos == Emit(old(pos), 2) && Flushed(code, old(pos)) && LeadsBack(code, Flush(old(pos)).at, start)
      ensures b != 0 && b != F_WHILE_DEC ==> pos == Branch(old(pos)) && BackBranch(code, old(pos), b, start)
    {
      hide Flushed, Shape, Agree, Short, BackBranch, LeadsBack;
      ghost var p0, c0 := pos, code;
      EndPushes();
      NothingPending();
      if b != 0 {
        ghost var c1 := code;
        if b != F_WHILE_DEC { InsByte(b); }
        InsShort(|code| - start);
        pos := Pos(|code|, []);
        BackBranchDone(c0, c1, code, p0, b, start);
        PlainShape();
      }
    }

    /** generate_conditional_branch on an expression that is not a comparison with zero: generates
        the operands of the branch and chooses its opcode. */
    method GenerateConditionalBranch(e: Expr, start: nat)
      requires Valid() && start <= pos.at && Fits(AfterGeneral(e, pos)) && currentForwardBranch <= 0x7fff
      modifies `code, `pushState, `pushStart, `pos, `currentForwardBranch
      ensures Valid() && pos == AfterGeneral(e, old(pos)) && HasGeneral(code, e, old(pos), start)
      ensures Agree(old(code), code, 0, old(pos.at)) && currentForwardBranch == old(currentForwardBranch)
      ensures |code| == pos.at
    {
      hide Flushed, Shape, HasExpr, AfterExpr, BackBranch;
      ghost var p0 := pos;
      if IsNot(e) {
        ExprGrows(e.e, p0);
        GenerateExpr(e.e);
        ghost var c1 := code;
        BranchBackwards(F_BBRANCH_WHEN_ZERO, start);
        KeepExpr(c1, code, e.e, p0);
      } else if e.Number? {
        if e.n == 0 { BranchBackwards(0, start); } else { BranchBackwards(F_BBRANCH, start); }
      } else if IsLess(e) {
        ExprGrows(e.l, p0);
        ExprGrows(e.r, AfterExpr(e.l, p0));
        GenerateOperands(e);
        ghost var c1 := code;
        BranchBackwards(F_BBRANCH_LT, start);
        KeepOperands(c1, code, e, p0);
      } else {
        ExprGrows(e, p0);
        GenerateExpr(e);
        ghost var c1 := code;
        BranchBackwards(F_BBRANCH_WHEN_NON_ZERO, start);
        KeepExpr(c1, code, e, p0);
      }
    }

    /** A constant test taken for a loop opcode: the constant is pushed and an offset follows it. */
    method GenerateMistakenTest(t: Test, start: nat)
      requires Mistaken(t)
      requires Valid() && pos.pend == [] && start <= pos.at && Fits(AfterTest(t, pos))
      modifies `code, `pushState, `pushStart, `pos
      ensures Stray() && pos == AfterTest(t, old(pos)) && HasTest(code, t, old(pos), start)
      ensures Agree(old(code), code, 0, old(pos.at))
    {
      hide Emitted, Flushed, HasGeneral, AfterGeneral;
      ghost var p0, c0 := pos, code;
      WriteNumber(t.e.n);
      assert code == c0 + [F_BYTE, t.e.n] by { SinglePush(c0, t.e.n); }
      TestBytes(c0, p0, [F_BYTE, t.e.n], start);
      InsShort(|code| - start);
      pos := Pos(|code|, []);
    }

    lemma {:induction false} SinglePush(c0: seq<Byte>, n: Byte)
      requires 1 < n <= PUSH_MASK && Valid() && pos == Pos(|c0|, [PushNumber(n)]) && Agree(c0, code, 0, |c0|)
      ensures code == c0 + [F_BYTE, n]
    {
      assert code == code[..|c0|] + code[|c0|..];
    }

    /** The test of a loop and its way back to `start`. */
    method GenerateTest(t: Test, start: nat)
      requires Valid() && pos.pend == [] && start <= pos.at && Fits(AfterTest(t, pos)) && currentForwardBranch <= 0x7fff
      modifies `code, `pushState, `pushStart, `pos, `currentForwardBranch
      ensures (Valid() || Stray()) && pos == AfterTest(t, old(pos)) && pos.pend == [] && |code| == pos.at
      ensures HasTest(code, t, old(pos), start)
      ensures Agree(old(code), code, 0, old(pos.at)) && currentForwardBranch == old(currentForwardBranch)
    {
      hide Flushed, Shape, Emitted, HasTest, Agree;
      ghost var p0 := pos;
      if t.CondLocal? {
        GenerateLocalTest(t, start);
      } else if t.CondNumber? {
        GenerateNumberTest(t, start);
      } else if t.WhileDec? {
        GenerateDecrementTest(t, start);
      } else if Mistaken(t) {
        GenerateMistakenTest(t, start);
      } else {
        hide AfterGeneral, HasGeneral;
        GeneralEnds(Stripped(t.e), p0);
        GenerateConditionalBranch(Stripped(t.e), start);
        GeneralHas(code, t, p0, start);
      }
    }

    method GenerateLocalTest(t: Test, start: nat)
      requires t.CondLocal? && Valid() && pos.pend == [] && start <= pos.at && Fits(AfterTest(t, pos))
      modifies `code, `pushState, `pos
      ensures Valid() && pos == AfterTest(t, old(pos)) && |code| == pos.at && HasTest(code, t, old(pos), start)
      ensures Agree(old(code), code, 0, old(pos.at))
    {
      hide Emitted, Flushed, LeadsBack, Agree, ShortBytes, IntBytes, Short;
      ghost var p0, c0 := pos, code;
      EndPushes();
      InsByte(F_LOOP_COND_LOCAL);
      InsByte(t.x);
      InsByte(t.y);
      ThreeAppended(c0, F_LOOP_COND_LOCAL, t.x, [t.y]);
      assert [F_LOOP_COND_LOCAL, t.x] + [t.y] == [F_LOOP_COND_LOCAL, t.x, t.y];
      TestBytes(c0, p0, [F_LOOP_COND_LOCAL, t.x, t.y], start);
      InsShort(|code| - start);
      pos := Pos(|code|, []);
    }

    method GenerateNumberTest(t: Test, start: nat)
      requires t.CondNumber? && Valid() && pos.pend == [] && start <= pos.at && Fits(AfterTest(t, pos))
      modifies `code, `pushState, `pos
      ensures Valid() && pos == AfterTest(t, old(pos)) && |code| == pos.at && HasTest(code, t, old(pos), start)
      ensures Agree(old(code), code, 0, old(pos.at))
    {
      hide Emitted, Flushed, LeadsBack, IntBytes, ShortBytes, Agree;
      ghost var p0, c0 := pos, code;
      EndPushes();
      InsByte(F_LOOP_COND_NUMBER);
      InsByte(t.x);
      InsInt(t.n);
      ThreeAppended(c0, F_LOOP_COND_NUMBER, t.x, IntBytes(t.n));
      TestBytes(c0, p0, [F_LOOP_COND_NUMBER, t.x] + IntBytes(t.n), start);
      InsShort(|code| - start);
      pos := Pos(|code|, []);
    }

    method GenerateDecrementTest(t: Test, start: nat)
      requires t.WhileDec? && Valid() && pos.pend == [] && start <= pos.at && Fits(AfterTest(t, pos))
      modifies `code, `pushState, `pos
      ensures Valid() && pos == AfterTest(t, old(pos)) && |code| == pos.at && HasTest(code, t, old(pos), start)
      ensures Agree(old(code), code, 0, old(pos.at))
    {
      hide Flushed, LeadsBack, Emitted, Shape, Agree, HasTest;
      ghost var p0, c0 := pos, code;
      Op2(F_WHILE_DEC, t.x);
      ghost var c1 := code;
      BranchBackwards(F_WHILE_DEC, start);
      DecrementDone(c0, c1, code, t, p0, start);
    }

    // ---------- Loops, continued ----------

    /** i_generate_loop: the list of open branches is saved around the loop. */
    method GenerateLoop(s: Stmt)
      requires s.Loop?
      requires Valid() && pos.pend == [] && WellFormed(s) && Fits(AfterStmt(s, pos)) && currentForwardBranch <= 0x7fff
      modifies this
      ensures Valid() && pos == AfterStmt(s, old(pos)) && pos.pend == [] && HasStmt(code, s, old(pos))
      ensures Agree(old(code), code, 0, old(pos.at)) && currentForwardBranch == old(currentForwardBranch)
      ensures breaks == old(breaks) && continues == old(continues)
      decreases s, 2
    {
      ghost var p0, c0 := pos, code;
      hide Shape, HasStmt, AfterStmt, JumpHoles, InHole, Emitted, Flushed, Leads, HasTest, AfterTest, LoopStart,
        ContinuePos, TestPos, AllLead, PatchAll, HasLoop, Short, Agree, AgreeExcept;
      var saveBreaks, saveContinues := breaks, continues;
      breaks, continues := [], [];
      EndPushes();
      var start, c1, c4 := GenerateRound(s);
      ghost var c := code;
      LoopGrows(s, p0);
      LoopEnds(s, p0);
      GenerateTest(s.test, start);
      ghost var c5 := code;
      LoopHead(c0, c1, c4, c, c5, s, p0);
      PatchableJumps(s, p0);
      UpdateBranchList(breaks);
      LoopDone(c4, c5, code, s, p0);
      AgreeThree(c0, c5, code, code, p0.at);
      breaks, continues := saveBreaks, saveContinues;
      LoopIsStmt(code, s, p0);
    }

    /** A loop up to its test.  c1: after the jump to the test; c4: before that jump is closed. */
    method GenerateRound(s: Stmt) returns (start: nat, ghost c1: seq<Byte>, ghost c4: seq<Byte>)
      requires s.Loop?
      requires Valid() && pos.pend == [] && WellFormed(s) && Fits(AfterStmt(s, pos)) && currentForwardBranch <= 0x7fff
      requires breaks == continues == [] && |code| == pos.at
      modifies this
      ensures Valid() && pos == TestPos(s, old(pos)) && start == LoopStart(s, old(pos)).at
      ensures breaks == JumpHoles(s.block, LoopStart(s, old(pos)), true)
      ensures currentForwardBranch == old(currentForwardBranch)
      ensures BodyDone(c4, s, old(pos)) && Agree(c1, c4, 0, start) && pos.at == |c4| == |code|
      ensures Headed(old(code), c1, c4, code, s, old(pos))
      decreases s, 1
    {
      ghost var p0, c0 := pos, code;
      LoopGrows(s, p0);
      LoopEnds(s, p0);
      LoopStarts(s, p0);
      hide Shape, HasStmt, AfterStmt, JumpHoles, InHole, Emitted, Flushed, Leads, HasTest, AfterTest, LoopStart,
        ContinuePos, TestPos, AllLead, PatchAll, HasLoop, Short, Agree, AgreeExcept, BodyDone;
      if Skips(s) { GenerateForwardBranch(F_BRANCH); } else { AgreeSelf(code, p0.at); }
      start := |code|;
      c1 := code;
      GenerateBody(s, p0);
      c4 := code;
      if Skips(s) {
        KeepShort(c1, c4, Hole(p0), start);
        UpdateForwardBranch();
      }
    }

    /** The block and the increment of a loop; `continue` goes between them. */
    method GenerateBody(s: Stmt, ghost p: Pos)
      requires s.Loop? && WellFormed(s) && p.pend == [] && Fits(AfterStmt(s, p)) && currentForwardBranch <= 0x7fff
      requires Valid() && pos == LoopStart(s, p) && |code| == pos.at && breaks == continues == []
      modifies this
      ensures Valid() && pos == TestPos(s, p) && |code| == pos.at && breaks == JumpHoles(s.block, LoopStart(s, p), true)
      ensures BodyDone(code, s, p) && Agree(old(code), code, 0, LoopStart(s, p).at)
      ensures currentForwardBranch == old(currentForwardBranch)
      decreases s, 0
    {
      ghost var start, next := LoopStart(s, p), ContinuePos(s, p);
      LoopGrows(s, p);
      LoopEnds(s, p);
      hide Shape, HasStmt, AfterStmt, JumpHoles, InHole, LoopStart, ContinuePos, TestPos, AllLead, PatchAll, Agree,
        Patchable, WellFormed, AfterTest;
      GenerateStmt(s.block);
      ghost var c2 := code;
      BlockJumps(c2, s, p);
      UpdateBranchList(continues);
      ghost var c3 := code;
      NoJumps(s.inc, next);
      GenerateStmt(s.inc);
      Concat([], [], JumpHoles(s.block, start, true));
      LoopBodyDone(c2, c3, code, s, p);
    }
  }

  // ---------- Whole functions ----------

  /** Generates the code of a function body.  Whatever the locals are, the machine running that code
      stops exactly when the body ends, with the body's locals and an empty stack, unless some loop
      test is a constant that is mistaken for an opcode. */
  method GenerateFunction(s: Stmt) returns (code: seq<Byte>)
    requires WellFormed(s) && Closed(s) && Fits(AfterStmt(s, ORIGIN))
    ensures Translates(code, s)
    ensures HonestTests(s) ==> forall fr: Frame, h: State ::
      Stops(code, Start(fr), h) <==> h == State(|code|, [], h.locals) && Ends(s, fr, h.locals)
  {
    hide *;
    StmtGrows(s, ORIGIN);
    code := GenerateWhole(s, ORIGIN);
    TranslatesWhole(code, s, ORIGIN);
    if HonestTests(s) {
      forall fr: Frame, h: State
        ensures Stops(code, Start(fr), h) <==> h == State(|code|, [], h.locals) && Ends(s, fr, h.locals)
      {
        CodeIsFaithful(code, s, fr, h);
      }
    }
  }

  lemma {:induction false} TranslatesWhole(code: seq<Byte>, s: Stmt, p: Pos)
    requires p == ORIGIN && HasStmt(code, s, p) && |code| == AfterStmt(s, p).at
    ensures Translates(code, s)
  {
    hide HasStmt, AfterStmt;
  }

  method GenerateWhole(s: Stmt, ghost p: Pos) returns (code: seq<Byte>)
    requires WellFormed(s) && p == ORIGIN && Fits(AfterStmt(s, p))
    ensures HasStmt(code, s, p) && |code| == AfterStmt(s, p).at
  {
    hide HasStmt, AfterStmt, WellFormed, Flushed, JumpHoles, Agree, Encoding, Short, ShortBytes;
    StmtGrows(s, p);
    var g := new Generator();
    g.GenerateStmt(s);
    g.EndPushes();
    code := g.code;
  }
}
