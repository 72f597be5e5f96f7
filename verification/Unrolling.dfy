/** Bounded unrolling of a transition relation in three encodings: substituted, asserted and
    unconnected. What they unroll, and what an assignment has to do to satisfy them. */
module Unrolling {
  import opened Ast
  import opened Ila
  import opened Frames

  // ---------- what is unrolled ----------

  /** The instructions of a path, one per step, or those of a whole ILA with the name of its top level,
      any one per step. */
  datatype Target = Path(insts: seq<Instr>) | Mono(insts: seq<Instr>, top: string)

  /** An unrolling problem: target, state variables and the predicates of the user. */
  datatype Problem = Problem(target: Target, vars: seq<string>, glob: seq<Expr>, init: seq<Expr>,
                             step: map<int, seq<Expr>>)

  /** The first position of a variable, or the number of variables. */
  function Position(vars: seq<string>, x: string): (v: nat)
    ensures v <= |vars|
    ensures v < |vars| ==> vars[v] == x
    ensures v == |vars| ==> x !in vars
    ensures forall j :: 0 <= j < v ==> vars[j] != x
  {
    if vars == [] || vars[0] == x then 0 else 1 + Position(vars[1..], x)
  }

  /** No variable is listed twice. */
  ghost predicate Distinct(vars: seq<string>) {
    forall v {:trigger Position(vars, vars[v])} :: 0 <= v < |vars| ==> Position(vars, vars[v]) == v
  }

  function Sel(i: Instr): string { i.name + ".sel" }

  /** The dummy selector, a variable of the top level: its solver name starts with the name of the ILA. */
  function DeadSel(top: string): string { top + ".dead.sel" }

  function Top(t: Target): string {
    if t.Mono? then t.top else ""
  }

  function Nxt(x: string): string { x + ".vnxt" }

  function Completed(instr: Instr, vars: seq<string>): (r: seq<Expr>)
    ensures |r| == |vars|
  {
    seq(|vars|, v requires 0 <= v < |vars| => StateUpdCmpl(instr, vars[v]))
  }

  function NextVars(vars: seq<string>): (r: seq<Expr>)
    ensures |r| == |vars|
  {
    seq(|vars|, v requires 0 <= v < |vars| => Var(Nxt(vars[v])))
  }

  /** k_next_ of step idx: the completed updates of a path step, or fresh next-state variables. */
  function NextOf(t: Target, vars: seq<string>, idx: nat): (r: seq<Expr>)
    requires t.Path? ==> idx < |t.insts|
    ensures |r| == |vars|
  {
    match t
    case Path(insts) => Completed(insts[idx], vars)
    case Mono(_, _) => NextVars(vars)
  }

  // ---------- the step predicates of MonoUnroll ----------

  /** No instruction among the first n decodes. */
  function NotDec(insts: seq<Instr>, n: nat): Expr
    requires n <= |insts|
  {
    if n == 0 then BoolConst(true) else And(NotDec(insts, n - 1), Not(insts[n - 1].decode))
  }

  function AccDec(insts: seq<Instr>, n: nat): Expr
    requires n <= |insts|
  {
    if n == 0 then BoolConst(true)
    else And(AccDec(insts, n - 1), Imply(Var(Sel(insts[n - 1])), insts[n - 1].decode))
  }

  function AccUpd(insts: seq<Instr>, x: string, n: nat): Expr
    requires n <= |insts|
  {
    if n == 0 then BoolConst(true)
    else And(AccUpd(insts, x, n - 1),
             Imply(Var(Sel(insts[n - 1])), Eq(Var(Nxt(x)), StateUpdCmpl(insts[n - 1], x))))
  }

  function AtLeastOne(insts: seq<Instr>, top: string, n: nat): Expr
    requires n <= |insts|
  {
    if n == 0 then Var(DeadSel(top)) else Or(AtLeastOne(insts, top, n - 1), Var(Sel(insts[n - 1])))
  }

  /** Row i of the pairwise clauses: not both sel_i and sel_j, for i < j < n. */
  function NotBoth(insts: seq<Instr>, acc: Expr, i: nat, n: nat): Expr
    requires i < |insts| && i < n <= |insts|
  {
    if n == i + 1 then acc
    else And(NotBoth(insts, acc, i, n - 1), Or(Not(Var(Sel(insts[i]))), Not(Var(Sel(insts[n - 1])))))
  }

  function AtMostOne(insts: seq<Instr>, n: nat): Expr
    requires n <= |insts|
  {
    if n == 0 then BoolConst(true) else NotBoth(insts, AtMostOne(insts, n - 1), n - 1, |insts|)
  }

  function DecodePred(insts: seq<Instr>, top: string): Expr {
    And(AccDec(insts, |insts|), Imply(Var(DeadSel(top)), NotDec(insts, |insts|)))
  }

  function UpdatePred(insts: seq<Instr>, top: string, x: string): Expr {
    And(AccUpd(insts, x, |insts|), Imply(Var(DeadSel(top)), Eq(Var(Nxt(x)), Var(x))))
  }

  function VarPreds(insts: seq<Instr>, top: string, vars: seq<string>, n: nat): seq<Expr>
    requires n <= |vars|
  {
    if n == 0 then []
    else VarPreds(insts, top, vars, n - 1) + [DecodePred(insts, top), UpdatePred(insts, top, vars[n - 1])]
  }

  function MonoPreds(insts: seq<Instr>, top: string, vars: seq<string>): seq<Expr> {
    VarPreds(insts, top, vars, |vars|) + [AtLeastOne(insts, top, |insts|), AtMostOne(insts, |insts|)]
  }

  function PredOf(t: Target, vars: seq<string>, idx: nat): seq<Expr>
    requires t.Path? ==> idx < |t.insts|
  {
    match t
    case Path(insts) => [insts[idx].decode]
    case Mono(insts, top) => MonoPreds(insts, top, vars)
  }

  // ---------- what a model of the unrolling is ----------

  ghost predicate AllTrue(I: Interp, es: seq<Expr>, env: Env) {
    forall i {:trigger es[i]} :: 0 <= i < |es| ==> Truth(Eval(I, es[i], env))
  }

  function StepExprs(step: map<int, seq<Expr>>, k: int): seq<Expr> {
    if k in step then step[k] else []
  }

  ghost predicate Long(P: Problem, len: nat) {
    P.target.Path? ==> len <= |P.target.insts|
  }

  /** The predicates asserted on step i. */
  ghost predicate StepPreds(I: Interp, P: Problem, env: Env, i: nat)
    requires Long(P, i + 1)
  {
    && (i == 0 ==> AllTrue(I, P.init, env))
    && AllTrue(I, P.glob, env)
    && AllTrue(I, PredOf(P.target, P.vars, i), env)
    && AllTrue(I, StepExprs(P.step, i), env)
  }

  ghost predicate EndPreds(I: Interp, P: Problem, env: Env, len: nat) {
    AllTrue(I, P.glob, env) && AllTrue(I, StepExprs(P.step, len), env)
  }

  /** The frames `cur` and `nxt` are related by the transition of step i. */
  ghost predicate Moves(I: Interp, P: Problem, cur: Env, nxt: Env, i: nat)
    requires Long(P, i + 1)
  {
    forall v {:trigger P.vars[v]} :: 0 <= v < |P.vars| ==>
      nxt(P.vars[v]) == Eval(I, NextOf(P.target, P.vars, i)[v], cur)
  }

  // ---------- UnrollAssn ----------

  ghost predicate AssnStep(I: Interp, P: Problem, A: Assignment, tag: string, pos: int, i: nat)
    requires Long(P, i + 1)
  {
    && StepPreds(I, P, Frame(A, Curr(pos + i, tag)), i)
    && Moves(I, P, Frame(A, Curr(pos + i, tag)), Frame(A, Curr(pos + i + 1, tag)), i)
  }

  ghost predicate AssnSteps(I: Interp, P: Problem, A: Assignment, tag: string, pos: int, n: nat)
    requires Long(P, n)
  {
    forall i: nat :: i < n ==> AssnStep(I, P, A, tag, pos, i)
  }

  /** States are frame variables; consecutive frames are equated. */
  ghost predicate AssnModel(I: Interp, P: Problem, A: Assignment, tag: string, len: nat, pos: int)
    requires Long(P, len)
  {
    AssnSteps(I, P, A, tag, pos, len) && EndPreds(I, P, Frame(A, Curr(len, tag)), len)
  }

  // ---------- UnrollNone ----------

  ghost predicate NoneStep(I: Interp, P: Problem, A: Assignment, tag: string, pos: int, i: nat)
    requires Long(P, i + 1)
  {
    && StepPreds(I, P, Frame(A, Curr(pos + i, tag)), i)
    && Moves(I, P, Frame(A, Curr(pos + i, tag)), Frame(A, Next(pos + i, tag)), i)
  }

  /** Each step leads from its current to its own next-state frame; nothing links the steps. */
  ghost predicate NoneModel(I: Interp, P: Problem, A: Assignment, tag: string, len: nat, pos: int)
    requires Long(P, len)
  {
    forall i: nat :: i < len ==> NoneStep(I, P, A, tag, pos, i)
  }

  // ---------- UnrollSubs ----------

  /** The frame of step i when states are computed from the first frame and everything else is
      taken from the assignment. */
  ghost function SubsFrame(I: Interp, P: Problem, A: Assignment, tag: string, pos: int, i: nat): Env
    requires Long(P, i)
  {
    if i == 0 then Frame(A, Curr(pos, tag))
    else Advance(I, P, SubsFrame(I, P, A, tag, pos, i - 1), Frame(A, Curr(pos + i, tag)), i - 1)
  }

  /** The states after step i, computed from those before it; everything else as in `other`. */
  ghost function Advance(I: Interp, P: Problem, prev: Env, other: Env, i: nat): Env
    requires Long(P, i + 1)
  {
    x => var v := Position(P.vars, x);
         if v < |P.vars| then Eval(I, NextOf(P.target, P.vars, i)[v], prev) else other(x)
  }

  ghost predicate SubsSteps(I: Interp, P: Problem, A: Assignment, tag: string, pos: int, n: nat)
    requires Long(P, n)
  {
    forall i: nat :: i < n ==> StepPreds(I, P, SubsFrame(I, P, A, tag, pos, i), i)
  }

  /** On states, two environments agree. */
  ghost predicate SameStates(vars: seq<string>, a: Env, b: Env) {
    forall v {:trigger vars[v]} :: 0 <= v < |vars| ==> a(vars[v]) == b(vars[v])
  }

  /** States are expressions over the first frame; only the last values are equated to a frame. */
  ghost predicate SubsModel(I: Interp, P: Problem, A: Assignment, tag: string, len: nat, pos: int)
    requires Long(P, len)
  {
    && SubsSteps(I, P, A, tag, pos, len)
    && SameStates(P.vars, SubsFrame(I, P, A, tag, pos, len), Frame(A, Curr(len, tag)))
    && EndPreds(I, P, Frame(A, Curr(len, tag)), len)
  }
}
