/** The fragment of the solver's expression language that the tuner builds:
    real-valued terms over perturbation variables and boolean formulas over
    comparisons of such terms, with their meaning under an assignment of
    reals to the variables. */
module Formulas {

  datatype Term =
    | Num(r: real)
    | Var(name: string)
    | Neg(t: Term)
    | Add(a: Term, b: Term)
    | Ite(cond: Formula, yes: Term, no: Term)

  datatype Formula =
    | Const(b: bool)
    | Gt(l: Term, r: Term)
    | Lt(l: Term, r: Term)
    | Ge(l: Term, r: Term)
    | And(p: Formula, q: Formula)
    | Or(p: Formula, q: Formula)
    | Not(p: Formula)

  /** The variables a term mentions. */
  function TermVars(t: Term): set<string>
  {
    match t
    case Num(_) => {}
    case Var(x) => {x}
    case Neg(u) => TermVars(u)
    case Add(a, b) => TermVars(a) + TermVars(b)
    case Ite(c, y, n) => FormulaVars(c) + TermVars(y) + TermVars(n)
  }

  /** The variables a formula mentions. */
  function FormulaVars(f: Formula): set<string>
  {
    match f
    case Const(_) => {}
    case Gt(l, r) => TermVars(l) + TermVars(r)
    case Lt(l, r) => TermVars(l) + TermVars(r)
    case Ge(l, r) => TermVars(l) + TermVars(r)
    case And(p, q) => FormulaVars(p) + FormulaVars(q)
    case Or(p, q) => FormulaVars(p) + FormulaVars(q)
    case Not(p) => FormulaVars(p)
  }

  /** Value of a term when every variable it mentions is assigned. */
  function EvalTerm(t: Term, eps: map<string, real>): real
    requires TermVars(t) <= eps.Keys
  {
    match t
    case Num(r) => r
    case Var(x) => eps[x]
    case Neg(u) => -EvalTerm(u, eps)
    case Add(a, b) => EvalTerm(a, eps) + EvalTerm(b, eps)
    case Ite(c, y, n) => if Eval(c, eps) then EvalTerm(y, eps) else EvalTerm(n, eps)
  }

  /** Truth of a formula when every variable it mentions is assigned. */
  function Eval(f: Formula, eps: map<string, real>): bool
    requires FormulaVars(f) <= eps.Keys
  {
    match f
    case Const(b) => b
    case Gt(l, r) => EvalTerm(l, eps) > EvalTerm(r, eps)
    case Lt(l, r) => EvalTerm(l, eps) < EvalTerm(r, eps)
    case Ge(l, r) => EvalTerm(l, eps) >= EvalTerm(r, eps)
    case And(p, q) => Eval(p, eps) && Eval(q, eps)
    case Or(p, q) => Eval(p, eps) || Eval(q, eps)
    case Not(p) => !Eval(p, eps)
  }

  /** The absolute-perturbation term `ite(e >= 0, e, -e)` built for a parameter. */
  function AbsTerm(name: string): (t: Term)
    ensures TermVars(t) == {name}
  {
    assert FormulaVars(Ge(Var(name), Num(0.0))) == {name};
    Ite(Ge(Var(name), Num(0.0)), Var(name), Neg(Var(name)))
  }

  /** The absolute term denotes |e|: never negative, and zero exactly when e is. */
  lemma AbsTermIsMagnitude(name: string, eps: map<string, real>)
    requires name in eps
    ensures EvalTerm(AbsTerm(name), eps) >= 0.0
    ensures EvalTerm(AbsTerm(name), eps) == 0.0 <==> eps[name] == 0.0
    ensures EvalTerm(AbsTerm(name), eps) == eps[name] || EvalTerm(AbsTerm(name), eps) == -eps[name]
  {
    var e := eps[name];
    assert Eval(Ge(Var(name), Num(0.0)), eps) == (e >= 0.0);
    assert EvalTerm(AbsTerm(name), eps) == if e >= 0.0 then e else -e;
  }

  /** Conversion of a real to an int by truncation toward zero, as a C++
      `static_cast<int>` of a float does (range overflow is not modelled). */
  function Trunc(x: real): (n: int)
    ensures -1.0 < x - n as real < 1.0
    ensures 0.0 <= x ==> 0 <= n && n as real <= x
    ensures x <= 0.0 ==> n <= 0 && x <= n as real
  {
    if x >= 0.0 then x.Floor else -((-x).Floor)
  }
}
