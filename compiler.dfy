/** The clause/block/event compiler: each clause of a labelled transition
    becomes a comparison against a perturbed threshold, and clauses and blocks
    are combined by a strict left fold driven by their AND/OR flags. */
module Compiler {
  import opened Formulas
  import opened StringOrder

  /** A clause `lhs <comparator> rhs`; `isAnd` says how it joins the clauses before it. */
  datatype Clause = Clause(lhs: real, rhs: string, comparator: string, isAnd: bool)

  /** A block of clauses; `isAnd` says how it joins the blocks before it. */
  datatype Block = Block(clauses: seq<Clause>, isAnd: bool)

  /** One labelled transition event. */
  datatype Transition = Transition(blocks: seq<Block>, humanConstraint: bool, shouldTransition: bool)

  /** The one failure of the compiler: a lookup with `at` of a name that has
      no entry (`std::out_of_range`). */
  datatype Error = UnknownParameter(name: string)

  datatype Result<T> = Ok(value: T) | Err(error: Error)

  predicate Supported(c: Clause)
  {
    c.comparator == ">" || c.comparator == "<"
  }

  /** A clause whose compilation looks its parameter up and does not find it. */
  predicate Unresolved(c: Clause, tuning: map<string, Term>)
  {
    Supported(c) && c.rhs !in tuning
  }

  /** `base_parameters[rhs]`: `operator[]` yields 0 for a missing name. */
  function BaseOf(base: map<string, real>, k: string): real
  {
    if k in base then base[k] else 0.0
  }

  /** The epsilon map holds, for each name, that name's own variable. */
  ghost predicate VarTuning(tuning: map<string, Term>)
  {
    forall k :: k in tuning ==> tuning[k] == Var(k)
  }

  /** One clause as a formula. An unsupported comparator leaves the `true`
      placeholder; a supported one with no epsilon fails like `tuning.at`. */
  function CompileClause(c: Clause, base: map<string, real>, tuning: map<string, Term>): (r: Result<Formula>)
    ensures r.Err? <==> Unresolved(c, tuning)
    ensures r.Err? ==> r.error == UnknownParameter(c.rhs)
  {
    if c.comparator == ">" then
      if c.rhs in tuning
      then Ok(Gt(Num(Trunc(c.lhs) as real), Add(Num(Trunc(BaseOf(base, c.rhs)) as real), tuning[c.rhs])))
      else Err(UnknownParameter(c.rhs))
    else if c.comparator == "<" then
      if c.rhs in tuning
      then Ok(Lt(Num(Trunc(c.lhs) as real), Add(Num(Trunc(BaseOf(base, c.rhs)) as real), tuning[c.rhs])))
      else Err(UnknownParameter(c.rhs))
    else Ok(Const(true))
  }

  /** What a clause means under an assignment of the epsilons: the truncated
      literal compared with the truncated baseline plus the perturbation. */
  function ClauseHolds(c: Clause, base: map<string, real>, eps: map<string, real>): bool
    requires Supported(c) ==> c.rhs in eps
  {
    var lhs := Trunc(c.lhs) as real;
    var threshold := Trunc(BaseOf(base, c.rhs)) as real;
    if c.comparator == ">" then lhs > threshold + eps[c.rhs]
    else if c.comparator == "<" then lhs < threshold + eps[c.rhs]
    else true
  }

  lemma ClauseMeaning(c: Clause, base: map<string, real>, tuning: map<string, Term>, eps: map<string, real>)
    requires VarTuning(tuning) && tuning.Keys <= eps.Keys
    requires !Unresolved(c, tuning)
    ensures CompileClause(c, base, tuning).Ok?
    ensures FormulaVars(CompileClause(c, base, tuning).value) <= eps.Keys
    ensures Eval(CompileClause(c, base, tuning).value, eps) == ClauseHolds(c, base, eps)
  {
    if Supported(c) {
      var lhs := Num(Trunc(c.lhs) as real);
      var rhs := Add(Num(Trunc(BaseOf(base, c.rhs)) as real), Var(c.rhs));
      assert EvalTerm(rhs, eps) == Trunc(BaseOf(base, c.rhs)) as real + eps[c.rhs];
      assert EvalTerm(lhs, eps) == Trunc(c.lhs) as real;
    }
  }

  /** With baseline 5 and no perturbation, `lhs > p` is false at 5 and true at 6;
      truncation makes it false at 5.5 as well. */
  lemma GreaterThanBoundary()
    ensures var base, tuning, eps := map["p" := 5.0], map["p" := Var("p")], map["p" := 0.0];
      && !Eval(CompileClause(Clause(5.0, "p", ">", true), base, tuning).value, eps)
      && !Eval(CompileClause(Clause(5.5, "p", ">", true), base, tuning).value, eps)
      && Eval(CompileClause(Clause(6.0, "p", ">", true), base, tuning).value, eps)
  {
    assert Trunc(5.5) == 5;
  }

  /** A clause whose parameter has no epsilon makes compilation fail. */
  lemma MissingEpsilonFails(c: Clause, base: map<string, real>)
    requires Supported(c)
    ensures CompileClause(c, base, map[]) == Err(UnknownParameter(c.rhs))
  {
  }

  /** One operand of a fold: its formula (or failure) and its AND/OR flag. */
  datatype Part = Part(f: Result<Formula>, isAnd: bool)

  function Combine(acc: Formula, f: Formula, isAnd: bool): Formula
  {
    if isAnd then And(acc, f) else Or(acc, f)
  }

  /** The left fold of a block over its clauses (or of an event over its
      blocks): the first operand seeds the accumulator, each later one joins it
      by its own flag, and an empty fold leaves the `true` placeholder. The
      first failure in order is the result. */
  function Fold(ps: seq<Part>): Result<Formula>
  {
    if |ps| == 0 then Ok(Const(true))
    else if |ps| == 1 then ps[0].f
    else
      var last := ps[|ps| - 1];
      match Fold(ps[..|ps| - 1])
      case Err(e) => Err(e)
      case Ok(acc) =>
        match last.f
        case Err(e) => Err(e)
        case Ok(f) => Ok(Combine(acc, f, last.isAnd))
  }

  /** A fold fails exactly when one of its operands does, and then as the first one does. */
  lemma {:induction false} FoldFailure(ps: seq<Part>)
    ensures Fold(ps).Err? <==> exists i :: 0 <= i < |ps| && ps[i].f.Err?
    ensures Fold(ps).Err? ==> exists i :: 0 <= i < |ps| && ps[i].f == Fold(ps) && forall j :: 0 <= j < i ==> ps[j].f.Ok?
    decreases |ps|
  {
    if |ps| > 1 {
      var init := ps[..|ps| - 1];
      FoldFailure(init);
      assert forall i :: 0 <= i < |init| ==> init[i] == ps[i];
    }
  }

  /** One more operand: the first seeds the fold, a later one joins it by its flag. */
  lemma FoldStep(ps: seq<Part>, j: nat, acc: Formula, f: Formula)
    requires j < |ps| && Fold(ps[..j]) == Ok(acc) && ps[j].f == Ok(f)
    ensures Fold(ps[..j + 1]) == Ok(if j == 0 then f else Combine(acc, f, ps[j].isAnd))
  {
    assert ps[..j + 1][..j] == ps[..j];
  }

  /** The first failing operand decides the whole fold. */
  lemma FoldStopsAt(ps: seq<Part>, j: nat)
    requires j < |ps| && Fold(ps[..j]).Ok? && ps[j].f.Err?
    ensures Fold(ps) == ps[j].f
  {
    assert ps[..j + 1][..j] == ps[..j];
    FoldPrefixFailure(ps, j + 1);
  }

  /** The meaning of a left fold over truth values. */
  function BoolFold(vs: seq<bool>, ands: seq<bool>): bool
    requires |vs| == |ands|
  {
    if |vs| == 0 then true
    else if |vs| == 1 then vs[0]
    else
      var acc := BoolFold(vs[..|vs| - 1], ands[..|ands| - 1]);
      if ands[|ands| - 1] then acc && vs[|vs| - 1] else acc || vs[|vs| - 1]
  }

  function Flags(ps: seq<Part>): (r: seq<bool>)
    ensures |r| == |ps| && forall i :: 0 <= i < |ps| ==> r[i] == ps[i].isAnd
  {
    seq(|ps|, i requires 0 <= i < |ps| => ps[i].isAnd)
  }

  /** A fold of formulas whose variables lie in `vs` has its variables in `vs`. */
  lemma {:induction false} FoldVars(ps: seq<Part>, vs: set<string>)
    requires forall i :: 0 <= i < |ps| ==> ps[i].f.Ok? && FormulaVars(ps[i].f.value) <= vs
    ensures Fold(ps).Ok? && FormulaVars(Fold(ps).value) <= vs
    decreases |ps|
  {
    if |ps| > 1 {
      FoldVars(ps[..|ps| - 1], vs);
    }
  }

  /** Evaluating the folded formula is folding the operands' truth values. */
  lemma {:induction false} FoldMeaning(ps: seq<Part>, eps: map<string, real>, vs: seq<bool>)
    requires |vs| == |ps|
    requires forall i :: 0 <= i < |ps| ==> ps[i].f.Ok? && FormulaVars(ps[i].f.value) <= eps.Keys
    requires forall i :: 0 <= i < |ps| ==> Eval(ps[i].f.value, eps) == vs[i]
    ensures Fold(ps).Ok? && FormulaVars(Fold(ps).value) <= eps.Keys
    ensures Eval(Fold(ps).value, eps) == BoolFold(vs, Flags(ps))
    decreases |ps|
  {
    FoldVars(ps, eps.Keys);
    if |ps| > 1 {
      var init := ps[..|ps| - 1];
      FoldMeaning(init, eps, vs[..|vs| - 1]);
      assert Flags(ps)[..|ps| - 1] == Flags(init);
    }
  }

  /** Once a prefix of the operands fails, the whole fold fails the same way. */
  lemma {:induction false} FoldPrefixFailure(ps: seq<Part>, n: nat)
    requires n <= |ps| && Fold(ps[..n]).Err?
    ensures Fold(ps) == Fold(ps[..n])
    decreases |ps| - n
  {
    if n < |ps| {
      var init := ps[..|ps| - 1];
      assert init[..n] == ps[..n];
      FoldPrefixFailure(init, n);
    } else {
      assert ps[..n] == ps;
    }
  }

  /** The flag of the first operand plays no part. */
  lemma {:induction false} FoldIgnoresFirstFlag(ps: seq<Part>, b: bool)
    requires |ps| > 0
    ensures Fold(ps[0 := ps[0].(isAnd := b)]) == Fold(ps)
    decreases |ps|
  {
    var qs := ps[0 := ps[0].(isAnd := b)];
    if |ps| > 1 {
      FoldIgnoresFirstFlag(ps[..|ps| - 1], b);
      assert qs[..|qs| - 1] == ps[..|ps| - 1][0 := ps[0].(isAnd := b)];
    }
  }

  function ClauseParts(cs: seq<Clause>, base: map<string, real>, tuning: map<string, Term>): (ps: seq<Part>)
    ensures |ps| == |cs|
    ensures forall i :: 0 <= i < |cs| ==> ps[i] == Part(CompileClause(cs[i], base, tuning), cs[i].isAnd)
  {
    seq(|cs|, i requires 0 <= i < |cs| => Part(CompileClause(cs[i], base, tuning), cs[i].isAnd))
  }

  /** A block's formula: the left fold of its clauses. */
  function BlockFormula(cs: seq<Clause>, base: map<string, real>, tuning: map<string, Term>): Result<Formula>
  {
    Fold(ClauseParts(cs, base, tuning))
  }

  function BlockParts(bs: seq<Block>, base: map<string, real>, tuning: map<string, Term>): (ps: seq<Part>)
    ensures |ps| == |bs|
    ensures forall i :: 0 <= i < |bs| ==> ps[i] == Part(BlockFormula(bs[i].clauses, base, tuning), bs[i].isAnd)
  {
    seq(|bs|, i requires 0 <= i < |bs| => Part(BlockFormula(bs[i].clauses, base, tuning), bs[i].isAnd))
  }

  /** An event's formula: the left fold of its blocks' formulas. */
  function EventFormula(t: Transition, base: map<string, real>, tuning: map<string, Term>): Result<Formula>
  {
    Fold(BlockParts(t.blocks, base, tuning))
  }

  /** A block compiles exactly when none of its clauses is unresolved, and
      then fails on the first unresolved one. */
  lemma BlockFailure(cs: seq<Clause>, base: map<string, real>, tuning: map<string, Term>)
    ensures BlockFormula(cs, base, tuning).Err? <==> exists i :: 0 <= i < |cs| && Unresolved(cs[i], tuning)
    ensures BlockFormula(cs, base, tuning).Err? ==>
      exists i :: 0 <= i < |cs| && Unresolved(cs[i], tuning)
        && BlockFormula(cs, base, tuning).error == UnknownParameter(cs[i].rhs)
        && forall j :: 0 <= j < i ==> !Unresolved(cs[j], tuning)
  {
    var ps := ClauseParts(cs, base, tuning);
    FoldFailure(ps);
    if BlockFormula(cs, base, tuning).Err? {
      var i :| 0 <= i < |ps| && ps[i].f == Fold(ps) && forall j :: 0 <= j < i ==> ps[j].f.Ok?;
      assert Unresolved(cs[i], tuning);
    }
  }

  /** The reference meaning of a block: its clauses' truth values folded by their flags. */
  function BlockHolds(cs: seq<Clause>, base: map<string, real>, eps: map<string, real>): bool
    requires forall i :: 0 <= i < |cs| && Supported(cs[i]) ==> cs[i].rhs in eps
  {
    BoolFold(seq(|cs|, i requires 0 <= i < |cs| => ClauseHolds(cs[i], base, eps)),
             seq(|cs|, i requires 0 <= i < |cs| => cs[i].isAnd))
  }

  lemma BlockMeaning(cs: seq<Clause>, base: map<string, real>, tuning: map<string, Term>, eps: map<string, real>)
    requires VarTuning(tuning) && tuning.Keys <= eps.Keys
    requires forall i :: 0 <= i < |cs| ==> !Unresolved(cs[i], tuning)
    ensures BlockFormula(cs, base, tuning).Ok?
    ensures FormulaVars(BlockFormula(cs, base, tuning).value) <= eps.Keys
    ensures Eval(BlockFormula(cs, base, tuning).value, eps) == BlockHolds(cs, base, eps)
  {
    var ps := ClauseParts(cs, base, tuning);
    var vs := seq(|cs|, i requires 0 <= i < |cs| => ClauseHolds(cs[i], base, eps));
    forall i | 0 <= i < |cs|
      ensures ps[i].f.Ok? && FormulaVars(ps[i].f.value) <= eps.Keys && Eval(ps[i].f.value, eps) == vs[i]
    {
      ClauseMeaning(cs[i], base, tuning, eps);
    }
    FoldMeaning(ps, eps, vs);
    assert Flags(ps) == seq(|cs|, i requires 0 <= i < |cs| => cs[i].isAnd);
  }

  /** [A, B joined by AND, C joined by OR] is (A and B) or C. */
  lemma BlockGrouping(a: Clause, b: Clause, c: Clause, base: map<string, real>, tuning: map<string, Term>)
    requires b.isAnd && !c.isAnd
    requires !Unresolved(a, tuning) && !Unresolved(b, tuning) && !Unresolved(c, tuning)
    ensures BlockFormula([a, b, c], base, tuning) == Ok(Or(
      And(CompileClause(a, base, tuning).value, CompileClause(b, base, tuning).value),
      CompileClause(c, base, tuning).value))
  {
    var ps := ClauseParts([a, b, c], base, tuning);
    assert ps[..2][..1] == ps[..1];
    assert Fold(ps[..1]) == ps[0].f;
    assert Fold(ps[..2]) == Ok(And(ps[0].f.value, ps[1].f.value));
  }

  /** ... and not A and (B or C): with A false and C true they differ. */
  lemma BlockIsNotPrecedence()
    ensures var base, tuning, eps := map["p" := 0.0], map["p" := Var("p")], map["p" := 0.0];
      var a, b, c := Clause(0.0, "p", ">", true), Clause(0.0, "p", ">", true), Clause(1.0, "p", ">", false);
      && BlockFormula([a, b, c], base, tuning).Ok?
      && FormulaVars(BlockFormula([a, b, c], base, tuning).value) <= eps.Keys
      && Eval(BlockFormula([a, b, c], base, tuning).value, eps)
      && !(ClauseHolds(a, base, eps) && (ClauseHolds(b, base, eps) || ClauseHolds(c, base, eps)))
  {
    var base, tuning, eps := map["p" := 0.0], map["p" := Var("p")], map["p" := 0.0];
    var a, b, c := Clause(0.0, "p", ">", true), Clause(0.0, "p", ">", true), Clause(1.0, "p", ">", false);
    BlockGrouping(a, b, c, base, tuning);
    assert Trunc(1.0) == 1 && Trunc(0.0) == 0;
  }

  /** The first clause's flag is ignored. */
  lemma BlockIgnoresFirstFlag(cs: seq<Clause>, base: map<string, real>, tuning: map<string, Term>, b: bool)
    requires |cs| > 0
    ensures BlockFormula(cs[0 := cs[0].(isAnd := b)], base, tuning) == BlockFormula(cs, base, tuning)
  {
    var ps := ClauseParts(cs, base, tuning);
    FoldIgnoresFirstFlag(ps, b);
    assert ClauseParts(cs[0 := cs[0].(isAnd := b)], base, tuning) == ps[0 := ps[0].(isAnd := b)];
  }

  /** The first block's flag is ignored. */
  lemma EventIgnoresFirstFlag(t: Transition, base: map<string, real>, tuning: map<string, Term>, b: bool)
    requires |t.blocks| > 0
    ensures EventFormula(t.(blocks := t.blocks[0 := t.blocks[0].(isAnd := b)]), base, tuning)
         == EventFormula(t, base, tuning)
  {
    var ps := BlockParts(t.blocks, base, tuning);
    FoldIgnoresFirstFlag(ps, b);
    assert BlockParts(t.blocks[0 := t.blocks[0].(isAnd := b)], base, tuning) == ps[0 := ps[0].(isAnd := b)];
  }

  /** Joining a second clause by AND admits no more assignments than joining it by OR. */
  lemma AndAdmitsNoMoreThanOr(a: Clause, b: Clause, base: map<string, real>, tuning: map<string, Term>, eps: map<string, real>)
    requires VarTuning(tuning) && tuning.Keys <= eps.Keys
    requires !Unresolved(a, tuning) && !Unresolved(b, tuning)
    ensures BlockFormula([a, b.(isAnd := true)], base, tuning).Ok?
    ensures BlockFormula([a, b.(isAnd := false)], base, tuning).Ok?
    ensures FormulaVars(BlockFormula([a, b.(isAnd := true)], base, tuning).value) <= eps.Keys
    ensures FormulaVars(BlockFormula([a, b.(isAnd := false)], base, tuning).value) <= eps.Keys
    ensures Eval(BlockFormula([a, b.(isAnd := true)], base, tuning).value, eps)
        ==> Eval(BlockFormula([a, b.(isAnd := false)], base, tuning).value, eps)
    ensures Eval(BlockFormula([a, b.(isAnd := true)], base, tuning).value, eps)
        <==> ClauseHolds(a, base, eps) && ClauseHolds(b, base, eps)
  {
    var cand, cor := [a, b.(isAnd := true)], [a, b.(isAnd := false)];
    BlockMeaning(cand, base, tuning, eps);
    BlockMeaning(cor, base, tuning, eps);
    TwoClauses(a, b.(isAnd := true), base, eps);
    TwoClauses(a, b.(isAnd := false), base, eps);
  }

  /** A block of two clauses holds as the first clause joined to the second by
      the second's flag. */
  lemma TwoClauses(a: Clause, b: Clause, base: map<string, real>, eps: map<string, real>)
    requires (Supported(a) ==> a.rhs in eps) && (Supported(b) ==> b.rhs in eps)
    ensures BlockHolds([a, b], base, eps) ==
      if b.isAnd then ClauseHolds(a, base, eps) && ClauseHolds(b, base, eps)
      else ClauseHolds(a, base, eps) || ClauseHolds(b, base, eps)
  {
    var cs := [a, b];
    var va, vb := ClauseHolds(a, base, eps), ClauseHolds(b, base, eps);
    assert seq(2, i requires 0 <= i < 2 => ClauseHolds(cs[i], base, eps)) == [va, vb];
    assert seq(2, i requires 0 <= i < 2 => cs[i].isAnd) == [a.isAnd, b.isAnd];
    assert [va, vb][..1] == [va];
    assert [a.isAnd, b.isAnd][..1] == [a.isAnd];
    assert BoolFold([va], [a.isAnd]) == va;
    assert BoolFold([va, vb], [a.isAnd, b.isAnd]) == if b.isAnd then va && vb else va || vb;
  }

  /** The reference meaning of an event: its blocks' meanings folded by the blocks' flags. */
  function EventHolds(t: Transition, base: map<string, real>, eps: map<string, real>): bool
    requires forall k, i ::
      (0 <= k < |t.blocks| && 0 <= i < |t.blocks[k].clauses| && Supported(t.blocks[k].clauses[i]))
      ==> t.blocks[k].clauses[i].rhs in eps
  {
    BoolFold(seq(|t.blocks|, k requires 0 <= k < |t.blocks| => BlockHolds(t.blocks[k].clauses, base, eps)),
             seq(|t.blocks|, k requires 0 <= k < |t.blocks| => t.blocks[k].isAnd))
  }

  /** An event compiles exactly when none of its clauses is unresolved, and its
      formula then means the fold of its blocks' meanings. */
  lemma EventMeaning(t: Transition, base: map<string, real>, tuning: map<string, Term>, eps: map<string, real>)
    requires VarTuning(tuning) && tuning.Keys <= eps.Keys
    ensures EventFormula(t, base, tuning).Err? <==>
      exists k, i :: 0 <= k < |t.blocks| && 0 <= i < |t.blocks[k].clauses| && Unresolved(t.blocks[k].clauses[i], tuning)
    ensures EventFormula(t, base, tuning).Ok? ==>
      && FormulaVars(EventFormula(t, base, tuning).value) <= eps.Keys
      && Eval(EventFormula(t, base, tuning).value, eps) == EventHolds(t, base, eps)
  {
    var ps := BlockParts(t.blocks, base, tuning);
    FoldFailure(ps);
    forall k | 0 <= k < |t.blocks| { BlockFailure(t.blocks[k].clauses, base, tuning); }
    if EventFormula(t, base, tuning).Ok? {
      var vs := seq(|t.blocks|, k requires 0 <= k < |t.blocks| => BlockHolds(t.blocks[k].clauses, base, eps));
      forall k | 0 <= k < |t.blocks|
        ensures ps[k].f.Ok? && FormulaVars(ps[k].f.value) <= eps.Keys && Eval(ps[k].f.value, eps) == vs[k]
      {
        BlockMeaning(t.blocks[k].clauses, base, tuning, eps);
      }
      FoldMeaning(ps, eps, vs);
      assert Flags(ps) == seq(|t.blocks|, k requires 0 <= k < |t.blocks| => t.blocks[k].isAnd);
    }
  }

  /** Names a sequence of clauses compares against. */
  function RhsNames(cs: seq<Clause>): set<string>
  {
    if |cs| == 0 then {} else RhsNames(cs[..|cs| - 1]) + {cs[|cs| - 1].rhs}
  }

  lemma RhsNamesStep(cs: seq<Clause>, j: nat)
    requires j < |cs|
    ensures RhsNames(cs[..j + 1]) == RhsNames(cs[..j]) + {cs[j].rhs}
  {
    assert cs[..j + 1][..j] == cs[..j];
  }

  /** Names an event's clauses compare against. */
  function EventNames(bs: seq<Block>): set<string>
  {
    if |bs| == 0 then {} else EventNames(bs[..|bs| - 1]) + RhsNames(bs[|bs| - 1].clauses)
  }

  lemma EventNamesStep(bs: seq<Block>, k: nat)
    requires k < |bs|
    ensures EventNames(bs[..k + 1]) == EventNames(bs[..k]) + RhsNames(bs[k].clauses)
  {
    assert bs[..k + 1][..k] == bs[..k];
  }

  /** One block of the compile loop: folds the clauses in order, inserting each
      clause's parameter name into the tuned set when the event is a human
      constraint, and stops at the first clause that cannot be compiled. */
  method CompileBlock(
    block: Block, constrained: bool, base: map<string, real>, tuning: map<string, Term>, tuned: seq<string>)
    returns (r: Result<Formula>, tunedOut: seq<string>)
    requires Ascending(tuned)
    ensures r == BlockFormula(block.clauses, base, tuning)
    ensures Ascending(tunedOut)
    ensures r.Ok? ==> Elems(tunedOut) == Elems(tuned) + (if constrained then RhsNames(block.clauses) else {})
  {
    var cs := block.clauses;
    ghost var ps := ClauseParts(cs, base, tuning);
    var blockTransition := Const(true);
    tunedOut := tuned;
    for j := 0 to |cs|
      invariant Ascending(tunedOut)
      invariant Elems(tunedOut) == Elems(tuned) + (if constrained then RhsNames(cs[..j]) else {})
      invariant Fold(ps[..j]) == Ok(blockTransition)
    {
      var clause := cs[j];
      RhsNamesStep(cs, j);
      if constrained {
        InsertAscending(tunedOut, clause.rhs);
        tunedOut := Insert(tunedOut, clause.rhs);
      }
      var clauseBool := CompileClause(clause, base, tuning);
      if clauseBool.Err? {
        FoldStopsAt(ps, j);
        r := Err(clauseBool.error);
        return;
      }
      FoldStep(ps, j, blockTransition, clauseBool.value);
      if j == 0 {
        blockTransition := clauseBool.value;
      } else if clause.isAnd {
        blockTransition := And(blockTransition, clauseBool.value);
      } else {
        blockTransition := Or(blockTransition, clauseBool.value);
      }
    }
    assert ps[..|cs|] == ps;
    assert cs[..|cs|] == cs;
    r := Ok(blockTransition);
  }

  /** One event of the compile loop: folds its blocks in order. */
  method CompileEvent(t: Transition, base: map<string, real>, tuning: map<string, Term>, tuned: seq<string>)
    returns (r: Result<Formula>, tunedOut: seq<string>)
    requires Ascending(tuned)
    ensures r == EventFormula(t, base, tuning)
    ensures Ascending(tunedOut)
    ensures r.Ok? ==> Elems(tunedOut) == Elems(tuned) + (if t.humanConstraint then EventNames(t.blocks) else {})
  {
    ghost var ps := BlockParts(t.blocks, base, tuning);
    var transition := Const(true);
    tunedOut := tuned;
    for k := 0 to |t.blocks|
      invariant Ascending(tunedOut)
      invariant Elems(tunedOut) == Elems(tuned) + (if t.humanConstraint then EventNames(t.blocks[..k]) else {})
      invariant Fold(ps[..k]) == Ok(transition)
    {
      var block := t.blocks[k];
      EventNamesStep(t.blocks, k);
      var blockTransition;
      blockTransition, tunedOut := CompileBlock(block, t.humanConstraint, base, tuning, tunedOut);
      if blockTransition.Err? {
        FoldStopsAt(ps, k);
        r := Err(blockTransition.error);
        return;
      }
      FoldStep(ps, k, transition, blockTransition.value);
      if k == 0 {
        transition := blockTransition.value;
      } else if block.isAnd {
        transition := And(transition, blockTransition.value);
      } else {
        transition := Or(transition, blockTransition.value);
      }
    }
    assert ps[..|t.blocks|] == ps;
    assert t.blocks[..|t.blocks|] == t.blocks;
    r := Ok(transition);
  }
}
