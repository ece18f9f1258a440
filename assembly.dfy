/** Constraint assembly: one weighted soft constraint per human-labelled
    event, the set of parameter names those events mention, and one
    minimisation objective per such name, in the set's ascending order. */
module Assembly {
  import opened Formulas
  import opened StringOrder
  import opened Compiler

  datatype Soft = Soft(f: Formula, weight: nat)

  /** What the optimiser has been given: soft constraints and minimisation
      objectives. The handle of an objective is its index. */
  datatype Optimizer = Optimizer(softs: seq<Soft>, objectives: seq<Term>)
  {
    /** `opt.add(f, w)` */
    function Add(f: Formula, w: nat): Optimizer
    {
      this.(softs := softs + [Soft(f, w)])
    }

    /** `opt.minimize(t)`: the new optimiser and the handle of the objective. */
    function Minimize(t: Term): (Optimizer, nat)
    {
      (this.(objectives := objectives + [t]), |objectives|)
    }
  }

  /** The formula asserted for an event: itself if it should fire, else its negation. */
  function Expect(f: Formula, should: bool): Formula
  {
    if should then f else Not(f)
  }

  /** The soft constraint an event contributes: none unless it is a human constraint. */
  function SoftFor(t: Transition, f: Formula): seq<Soft>
  {
    if t.humanConstraint then [Soft(Expect(f, t.shouldTransition), 1)] else []
  }

  /** The soft constraints of a sequence of events, or the first compile failure. */
  function AssembleSoft(ts: seq<Transition>, base: map<string, real>, tuning: map<string, Term>): Result<seq<Soft>>
  {
    if |ts| == 0 then Ok([])
    else
      match AssembleSoft(ts[..|ts| - 1], base, tuning)
      case Err(e) => Err(e)
      case Ok(ss) =>
        match EventFormula(ts[|ts| - 1], base, tuning)
        case Err(e) => Err(e)
        case Ok(f) => Ok(ss + SoftFor(ts[|ts| - 1], f))
  }

  /** The names mentioned by clauses of human-constrained events. */
  function TunedNames(ts: seq<Transition>): set<string>
  {
    if |ts| == 0 then {}
    else TunedNames(ts[..|ts| - 1]) + (if ts[|ts| - 1].humanConstraint then EventNames(ts[|ts| - 1].blocks) else {})
  }

  /** The human-constrained events, in order. */
  function HumanEvents(ts: seq<Transition>): seq<Transition>
  {
    if |ts| == 0 then []
    else HumanEvents(ts[..|ts| - 1]) + (if ts[|ts| - 1].humanConstraint then [ts[|ts| - 1]] else [])
  }

  lemma {:induction false} RhsNamesMembership(cs: seq<Clause>, k: string)
    ensures k in RhsNames(cs) <==> exists j :: 0 <= j < |cs| && cs[j].rhs == k
    decreases |cs|
  {
    if |cs| > 0 {
      var init := cs[..|cs| - 1];
      RhsNamesMembership(init, k);
      if exists j :: 0 <= j < |cs| && cs[j].rhs == k {
        var j :| 0 <= j < |cs| && cs[j].rhs == k;
        if j < |cs| - 1 { assert init[j].rhs == k; }
      }
      if exists j :: 0 <= j < |init| && init[j].rhs == k {
        var j :| 0 <= j < |init| && init[j].rhs == k;
        assert cs[j].rhs == k;
      }
    }
  }

  predicate MentionedIn(bs: seq<Block>, k: string)
  {
    exists b, j :: 0 <= b < |bs| && 0 <= j < |bs[b].clauses| && bs[b].clauses[j].rhs == k
  }

  lemma {:induction false} EventNamesMembership(bs: seq<Block>, k: string)
    ensures k in EventNames(bs) <==> MentionedIn(bs, k)
    decreases |bs|
  {
    if |bs| > 0 {
      var init, last := bs[..|bs| - 1], bs[|bs| - 1];
      EventNamesMembership(init, k);
      RhsNamesMembership(last.clauses, k);
      if MentionedIn(bs, k) {
        var b, j :| 0 <= b < |bs| && 0 <= j < |bs[b].clauses| && bs[b].clauses[j].rhs == k;
        if b < |bs| - 1 { assert init[b].clauses[j].rhs == k; }
      }
      if MentionedIn(init, k) {
        var b, j :| 0 <= b < |init| && 0 <= j < |init[b].clauses| && init[b].clauses[j].rhs == k;
        assert bs[b].clauses[j].rhs == k;
      }
      if exists j :: 0 <= j < |last.clauses| && last.clauses[j].rhs == k {
        var j :| 0 <= j < |last.clauses| && last.clauses[j].rhs == k;
        assert bs[|bs| - 1].clauses[j].rhs == k;
      }
    }
  }

  /** A name is tuned exactly when some clause of some human-constrained event
      compares against it, whatever that clause's comparator. */
  lemma {:induction false} TunedNamesMembership(ts: seq<Transition>, k: string)
    ensures k in TunedNames(ts) <==> exists i :: 0 <= i < |ts| && ts[i].humanConstraint && MentionedIn(ts[i].blocks, k)
    decreases |ts|
  {
    if |ts| > 0 {
      var init, last := ts[..|ts| - 1], ts[|ts| - 1];
      TunedNamesMembership(init, k);
      EventNamesMembership(last.blocks, k);
      if exists i :: 0 <= i < |ts| && ts[i].humanConstraint && MentionedIn(ts[i].blocks, k) {
        var i :| 0 <= i < |ts| && ts[i].humanConstraint && MentionedIn(ts[i].blocks, k);
        if i < |ts| - 1 { assert init[i] == ts[i]; }
      }
      if exists i :: 0 <= i < |init| && init[i].humanConstraint && MentionedIn(init[i].blocks, k) {
        var i :| 0 <= i < |init| && init[i].humanConstraint && MentionedIn(init[i].blocks, k);
        assert ts[i] == init[i];
      }
    }
  }

  /** An event that is not a human constraint adds no name and no constraint. */
  lemma NonHumanEventInert(ts: seq<Transition>, t: Transition, base: map<string, real>, tuning: map<string, Term>)
    requires !t.humanConstraint
    ensures TunedNames(ts + [t]) == TunedNames(ts)
    ensures AssembleSoft(ts, base, tuning).Ok? && EventFormula(t, base, tuning).Ok?
        ==> AssembleSoft(ts + [t], base, tuning) == AssembleSoft(ts, base, tuning)
  {
    assert (ts + [t])[..|ts|] == ts;
    if AssembleSoft(ts, base, tuning).Ok? && EventFormula(t, base, tuning).Ok? {
      var ss := AssembleSoft(ts, base, tuning).value;
      assert ss + SoftFor(t, EventFormula(t, base, tuning).value) == ss;
    }
  }

  predicate Compiles(t: Transition, base: map<string, real>, tuning: map<string, Term>)
  {
    EventFormula(t, base, tuning).Ok?
  }

  /** Assembly fails exactly when some event fails to compile, and then with the
      first such event's failure. */
  lemma {:induction false} AssembleFailure(ts: seq<Transition>, base: map<string, real>, tuning: map<string, Term>)
    ensures AssembleSoft(ts, base, tuning).Err? <==> exists i :: 0 <= i < |ts| && !Compiles(ts[i], base, tuning)
    ensures AssembleSoft(ts, base, tuning).Err? ==>
      exists i :: (0 <= i < |ts| && !Compiles(ts[i], base, tuning)
        && AssembleSoft(ts, base, tuning) == Err(EventFormula(ts[i], base, tuning).error) && forall j :: 0 <= j < i ==> Compiles(ts[j], base, tuning))
    decreases |ts|
  {
    if |ts| > 0 {
      var init, last := ts[..|ts| - 1], ts[|ts| - 1];
      AssembleFailure(init, base, tuning);
      assert forall j :: 0 <= j < |init| ==> init[j] == ts[j];
      if AssembleSoft(init, base, tuning).Err? {
        var i :| 0 <= i < |init| && !Compiles(init[i], base, tuning)
          && AssembleSoft(init, base, tuning) == Err(EventFormula(init[i], base, tuning).error) && forall j :: 0 <= j < i ==> Compiles(init[j], base, tuning);
        assert AssembleSoft(ts, base, tuning) == AssembleSoft(init, base, tuning);
        assert AssembleSoft(ts, base, tuning) == Err(EventFormula(ts[i], base, tuning).error);
      } else if !Compiles(last, base, tuning) {
        assert AssembleSoft(ts, base, tuning) == Err(EventFormula(ts[|ts| - 1], base, tuning).error);
      } else {
        assert AssembleSoft(ts, base, tuning).Ok?;
      }
    }
  }

  /** Each human-constrained event, and only those, contributes one weight-1
      soft constraint, in order: its formula if it should transition, its
      negation otherwise. */
  lemma {:induction false} SoftsMatchHumanEvents(ts: seq<Transition>, base: map<string, real>, tuning: map<string, Term>)
    requires AssembleSoft(ts, base, tuning).Ok?
    ensures var ss, hs := AssembleSoft(ts, base, tuning).value, HumanEvents(ts);
      && |ss| == |hs|
      && forall i :: 0 <= i < |ss| ==>
           && ss[i].weight == 1
           && EventFormula(hs[i], base, tuning).Ok?
           && ss[i].f == Expect(EventFormula(hs[i], base, tuning).value, hs[i].shouldTransition)
    decreases |ts|
  {
    if |ts| > 0 {
      SoftsMatchHumanEvents(ts[..|ts| - 1], base, tuning);
    }
  }

  /** Under any assignment of the epsilons, an event's soft constraint holds
      exactly when the event's clauses decide as the label says. */
  lemma SoftMeaning(t: Transition, base: map<string, real>, tuning: map<string, Term>, eps: map<string, real>)
    requires VarTuning(tuning) && tuning.Keys <= eps.Keys
    requires EventFormula(t, base, tuning).Ok?
    ensures forall k, i ::
      (0 <= k < |t.blocks| && 0 <= i < |t.blocks[k].clauses| && Supported(t.blocks[k].clauses[i]))
      ==> t.blocks[k].clauses[i].rhs in eps
    ensures FormulaVars(Expect(EventFormula(t, base, tuning).value, t.shouldTransition)) <= eps.Keys
    ensures Eval(Expect(EventFormula(t, base, tuning).value, t.shouldTransition), eps)
        <==> EventHolds(t, base, eps) == t.shouldTransition
  {
    EventMeaning(t, base, tuning, eps);
  }

  lemma AssembleStep(ts: seq<Transition>, i: nat, base: map<string, real>, tuning: map<string, Term>, f: Formula)
    requires i < |ts| && AssembleSoft(ts[..i], base, tuning).Ok? && EventFormula(ts[i], base, tuning) == Ok(f)
    ensures AssembleSoft(ts[..i + 1], base, tuning) == Ok(AssembleSoft(ts[..i], base, tuning).value + SoftFor(ts[i], f))
    ensures TunedNames(ts[..i + 1]) == TunedNames(ts[..i]) + (if ts[i].humanConstraint then EventNames(ts[i].blocks) else {})
  {
    assert ts[..i + 1][..i] == ts[..i];
  }

  lemma {:induction false} AssembleStopsAt(ts: seq<Transition>, i: nat, base: map<string, real>, tuning: map<string, Term>)
    requires i < |ts| && AssembleSoft(ts[..i], base, tuning).Ok? && EventFormula(ts[i], base, tuning).Err?
    ensures AssembleSoft(ts, base, tuning) == Err(EventFormula(ts[i], base, tuning).error)
    decreases |ts|
  {
    if i + 1 < |ts| {
      var init := ts[..|ts| - 1];
      assert init[..i] == ts[..i] && init[i] == ts[i];
      AssembleStopsAt(init, i, base, tuning);
    } else {
      assert ts[..|ts| - 1] == ts[..i];
    }
  }

  datatype Assembled = Assembled(opt: Optimizer, tuned: seq<string>)

  /** The event loop: compiles every event in order, collects the tuned names
      into an ordered set, and adds each human-constrained event's soft
      constraint to the optimiser; the first compile failure aborts it. */
  method Assemble(data: seq<Transition>, base: map<string, real>, tuning: map<string, Term>, opt: Optimizer)
    returns (r: Result<Assembled>)
    ensures r.Err? <==> AssembleSoft(data, base, tuning).Err?
    ensures r.Err? ==> r.error == AssembleSoft(data, base, tuning).error
    ensures r.Ok? ==> r.value.opt == Optimizer(opt.softs + AssembleSoft(data, base, tuning).value, opt.objectives)
    ensures r.Ok? ==> Ascending(r.value.tuned) && Elems(r.value.tuned) == TunedNames(data)
  {
    var cur := opt;
    var tuned: seq<string> := [];
    ghost var softs: seq<Soft> := [];
    for i := 0 to |data|
      invariant Ascending(tuned)
      invariant AssembleSoft(data[..i], base, tuning) == Ok(softs)
      invariant cur == Optimizer(opt.softs + softs, opt.objectives)
      invariant Elems(tuned) == TunedNames(data[..i])
    {
      var dataPoint := data[i];
      var transition;
      transition, tuned := CompileEvent(dataPoint, base, tuning, tuned);
      if transition.Err? {
        AssembleStopsAt(data, i, base, tuning);
        r := Err(transition.error);
        return;
      }
      AssembleStep(data, i, base, tuning, transition.value);
      if dataPoint.humanConstraint {
        if dataPoint.shouldTransition {
          cur := cur.Add(transition.value, 1);
        } else {
          cur := cur.Add(Not(transition.value), 1);
        }
      }
      softs := softs + SoftFor(dataPoint, transition.value);
    }
    assert data[..|data|] == data;
    r := Ok(Assembled(cur, tuned));
  }

  datatype Objectives = Objectives(opt: Optimizer, handles: seq<nat>, epsilonValues: seq<Term>)

  /** A tuned name whose absolute term or epsilon cannot be looked up. */
  predicate Unregistered(k: string, absolutes: map<string, Term>, tuning: map<string, Term>)
  {
    k !in absolutes || k !in tuning
  }

  /** The objective loop: for each tuned name in ascending order, minimise its
      absolute term and remember the handle and the epsilon at the same index. */
  method RegisterObjectives(tuned: seq<string>, absolutes: map<string, Term>, tuning: map<string, Term>, opt: Optimizer)
    returns (r: Result<Objectives>)
    ensures r.Err? <==> exists i :: 0 <= i < |tuned| && Unregistered(tuned[i], absolutes, tuning)
    ensures r.Err? ==> exists i :: (0 <= i < |tuned| && Unregistered(tuned[i], absolutes, tuning)
      && r.error == UnknownParameter(tuned[i])
      && forall j :: 0 <= j < i ==> !Unregistered(tuned[j], absolutes, tuning))
    ensures r.Ok? ==>
      && r.value.opt.softs == opt.softs
      && |r.value.opt.objectives| == |opt.objectives| + |tuned|
      && r.value.opt.objectives[..|opt.objectives|] == opt.objectives
      && |r.value.handles| == |tuned| && |r.value.epsilonValues| == |tuned|
      && forall i :: 0 <= i < |tuned| ==>
           && tuned[i] in absolutes && tuned[i] in tuning
           && r.value.handles[i] == |opt.objectives| + i
           && r.value.opt.objectives[r.value.handles[i]] == absolutes[tuned[i]]
           && r.value.epsilonValues[i] == tuning[tuned[i]]
  {
    var cur := opt;
    var handles: seq<nat> := [];
    var epsilonValues: seq<Term> := [];
    for n := 0 to |tuned|
      invariant cur.softs == opt.softs
      invariant |cur.objectives| == |opt.objectives| + n && cur.objectives[..|opt.objectives|] == opt.objectives
      invariant |handles| == n && |epsilonValues| == n
      invariant forall i :: 0 <= i < n ==>
        && tuned[i] in absolutes && tuned[i] in tuning
        && handles[i] == |opt.objectives| + i
        && cur.objectives[handles[i]] == absolutes[tuned[i]]
        && epsilonValues[i] == tuning[tuned[i]]
    {
      var param := tuned[n];
      if param !in absolutes || param !in tuning {
        r := Err(UnknownParameter(param));
        return;
      }
      var minimized := cur.Minimize(absolutes[param]);
      var handle := minimized.1;
      cur := minimized.0;
      handles := handles + [handle];
      epsilonValues := epsilonValues + [tuning[param]];
    }
    r := Ok(Objectives(cur, handles, epsilonValues));
  }
}
