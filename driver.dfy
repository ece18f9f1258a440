/** The solver driver (`SolveWithBlocks`): registry, compilation and assembly,
    one check by the solver, and the extraction of tuned bounds into `lowers`. */
module Driver {
  import opened Formulas
  import opened StringOrder
  import opened Compiler
  import opened Parameters
  import opened Assembly

  datatype Status = Sat | Unsat | Unknown

  /** The solver, which is not modelled: the outcome of `check` on a problem,
      and the upper bound it reports for each objective handle of that problem. */
  datatype Oracle = Oracle(check: Optimizer -> Status, upper: (Optimizer, nat) -> real)

  /** The registry a run builds from empty containers. */
  function Registered(machines: seq<Machine>): Registry
  {
    RegisterAll(Empty, Entries(machines))
  }

  /** The facts about a run's registry that the driver relies on. */
  lemma RegisteredFacts(machines: seq<Machine>)
    ensures var r := Registered(machines);
      && r.absolutes.Keys == r.base.Keys
      && r.epsilons.Keys == r.base.Keys
      && (forall k :: k in r.absolutes ==> r.absolutes[k] == AbsTerm(k))
  {
    RegisterKeepsValid(Empty, Entries(machines));
  }

  /** With the registry's containers sharing their keys, a tuned name fails
      its lookups exactly when it has no baseline. */
  lemma UnregisteredIff(tuned: seq<string>, names: set<string>, reg: Registry)
    requires Elems(tuned) == names
    requires reg.absolutes.Keys == reg.base.Keys && reg.epsilons.Keys == reg.base.Keys
    ensures (exists i :: 0 <= i < |tuned| && Unregistered(tuned[i], reg.absolutes, reg.epsilons))
        <==> exists k :: k in names && k !in reg.base
  {
    if exists k :: k in names && k !in reg.base {
      var k :| k in names && k !in reg.base;
      assert k in Elems(tuned);
      var i :| 0 <= i < |tuned| && tuned[i] == k;
      assert Unregistered(tuned[i], reg.absolutes, reg.epsilons);
    }
    if exists i :: 0 <= i < |tuned| && Unregistered(tuned[i], reg.absolutes, reg.epsilons) {
      var i :| 0 <= i < |tuned| && Unregistered(tuned[i], reg.absolutes, reg.epsilons);
      assert tuned[i] in Elems(tuned);
    }
  }

  /** What the extraction loop leaves in `lowers` as it is written: the index
      is reset to 0 in every iteration, so each one stores the bound of the
      first handle under the first registered name. */
  function AsWrittenLowers(
    status: Status, bound: nat -> real, tuned: seq<string>, paramNames: seq<string>,
    handles: seq<nat>, lowers: map<string, real>): map<string, real>
    requires status == Sat && |tuned| > 0 ==> |paramNames| > 0 && |handles| > 0
  {
    if status == Sat && |tuned| > 0 then lowers[paramNames[0] := bound(handles[0])] else lowers
  }

  /** The extraction as written gives at most one name a value, and that name
      is the first registered one whatever the tuned names are. */
  lemma AsWrittenWritesOneName(
    status: Status, bound: nat -> real, tuned: seq<string>, paramNames: seq<string>,
    handles: seq<nat>, lowers: map<string, real>)
    requires status == Sat && |tuned| > 0 ==> |paramNames| > 0 && |handles| > 0
    ensures var out := AsWrittenLowers(status, bound, tuned, paramNames, handles, lowers);
      forall k :: k in out && (k !in lowers || out[k] != lowers[k]) ==>
        status == Sat && |tuned| > 0 && k == paramNames[0] && out[k] == bound(handles[0])
    ensures status != Sat || |tuned| == 0 ==> AsWrittenLowers(status, bound, tuned, paramNames, handles, lowers) == lowers
  {
  }

  /** With two or more tuned names and nothing extracted before, some tuned
      name receives no bound at all. */
  lemma {:induction false} AsWrittenLosesTunedNames(
    bound: nat -> real, tuned: seq<string>, paramNames: seq<string>, handles: seq<nat>)
    requires |tuned| >= 2 && Ascending(tuned) && |paramNames| > 0 && |handles| > 0
    ensures exists i :: 0 <= i < |tuned| && tuned[i] !in AsWrittenLowers(Sat, bound, tuned, paramNames, handles, map[])
  {
    BelowIrreflexive(tuned[0]);
    if tuned[0] == paramNames[0] {
      assert tuned[1] != paramNames[0];
      assert tuned[1] !in AsWrittenLowers(Sat, bound, tuned, paramNames, handles, map[]);
    } else {
      assert tuned[0] !in AsWrittenLowers(Sat, bound, tuned, paramNames, handles, map[]);
    }
  }

  /** Even with one tuned name, which the reset index does not affect, the
      as-written extraction stores the bound under the first registered name:
      tuned "a" with registered names "z", "a" writes "z" and leaves "a" out. */
  lemma AsWrittenWrongKey(bound: nat -> real)
    ensures var out := AsWrittenLowers(Sat, bound, ["a"], ["z", "a"], [0], map[]);
      out == map["z" := bound(0)] && "a" !in out
  {
  }

  /** A concrete run of the extraction: tuned names "a" and "b" with handles 0
      and 1 leave only "a", holding the bound of handle 0. */
  lemma AsWrittenExample()
    ensures var bound := (h: nat) => h as real + 1.0;
      AsWrittenLowers(Sat, bound, ["a", "b"], ["a", "b"], [0, 1], map[]) == map["a" := 1.0]
  {
  }

  /** The extraction loop as written (`int i = 0` inside the loop). */
  method ExtractAsWritten(
    status: Status, bound: nat -> real, tuned: seq<string>, paramNames: seq<string>,
    handles: seq<nat>, lowers: map<string, real>)
    returns (lowersOut: map<string, real>)
    requires status == Sat && |tuned| > 0 ==> |paramNames| > 0 && |handles| > 0
    ensures lowersOut == AsWrittenLowers(status, bound, tuned, paramNames, handles, lowers)
  {
    lowersOut := lowers;
    if status == Sat {
      for n := 0 to |tuned|
        invariant lowersOut == if n == 0 then lowers else lowers[paramNames[0] := bound(handles[0])]
      {
        var i := 0;
        lowersOut := lowersOut[paramNames[i] := bound(handles[i])];
      }
    }
  }

  /** The extraction loop as intended: the index advances with the tuned name,
      and the bound is stored under the tuned name itself (not under the i-th
      registered name), so each tuned name gets the bound of its own objective
      handle and nothing else changes. */
  method ExtractLowers(
    status: Status, bound: nat -> real, tuned: seq<string>, handles: seq<nat>, lowers: map<string, real>)
    returns (lowersOut: map<string, real>)
    requires |handles| == |tuned| && Ascending(tuned)
    ensures status != Sat ==> lowersOut == lowers
    ensures status == Sat ==> lowersOut.Keys == lowers.Keys + Elems(tuned)
    ensures status == Sat ==> forall i :: 0 <= i < |tuned| ==> lowersOut[tuned[i]] == bound(handles[i])
    ensures forall k :: k in lowers && k !in Elems(tuned) ==> lowersOut[k] == lowers[k]
  {
    lowersOut := lowers;
    if status == Sat {
      var i := 0;
      while i < |tuned|
        invariant 0 <= i <= |tuned|
        invariant lowersOut.Keys == lowers.Keys + Elems(tuned[..i])
        invariant forall j :: 0 <= j < i ==> lowersOut[tuned[j]] == bound(handles[j])
        invariant forall k :: k in lowers && k !in Elems(tuned[..i]) ==> lowersOut[k] == lowers[k]
      {
        assert Elems(tuned[..i + 1]) == Elems(tuned[..i]) + {tuned[i]} by {
          assert tuned[..i + 1] == tuned[..i] + [tuned[i]];
        }
        forall j | 0 <= j < i ensures tuned[j] != tuned[i] {
          BelowIrreflexive(tuned[j]);
        }
        lowersOut := lowersOut[tuned[i] := bound(handles[i])];
        i := i + 1;
      }
      assert tuned[..|tuned|] == tuned;
    }
  }

  /** The objective loop run on a registry whose maps share their keys: it
      fails exactly when a tuned name has no baseline, and otherwise appends
      each tuned name's absolute term with the handle of its position. */
  method AddObjectives(
    tuned: seq<string>, base: map<string, real>, tuning: map<string, Term>, absolutes: map<string, Term>,
    opt: Optimizer)
    returns (problem: Optimizer, handles: Result<seq<nat>>)
    requires absolutes.Keys == base.Keys && tuning.Keys == base.Keys
    requires forall k :: k in absolutes ==> absolutes[k] == AbsTerm(k)
    ensures handles.Err? <==> exists k :: k in Elems(tuned) && k !in base
    ensures handles.Ok? ==> problem.softs == opt.softs
    ensures handles.Ok? ==>
      && |problem.objectives| == |opt.objectives| + |tuned|
      && problem.objectives[..|opt.objectives|] == opt.objectives
      && |handles.value| == |tuned|
      && forall i :: 0 <= i < |tuned| ==>
           handles.value[i] == |opt.objectives| + i && problem.objectives[handles.value[i]] == AbsTerm(tuned[i])
  {
    problem := opt;
    var objectives := RegisterObjectives(tuned, absolutes, tuning, opt);
    UnregisteredIff(tuned, Elems(tuned), Registry(base, [], tuning, absolutes));
    if objectives.Err? {
      handles := Err(objectives.error);
      return;
    }
    problem := objectives.value.opt;
    handles := Ok(objectives.value.handles);
  }

  /** The problem the driver hands the solver: the events' soft constraints
      and one objective per tuned name, whose handle is the name's index in
      the tuned set; or the first lookup that fails. */
  method BuildProblem(data: seq<Transition>, base: map<string, real>, tuning: map<string, Term>, absolutes: map<string, Term>)
    returns (problem: Optimizer, tuned: seq<string>, handles: Result<seq<nat>>)
    requires absolutes.Keys == base.Keys && tuning.Keys == base.Keys
    requires forall k :: k in absolutes ==> absolutes[k] == AbsTerm(k)
    ensures handles.Err? <==>
      AssembleSoft(data, base, tuning).Err? || exists k :: k in TunedNames(data) && k !in base
    ensures handles.Ok? ==> Ascending(tuned) && Elems(tuned) == TunedNames(data)
    ensures handles.Ok? ==> problem.softs == AssembleSoft(data, base, tuning).value
    ensures handles.Ok? ==>
      |problem.objectives| == |tuned| && forall i :: 0 <= i < |tuned| ==> problem.objectives[i] == AbsTerm(tuned[i])
    ensures handles.Ok? ==> |handles.value| == |tuned| && forall i :: 0 <= i < |tuned| ==> handles.value[i] == i
  {
    problem, tuned := Optimizer([], []), [];
    var assembled := Assemble(data, base, tuning, problem);
    if assembled.Err? {
      handles := Err(assembled.error);
      return;
    }
    tuned := assembled.value.tuned;
    problem, handles := AddObjectives(tuned, base, tuning, absolutes, assembled.value.opt);
  }

  /** The part of `SolveWithBlocks` after the registry is built: build the
      problem, run the solver once, extract the bounds. */
  method SolveFrom(
    data: seq<Transition>, base: map<string, real>, tuning: map<string, Term>, absolutes: map<string, Term>,
    lowers: map<string, real>, oracle: Oracle)
    returns (lowersOut: map<string, real>, problem: Optimizer, tuned: seq<string>, outcome: Result<Status>)
    requires absolutes.Keys == base.Keys && tuning.Keys == base.Keys
    requires forall k :: k in absolutes ==> absolutes[k] == AbsTerm(k)
    ensures outcome.Err? <==>
      AssembleSoft(data, base, tuning).Err? || exists k :: k in TunedNames(data) && k !in base
    ensures outcome.Ok? ==> Ascending(tuned) && Elems(tuned) == TunedNames(data)
    ensures outcome.Ok? ==> |tuned| == |TunedNames(data)|
    ensures outcome.Ok? ==> problem.softs == AssembleSoft(data, base, tuning).value
    ensures outcome.Ok? ==>
      |problem.objectives| == |tuned| && forall i :: 0 <= i < |tuned| ==> problem.objectives[i] == AbsTerm(tuned[i])
    ensures outcome.Ok? ==> outcome.value == oracle.check(problem)
    ensures outcome.Err? || outcome.value != Sat ==> lowersOut == lowers
    ensures outcome == Ok(Sat) ==>
      && lowersOut.Keys == lowers.Keys + TunedNames(data)
      && (forall i :: 0 <= i < |tuned| ==> lowersOut[tuned[i]] == oracle.upper(problem, i))
    ensures forall k :: k in lowers && k !in TunedNames(data) ==> lowersOut[k] == lowers[k]
  {
    var handles;
    problem, tuned, handles := BuildProblem(data, base, tuning, absolutes);
    if handles.Err? {
      lowersOut := lowers;
      outcome := Err(handles.error);
      return;
    }
    AscendingCard(tuned);
    var status := oracle.check(problem);
    var p := problem;
    lowersOut := ExtractLowers(status, (h: nat) => oracle.upper(p, h), tuned, handles.value, lowers);
    outcome := Ok(status);
  }

  /** `SolveWithBlocks`: registers the machines' parameters into empty
      containers, compiles and assembles the events, registers one objective
      per tuned name, runs the solver once and stores each tuned name's bound
      in `lowers`. `problem` is what the solver is handed and `tuned` the
      tuned-name set. */
  method SolveWithBlocks(machines: seq<Machine>, data: seq<Transition>, lowers: map<string, real>, oracle: Oracle)
    returns (params: map<string, real>, lowersOut: map<string, real>,
             problem: Optimizer, tuned: seq<string>, outcome: Result<Status>)
    ensures var reg := Registered(machines);
      && params == reg.base
      && (outcome.Err? <==>
          AssembleSoft(data, reg.base, reg.epsilons).Err? || exists k :: k in TunedNames(data) && k !in reg.base)
      && (outcome.Ok? ==> Ascending(tuned) && Elems(tuned) == TunedNames(data))
      && (outcome.Ok? ==> |tuned| == |TunedNames(data)|)
      && (outcome.Ok? ==> problem.softs == AssembleSoft(data, reg.base, reg.epsilons).value)
      && (outcome.Ok? ==>
          |problem.objectives| == |tuned| && forall i :: 0 <= i < |tuned| ==> problem.objectives[i] == AbsTerm(tuned[i]))
      && (outcome.Ok? ==> outcome.value == oracle.check(problem))
      && (outcome.Err? || outcome.value != Sat ==> lowersOut == lowers)
      && (outcome == Ok(Sat) ==>
          && lowersOut.Keys == lowers.Keys + TunedNames(data)
          && (forall i :: 0 <= i < |tuned| ==> lowersOut[tuned[i]] == oracle.upper(problem, i)))
      && (forall k :: k in lowers && k !in TunedNames(data) ==> lowersOut[k] == lowers[k])
  {
    var base, paramNames, tuning, absolutes := GetParameters(machines, map[], [], map[], map[]);
    RegisteredFacts(machines);
    assert Registered(machines) == Registry(base, paramNames, tuning, absolutes);
    params := base;
    lowersOut, problem, tuned, outcome := SolveFrom(data, base, tuning, absolutes, lowers, oracle);
  }
}
