/** The parameter registry (`GetParameters`): every machine's tunable
    parameters, deduplicated by name with the first declaration winning, each
    given a perturbation variable and its absolute-value term. */
module Parameters {
  import opened Formulas

  /** One `tuneable_params` entry of a machine: a parameter name and its baseline. */
  datatype Entry = Entry(key: string, value: real)

  /** A state machine, reduced to the tunable parameters it declares, in order. */
  datatype Machine = Machine(tuneableParams: seq<Entry>)

  /** The four containers the registry fills: baselines by name, the names in
      registration order, the epsilon variable and the absolute term by name. */
  datatype Registry = Registry(
    base: map<string, real>,
    names: seq<string>,
    epsilons: map<string, Term>,
    absolutes: map<string, Term>)

  const Empty := Registry(map[], [], map[], map[])

  /** `std::map::insert`: adds the pair unless the key is already present. */
  function MapInsert(m: map<string, Term>, k: string, v: Term): (r: map<string, Term>)
    ensures r.Keys == m.Keys + {k}
    ensures forall x :: x in m ==> r[x] == m[x]
    ensures k !in m ==> r[k] == v
  {
    if k in m then m else m[k := v]
  }

  /** One step of the registration loop: a name with a baseline already is skipped. */
  function RegisterEntry(reg: Registry, e: Entry): Registry
  {
    if e.key in reg.base then reg
    else Registry(
      reg.base[e.key := e.value],
      reg.names + [e.key],
      MapInsert(reg.epsilons, e.key, Var(e.key)),
      MapInsert(reg.absolutes, e.key, AbsTerm(e.key)))
  }

  /** Registration of a sequence of entries, one after the other. */
  function RegisterAll(reg: Registry, es: seq<Entry>): Registry
  {
    if |es| == 0 then reg
    else RegisterEntry(RegisterAll(reg, es[..|es| - 1]), es[|es| - 1])
  }

  /** All machines' entries in the order the registry visits them. */
  function Entries(ms: seq<Machine>): seq<Entry>
  {
    if |ms| == 0 then [] else Entries(ms[..|ms| - 1]) + ms[|ms| - 1].tuneableParams
  }

  function KeysOf(es: seq<Entry>): set<string>
  {
    set i | 0 <= i < |es| :: es[i].key
  }

  /** Position of the first entry that declares `k`. */
  function FirstIndex(es: seq<Entry>, k: string): (i: nat)
    requires k in KeysOf(es)
    ensures i < |es| && es[i].key == k
  {
    if es[0].key == k then 0
    else
      assert k in KeysOf(es[1..]) by {
        var i :| 0 <= i < |es| && es[i].key == k;
        assert es[1..][i - 1].key == k;
      }
      1 + FirstIndex(es[1..], k)
  }

  /** No entry before `FirstIndex(es, k)` declares `k`. */
  lemma {:induction false} FirstIndexIsFirst(es: seq<Entry>, k: string, j: nat)
    requires k in KeysOf(es) && j < FirstIndex(es, k)
    ensures es[j].key != k
    decreases |es|
  {
    if j > 0 {
      assert k in KeysOf(es[1..]) by {
        var i := FirstIndex(es, k);
        assert es[1..][i - 1].key == k;
      }
      FirstIndexIsFirst(es[1..], k, j - 1);
    }
  }

  predicate NoDup(s: seq<string>)
  {
    forall i, j :: 0 <= i < j < |s| ==> s[i] != s[j]
  }

  /** The four containers agree: each registered name is listed once, and has
      a baseline, its own epsilon variable and that variable's absolute term. */
  ghost predicate Valid(reg: Registry)
  {
    && NoDup(reg.names)
    && (forall k :: k in reg.base <==> k in reg.names)
    && reg.epsilons.Keys == reg.base.Keys
    && reg.absolutes.Keys == reg.base.Keys
    && (forall k :: k in reg.epsilons ==> reg.epsilons[k] == Var(k))
    && (forall k :: k in reg.absolutes ==> reg.absolutes[k] == AbsTerm(k))
  }

  lemma {:induction false} RegisterKeepsValid(reg: Registry, es: seq<Entry>)
    requires Valid(reg)
    ensures Valid(RegisterAll(reg, es))
    decreases |es|
  {
    if |es| > 0 {
      RegisterKeepsValid(reg, es[..|es| - 1]);
    }
  }

  /** Registration only adds: earlier names keep their place and every
      container keeps the entries it had, whatever they were. */
  lemma {:induction false} RegisterKeepsExisting(reg: Registry, es: seq<Entry>)
    ensures var r := RegisterAll(reg, es);
      && |reg.names| <= |r.names| && r.names[..|reg.names|] == reg.names
      && r.base.Keys == reg.base.Keys + KeysOf(es)
      && (forall k :: k in reg.base ==> r.base[k] == reg.base[k])
      && (forall k :: k in reg.epsilons ==> k in r.epsilons && r.epsilons[k] == reg.epsilons[k])
      && (forall k :: k in reg.absolutes ==> k in r.absolutes && r.absolutes[k] == reg.absolutes[k])
    decreases |es|
  {
    if |es| > 0 {
      var p := es[..|es| - 1];
      RegisterKeepsExisting(reg, p);
      assert KeysOf(es) == KeysOf(p) + {es[|es| - 1].key} by {
        forall k | k in KeysOf(es) ensures k in KeysOf(p) + {es[|es| - 1].key} {
          var i :| 0 <= i < |es| && es[i].key == k;
          if i < |es| - 1 { assert p[i].key == k; }
        }
        forall k | k in KeysOf(p) ensures k in KeysOf(es) {
          var i :| 0 <= i < |p| && p[i].key == k;
          assert es[i].key == k;
        }
      }
    }
  }

  lemma {:induction false} FirstIndexExtend(es: seq<Entry>, e: Entry, k: string)
    requires k in KeysOf(es)
    ensures k in KeysOf(es + [e]) && FirstIndex(es + [e], k) == FirstIndex(es, k)
    decreases |es|
  {
    var i := FirstIndex(es, k);
    assert (es + [e])[i].key == k;
    if es[0].key != k {
      assert (es + [e])[1..] == es[1..] + [e];
      assert k in KeysOf(es[1..]) by {
        assert es[1..][i - 1].key == k;
      }
      FirstIndexExtend(es[1..], e, k);
    }
  }

  lemma FirstIndexNew(es: seq<Entry>, e: Entry)
    requires e.key !in KeysOf(es)
    ensures e.key in KeysOf(es + [e]) && FirstIndex(es + [e], e.key) == |es|
  {
    assert (es + [e])[|es|].key == e.key;
  }

  /** `r` lists exactly the distinct names declared in `es`, in the order of
      their first declaration, with the value of that declaration as baseline. */
  ghost predicate FirstSeen(es: seq<Entry>, r: Registry)
  {
    && r.base.Keys == KeysOf(es)
    && (forall i :: 0 <= i < |r.names| ==> r.names[i] in KeysOf(es))
    && (forall k :: k in r.base ==> r.base[k] == es[FirstIndex(es, k)].value)
    && (forall i, j :: 0 <= i < j < |r.names| ==>
          FirstIndex(es, r.names[i]) < FirstIndex(es, r.names[j]))
  }

  lemma KeysOfAppend(es: seq<Entry>, e: Entry)
    ensures KeysOf(es + [e]) == KeysOf(es) + {e.key}
  {
    var t := es + [e];
    forall k | k in KeysOf(t) ensures k in KeysOf(es) + {e.key} {
      var i :| 0 <= i < |t| && t[i].key == k;
      if i < |es| { assert es[i].key == k; }
    }
    forall k | k in KeysOf(es) + {e.key} ensures k in KeysOf(t) {
      if k == e.key {
        assert t[|es|].key == k;
      } else {
        var i :| 0 <= i < |es| && es[i].key == k;
        assert t[i].key == k;
      }
    }
  }

  /** A name declared before keeps its first index when an entry is appended. */
  lemma FirstIndexesKept(es: seq<Entry>, e: Entry)
    ensures forall k :: k in KeysOf(es) ==> k in KeysOf(es + [e]) && FirstIndex(es + [e], k) == FirstIndex(es, k)
  {
    forall k | k in KeysOf(es) ensures k in KeysOf(es + [e]) && FirstIndex(es + [e], k) == FirstIndex(es, k) {
      FirstIndexExtend(es, e, k);
    }
  }

  /** Appending a redeclaration changes nothing the registry records. */
  lemma FirstSeenSkip(es: seq<Entry>, e: Entry, r: Registry)
    requires FirstSeen(es, r) && e.key in r.base
    ensures FirstSeen(es + [e], r)
  {
    var t := es + [e];
    KeysOfAppend(es, e);
    FirstIndexesKept(es, e);
    forall k | k in r.base ensures r.base[k] == t[FirstIndex(t, k)].value {
      assert t[FirstIndex(es, k)] == es[FirstIndex(es, k)];
    }
  }

  /** A new name appended to the registration order comes after every earlier
      name in first-declaration order. */
  lemma OrderAdd(es: seq<Entry>, e: Entry, names: seq<string>)
    requires e.key !in KeysOf(es)
    requires forall i :: 0 <= i < |names| ==> names[i] in KeysOf(es)
    requires forall i, j :: 0 <= i < j < |names| ==> FirstIndex(es, names[i]) < FirstIndex(es, names[j])
    ensures forall i :: 0 <= i < |names + [e.key]| ==> (names + [e.key])[i] in KeysOf(es + [e])
    ensures forall i, j :: 0 <= i < j < |names + [e.key]| ==>
      FirstIndex(es + [e], (names + [e.key])[i]) < FirstIndex(es + [e], (names + [e.key])[j])
  {
    var t, n := es + [e], names + [e.key];
    KeysOfAppend(es, e);
    FirstIndexesKept(es, e);
    FirstIndexNew(es, e);
    forall i, j | 0 <= i < j < |n| ensures FirstIndex(t, n[i]) < FirstIndex(t, n[j]) {
      assert n[i] == names[i];
    }
  }

  /** Baselines stay those of first declarations when a new name is added. */
  lemma BaseAdd(es: seq<Entry>, e: Entry, base: map<string, real>)
    requires e.key !in KeysOf(es) && base.Keys == KeysOf(es)
    requires forall k :: k in base ==> base[k] == es[FirstIndex(es, k)].value
    ensures forall k :: k in base[e.key := e.value] ==>
      k in KeysOf(es + [e]) && base[e.key := e.value][k] == (es + [e])[FirstIndex(es + [e], k)].value
  {
    var t := es + [e];
    KeysOfAppend(es, e);
    FirstIndexesKept(es, e);
    FirstIndexNew(es, e);
    forall k | k in base[e.key := e.value] ensures base[e.key := e.value][k] == t[FirstIndex(t, k)].value {
      if k != e.key {
        assert t[FirstIndex(es, k)] == es[FirstIndex(es, k)];
      }
    }
  }

  /** Appending a new name puts it last, after every earlier first declaration. */
  lemma FirstSeenAdd(es: seq<Entry>, e: Entry, r: Registry)
    requires FirstSeen(es, r) && e.key !in r.base
    ensures FirstSeen(es + [e], RegisterEntry(r, e))
  {
    assert RegisterEntry(r, e).names == r.names + [e.key];
    assert RegisterEntry(r, e).base == r.base[e.key := e.value];
    KeysOfAppend(es, e);
    OrderAdd(es, e, r.names);
    BaseAdd(es, e, r.base);
  }

  lemma FirstSeenStep(es: seq<Entry>, e: Entry, r: Registry)
    requires FirstSeen(es, r)
    ensures FirstSeen(es + [e], RegisterEntry(r, e))
  {
    if e.key in r.base {
      FirstSeenSkip(es, e, r);
    } else {
      FirstSeenAdd(es, e, r);
    }
  }

  /** Registration from empty containers: the names are exactly the distinct
      declared names, each once, in the order of their first declaration, and
      each baseline is the value of that first declaration. */
  lemma {:induction false} RegisterFirstSeen(es: seq<Entry>)
    ensures Valid(RegisterAll(Empty, es)) && FirstSeen(es, RegisterAll(Empty, es))
    decreases |es|
  {
    RegisterKeepsValid(Empty, es);
    if |es| > 0 {
      var p, e := es[..|es| - 1], es[|es| - 1];
      assert es == p + [e];
      RegisterFirstSeen(p);
      RegisterKeepsValid(Empty, p);
      FirstSeenStep(p, e, RegisterAll(Empty, p));
    }
  }

  /** The registered names are the declared names, each listed once. */
  lemma RegisteredNames(es: seq<Entry>)
    ensures var r := RegisterAll(Empty, es);
      NoDup(r.names) && (set x | x in r.names) == KeysOf(es)
  {
    RegisterFirstSeen(es);
    var r := RegisterAll(Empty, es);
    forall k | k in KeysOf(es) ensures k in r.names {
      assert k in r.base;
    }
    forall k | k in r.names ensures k in KeysOf(es) {
      var i :| 0 <= i < |r.names| && r.names[i] == k;
    }
  }

  /** The number of registered names is the number of distinct declared names. */
  lemma {:induction false} RegisterCount(es: seq<Entry>)
    ensures |RegisterAll(Empty, es).names| == |KeysOf(es)|
  {
    RegisteredNames(es);
    NoDupCard(RegisterAll(Empty, es).names);
  }

  lemma {:induction false} NoDupCard(s: seq<string>)
    requires NoDup(s)
    ensures |set x | x in s| == |s|
    decreases |s|
  {
    if |s| > 0 {
      var t := s[1..];
      assert NoDup(t);
      NoDupCard(t);
      assert s == [s[0]] + t;
      assert (set x | x in s) == {s[0]} + (set x | x in t);
      assert s[0] !in t;
    }
  }

  lemma RegisterAllSnoc(reg: Registry, es: seq<Entry>, e: Entry)
    ensures RegisterAll(reg, es + [e]) == RegisterEntry(RegisterAll(reg, es), e)
  {
    assert (es + [e])[..|es|] == es;
  }

  lemma EntriesSnoc(ms: seq<Machine>, m: nat)
    requires m < |ms|
    ensures Entries(ms[..m + 1]) == Entries(ms[..m]) + ms[m].tuneableParams
  {
    assert ms[..m + 1][..m] == ms[..m];
  }

  /** `GetParameters`: walks every machine's entries in order and registers each
      name the first time it is seen, filling the four containers passed in. */
  method GetParameters(
    machines: seq<Machine>,
    base0: map<string, real>, names0: seq<string>,
    epsilons0: map<string, Term>, absolutes0: map<string, Term>)
    returns (
      base: map<string, real>, names: seq<string>,
      epsilons: map<string, Term>, absolutes: map<string, Term>)
    ensures Registry(base, names, epsilons, absolutes)
         == RegisterAll(Registry(base0, names0, epsilons0, absolutes0), Entries(machines))
    ensures |names0| <= |names| && names[..|names0|] == names0
    ensures forall k :: k in base0 ==> k in base && base[k] == base0[k]
    ensures forall k :: k in epsilons0 ==> k in epsilons && epsilons[k] == epsilons0[k]
    ensures forall k :: k in absolutes0 ==> k in absolutes && absolutes[k] == absolutes0[k]
  {
    ghost var reg0 := Registry(base0, names0, epsilons0, absolutes0);
    base, names, epsilons, absolutes := base0, names0, epsilons0, absolutes0;
    for m := 0 to |machines|
      invariant Registry(base, names, epsilons, absolutes) == RegisterAll(reg0, Entries(machines[..m]))
    {
      var data := machines[m].tuneableParams;
      ghost var done := Entries(machines[..m]);
      assert done + data[..0] == done;
      for i := 0 to |data|
        invariant Registry(base, names, epsilons, absolutes) == RegisterAll(reg0, done + data[..i])
      {
        var entry := data[i];
        assert done + data[..i + 1] == (done + data[..i]) + [entry];
        RegisterAllSnoc(reg0, done + data[..i], entry);
        if entry.key !in base {
          base := base[entry.key := entry.value];
          names := names + [entry.key];
          absolutes := MapInsert(absolutes, entry.key, AbsTerm(entry.key));
          epsilons := MapInsert(epsilons, entry.key, Var(entry.key));
        }
      }
      EntriesSnoc(machines, m);
      assert data[..|data|] == data;
    }
    assert machines[..|machines|] == machines;
    RegisterKeepsExisting(reg0, Entries(machines));
  }
}
