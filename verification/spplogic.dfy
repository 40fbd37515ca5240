/** `SPPLogic` (plogic.py:128-173): a theory read paraconsistently. Its formulas are only recorded;
    reasoning compiles them, through `PNNFTransformer` under the current list of inconsistent atoms,
    into a classical store, and keeps the last compiled store in a cache. */
module SppLogic {
  import opened Wrappers
  import opened Utils
  import opened Symbols
  import opened Visitor
  import opened Nnf
  import opened Cnf
  import opened PLogic

  /** `_cached_theory`: the inconsistent list and the formulas a store was compiled from. */
  datatype Cache = Cache(incs: seq<string>, formulas: seq<Formula>, theory: Store)

  datatype Spp = Spp(formulas: seq<Formula>, atoms: AtomMap, incs: seq<string>, cache: Cache)

  /** A fresh `SPPLogic()`: no formulas, no inconsistent atoms, the empty store cached. */
  const Fresh: Spp := Spp([], map[], [], Cache([], [], Empty))

  /** `add`: record the formula and register its atoms; nothing is compiled yet. */
  function AddFormula(s: Spp, f: Formula): (r: Spp)
    ensures r.formulas == s.formulas + [f] && r.incs == s.incs && r.cache == s.cache
    ensures Extends(r.atoms, s.atoms) && forall n :: n in r.atoms <==> n in s.atoms || n in CollectAtoms(f)
  {
    s.(formulas := s.formulas + [f], atoms := AddAtoms(s.atoms, CollectAtoms(f)))
  }

  /** `set_inconsistents`. */
  function SetInconsistents(s: Spp, incs: seq<string>): Spp
  {
    s.(incs := incs)
  }

  /** The PNNF of every formula, or `None` when one of them has none. */
  function NormalizeAll(incs: seq<string>, fs: seq<Formula>): (r: Option<seq<Formula>>)
    ensures r.Some? <==> forall i :: 0 <= i < |fs| ==> EquivFree(fs[i])
    ensures r.Some? ==> (|r.value| == |fs| &&
      forall i :: 0 <= i < |fs| ==> Normalize(Para(incs), fs[i]) == Some(r.value[i]))
  {
    forall i | 0 <= i < |fs| {
      NormalizeDefined(Para(incs), fs[i]);
    }
    var rs := seq(|fs|, i requires 0 <= i < |fs| => Normalize(Para(incs), fs[i]));
    assert forall i :: 0 <= i < |fs| ==> rs[i] == Normalize(Para(incs), fs[i]);
    Values(rs)
  }

  /** The compile step of `_make_theory`: `CPLogic` over the PNNF forms. A formula holding `Equiv`
      makes it raise (a bare `Equiv` raises in the transformer, a negated one leaves a `None` that
      `CPLogic.add` cannot visit), given as `None`. */
  function Compile(incs: seq<string>, fs: seq<Formula>): (r: Option<Store>)
    ensures r.Some? <==> forall i :: 0 <= i < |fs| ==> EquivFree(fs[i])
  {
    var n := NormalizeAll(incs, fs);
    if n.None? then None else Some(FromFormulas(n.value))
  }

  /** The cached store is the compilation of what it was compiled from. */
  predicate CacheValid(s: Spp)
  {
    Compile(s.cache.incs, s.cache.formulas) == Some(s.cache.theory)
  }

  /** `_make_theory`: the cached store when both the inconsistent list and the formulas are the
      cached ones, otherwise a fresh compilation, which is then cached. */
  function MakeTheory(s: Spp): (r: (Option<Store>, Spp))
  {
    if s.incs == s.cache.incs && s.formulas == s.cache.formulas then (Some(s.cache.theory), s)
    else
      var t := Compile(s.incs, s.formulas);
      if t.None? then (None, s) else (t, s.(cache := Cache(s.incs, s.formulas, t.value)))
  }

  lemma FreshCacheValid()
    ensures CacheValid(Fresh)
  {
  }

  /** The cache is transparent: a hit returns exactly what compiling afresh would, and the cache
      stays valid while nothing else changes. */
  lemma MakeTheoryFresh(s: Spp)
    requires CacheValid(s)
    ensures var r := MakeTheory(s);
      r.0 == Compile(s.incs, s.formulas) && CacheValid(r.1) &&
      r.1.formulas == s.formulas && r.1.atoms == s.atoms && r.1.incs == s.incs
  {
  }

  /** The formulas whose PNNF is the bare `None` of an unhandled negated `Equiv` rather than an
      exception: `Not(Equiv(..))`, and `Not(Not(g))` for such a `g`. */
  predicate Vanishes(f: Formula)
  {
    f.Not? && (f.sub.Equiv? || (f.sub.Not? && Vanishes(f.sub.sub)))
  }

  lemma {:induction false} VanishesNotEquivFree(f: Formula)
    requires Vanishes(f)
    ensures !EquivFree(f)
  {
    if !f.sub.Equiv? {
      VanishesNotEquivFree(f.sub.sub);
    }
  }

  /** `sat(formula)`: the answer, `None` where the source raises, and the state with the cache
      updated. A query whose PNNF is the bare `None` reaches `CPLogic.sat` as no query at all. */
  function SppSat(s: Spp, q: Option<Formula>): (r: (Option<bool>, Spp))
  {
    var (t, s') := MakeTheory(s);
    if t.None? then (None, s')
    else match q
      case None => (Some(Sat(t.value, None).0), s')
      case Some(f) =>
        var g := Normalize(Para(s.incs), f);
        if g.Some? then (Some(Sat(t.value, g).0), s')
        else if Vanishes(f) then (Some(Sat(t.value, None).0), s')
        else (None, s')
  }

  /** `entail(formula)`: here even a vanishing query raises, inside `CPLogic.entail`. */
  function SppEntail(s: Spp, f: Formula): (r: (Option<bool>, Spp))
  {
    var (t, s') := MakeTheory(s);
    var g := Normalize(Para(s.incs), f);
    if t.None? || g.None? then (None, s') else (Some(Entail(t.value, g.value)), s')
  }

  /** A query that is true under `v`; no query at all asks nothing. */
  ghost predicate Holds(v: string -> bool, g: Option<Formula>)
  {
    g.Some? ==> Eval(v, g.value)
  }

  predicate AllProper(fs: seq<Formula>)
  {
    forall i :: 0 <= i < |fs| ==> Proper(fs[i])
  }

  lemma NormalizeAllProper(incs: seq<string>, fs: seq<Formula>)
    requires AllProper(fs) && NormalizeAll(incs, fs).Some?
    ensures AllProper(NormalizeAll(incs, fs).value)
  {
    forall i | 0 <= i < |fs| ensures Proper(NormalizeAll(incs, fs).value[i]) {
      NormalizeProper(Para(incs), fs[i]);
    }
  }

  /** The compiled store represents the PNNF forms of the formulas. */
  lemma CompileRepresents(incs: seq<string>, fs: seq<Formula>)
    requires AllProper(fs) && Compile(incs, fs).Some?
    ensures Represents(Compile(incs, fs).value) && Compile(incs, fs).value.formulas == NormalizeAll(incs, fs).value
  {
    NormalizeAllProper(incs, fs);
    FromFormulasRepresents(NormalizeAll(incs, fs).value);
  }

  /** `sat` answers exactly when every formula, and the query unless it vanishes, is free of
      `Equiv`; the answer is whether some valuation makes the PNNF forms of the formulas and of the
      query true. */
  lemma SppSatMeaning(s: Spp, q: Option<Formula>)
    requires CacheValid(s) && AllProper(s.formulas) && (q.Some? ==> Proper(q.value))
    ensures var r := SppSat(s, q).0;
      (r.Some? <==> (forall i :: 0 <= i < |s.formulas| ==> EquivFree(s.formulas[i])) &&
                    (q.Some? ==> EquivFree(q.value) || Vanishes(q.value))) &&
      (r.Some? ==> (r.value <==> exists v :: (Models(v, NormalizeAll(s.incs, s.formulas).value) &&
         (q.Some? ==> Holds(v, Normalize(Para(s.incs), q.value))))))
  {
    MakeTheoryFresh(s);
    if Compile(s.incs, s.formulas).Some? {
      CompileRepresents(s.incs, s.formulas);
      var t := Compile(s.incs, s.formulas).value;
      match q
      case None =>
        SatMeaning(t, None);
      case Some(f) =>
        NormalizeDefined(Para(s.incs), f);
        if EquivFree(f) {
          NormalizeProper(Para(s.incs), f);
          SatMeaning(t, Normalize(Para(s.incs), f));
        } else {
          SatMeaning(t, None);
        }
    }
  }

  /** `entail` answers exactly when the formulas and the query are free of `Equiv`; the answer is
      whether every valuation making the PNNF forms of the formulas true makes the query's true. */
  lemma SppEntailMeaning(s: Spp, f: Formula)
    requires CacheValid(s) && AllProper(s.formulas) && Proper(f)
    ensures var r := SppEntail(s, f).0;
      (r.Some? <==> (forall i :: 0 <= i < |s.formulas| ==> EquivFree(s.formulas[i])) && EquivFree(f)) &&
      (r.Some? ==> (r.value <==> forall v :: Models(v, NormalizeAll(s.incs, s.formulas).value) ==>
         Eval(v, Normalize(Para(s.incs), f).value)))
  {
    MakeTheoryFresh(s);
    var t := Compile(s.incs, s.formulas);
    var g := Normalize(Para(s.incs), f);
    NormalizeDefined(Para(s.incs), f);
    assert SppEntail(s, f).0 == if t.None? || g.None? then None else Some(Entail(t.value, g.value));
    if t.Some? && g.Some? {
      CompiledEntail(s.incs, s.formulas, f);
    }
  }

  /** The compiled store entails the PNNF form of the query exactly when every valuation making
      the PNNF forms of the formulas true makes it true. */
  lemma CompiledEntail(incs: seq<string>, fs: seq<Formula>, f: Formula)
    requires AllProper(fs) && Proper(f) && EquivFree(f) && Compile(incs, fs).Some?
    ensures Normalize(Para(incs), f).Some?
    ensures Entail(Compile(incs, fs).value, Normalize(Para(incs), f).value) <==>
      forall v :: Models(v, NormalizeAll(incs, fs).value) ==> Eval(v, Normalize(Para(incs), f).value)
  {
    NormalizeDefined(Para(incs), f);
    CompileRepresents(incs, fs);
    NormalizeProper(Para(incs), f);
    EntailMeaning(Compile(incs, fs).value, Normalize(Para(incs), f).value);
  }

  /** Under a valuation that gives each renamed atom's twin the opposite value, the PNNF forms have
      the formulas' own truth values. */
  lemma ModelsNormalized(v: string -> bool, incs: seq<string>, fs: seq<Formula>)
    requires Coherent(Para(incs), v) && NormalizeAll(incs, fs).Some?
    ensures Models(v, NormalizeAll(incs, fs).value) <==> Models(v, fs)
  {
    var n := NormalizeAll(incs, fs).value;
    forall i | 0 <= i < |fs| ensures Eval(v, n[i]) == Eval(v, fs[i]) {
      NormalizeSemantics(Para(incs), v, fs[i]);
    }
  }

  /** With no inconsistent atom, the PNNF of `f` and of its negation exist, have the clauses
      `to_CNF` gives `f` and its negation, and mention the same atoms in the same order. */
  ghost predicate ClausesKept(f: Formula)
  {
    Normalize(Para([]), f).Some? && NormalizeNot(Para([]), f).Some? &&
    var g, h := Normalize(Para([]), f).value, NormalizeNot(Para([]), f).value;
    Clauses(g) == Clauses(f) && NegClauses(g) == NegClauses(f) && CollectAtoms(g) == CollectAtoms(f) &&
    Clauses(h) == NegClauses(f) && NegClauses(h) == Clauses(f) && CollectAtoms(h) == CollectAtoms(f)
  }

  /** Normalising without inconsistent atoms changes no clause of `to_CNF` and no atom. */
  lemma {:induction false} PlainNormalClauses(f: Formula)
    requires EquivFree(f)
    ensures ClausesKept(f)
    decreases f
  {
    match f
    case Atom(_) =>
    case Not(x) =>
      PlainNormalClauses(x);
    case And(xs) =>
      forall i | 0 <= i < |xs| ensures ClausesKept(xs[i]) {
        PlainNormalClauses(xs[i]);
      }
      ChildrenKept(xs);
    case Or(xs) =>
      forall i | 0 <= i < |xs| ensures ClausesKept(xs[i]) {
        PlainNormalClauses(xs[i]);
      }
      ChildrenKept(xs);
    case Imply(a, b) =>
      PlainNormalClauses(a);
      PlainNormalClauses(b);
      ImplyKept(a, b);
    case Implication(a, b) =>
      PlainNormalClauses(a);
      PlainNormalClauses(b);
      ImplicationKept(a, b);
  }

  /** The step for `And` and `Or`. */
  lemma ChildrenKept(xs: seq<Formula>)
    requires forall i :: 0 <= i < |xs| ==> ClausesKept(xs[i])
    ensures ClausesKept(And(xs)) && ClausesKept(Or(xs))
  {
    var ys := Values(seq(|xs|, i requires 0 <= i < |xs| => Normalize(Para([]), xs[i]))).value;
    var zs := Values(seq(|xs|, i requires 0 <= i < |xs| => NormalizeNot(Para([]), xs[i]))).value;
    assert seq(|ys|, i requires 0 <= i < |ys| => Clauses(ys[i])) == seq(|xs|, i requires 0 <= i < |xs| => Clauses(xs[i]));
    assert seq(|ys|, i requires 0 <= i < |ys| => NegClauses(ys[i])) == seq(|xs|, i requires 0 <= i < |xs| => NegClauses(xs[i]));
    assert seq(|ys|, i requires 0 <= i < |ys| => CollectAtoms(ys[i])) == seq(|xs|, i requires 0 <= i < |xs| => CollectAtoms(xs[i]));
    assert seq(|zs|, i requires 0 <= i < |zs| => Clauses(zs[i])) == seq(|xs|, i requires 0 <= i < |xs| => NegClauses(xs[i]));
    assert seq(|zs|, i requires 0 <= i < |zs| => NegClauses(zs[i])) == seq(|xs|, i requires 0 <= i < |xs| => Clauses(xs[i]));
    assert seq(|zs|, i requires 0 <= i < |zs| => CollectAtoms(zs[i])) == seq(|xs|, i requires 0 <= i < |xs| => CollectAtoms(xs[i]));
  }

  /** The clauses, negated clauses and atoms of a two-child `Or` or `And`. */
  lemma PairForms(x: Formula, y: Formula)
    ensures Clauses(Or([x, y])) == Distribute([Clauses(x), Clauses(y)])
    ensures NegClauses(Or([x, y])) == NegClauses(x) + NegClauses(y)
    ensures Clauses(And([x, y])) == Clauses(x) + Clauses(y)
    ensures NegClauses(And([x, y])) == Distribute([NegClauses(x), NegClauses(y)])
    ensures CollectAtoms(Or([x, y])) == CollectAtoms(x) + CollectAtoms(y)
    ensures CollectAtoms(And([x, y])) == CollectAtoms(x) + CollectAtoms(y)
  {
    FlatPair(NegClauses(x), NegClauses(y));
    FlatPair(Clauses(x), Clauses(y));
    FlatPair(CollectAtoms(x), CollectAtoms(y));
    assert seq(2, i requires 0 <= i < 2 => Clauses([x, y][i])) == [Clauses(x), Clauses(y)];
    assert seq(2, i requires 0 <= i < 2 => NegClauses([x, y][i])) == [NegClauses(x), NegClauses(y)];
    assert seq(2, i requires 0 <= i < 2 => CollectAtoms([x, y][i])) == [CollectAtoms(x), CollectAtoms(y)];
  }

  /** The step for `Imply`. */
  lemma ImplyKept(a: Formula, b: Formula)
    requires ClausesKept(a) && ClausesKept(b)
    ensures ClausesKept(Imply(a, b))
  {
    var na, nb := NormalizeNot(Para([]), a).value, Normalize(Para([]), b).value;
    var ma, mb := Normalize(Para([]), a).value, NormalizeNot(Para([]), b).value;
    ValuesPair(na, nb);
    ValuesPair(ma, mb);
    PairForms(na, nb);
    PairForms(ma, mb);
  }

  /** The step for `Implication`, which the paraconsistent form writes as `!a | b`. */
  lemma ImplicationKept(a: Formula, b: Formula)
    requires ClausesKept(a) && ClausesKept(b)
    ensures ClausesKept(Implication(a, b))
  {
    var na, nb := Not(Normalize(Para([]), a).value), Normalize(Para([]), b).value;
    var ma, mb := Normalize(Para([]), a).value, NormalizeNot(Para([]), b).value;
    ValuesPair(na, nb);
    ValuesPair(ma, mb);
    PairForms(na, nb);
    PairForms(ma, mb);
  }

  /** With no inconsistent atoms `sat` answers as `CPLogic.sat` over the same formulas: the PNNF
      changes no clause and no atom, so the compiled store is `CPLogic`'s own. */
  lemma NoInconsistentsSat(s: Spp, q: Option<Formula>)
    requires CacheValid(s) && s.incs == []
    requires forall i :: 0 <= i < |s.formulas| ==> EquivFree(s.formulas[i])
    requires q.Some? ==> EquivFree(q.value)
    ensures SppSat(s, q).0 == Some(Sat(FromFormulas(s.formulas), q).0)
  {
    var t := FromFormulas(s.formulas);
    var n := NormalizeAll([], s.formulas).value;
    NoInconsistentsStore(s.formulas);
    MakeTheoryFresh(s);
    assert MakeTheory(s).0 == Some(t.(formulas := n));
    if q.Some? {
      PlainNormalClauses(q.value);
      var g := Normalize(Para([]), q.value).value;
      SatSameClauses(t, n, q.value, g);
      assert SppSat(s, q).0 == Some(Sat(t.(formulas := n), Some(g)).0);
    } else {
      assert SppSat(s, q).0 == Some(Sat(t.(formulas := n), None).0);
    }
  }

  /** With no inconsistent atoms `entail` answers as `CPLogic.entail` over the same formulas. */
  lemma NoInconsistentsEntail(s: Spp, f: Formula)
    requires CacheValid(s) && s.incs == []
    requires forall i :: 0 <= i < |s.formulas| ==> EquivFree(s.formulas[i])
    requires EquivFree(f)
    ensures SppEntail(s, f).0 == Some(Entail(FromFormulas(s.formulas), f))
  {
    var t := FromFormulas(s.formulas);
    var n := NormalizeAll([], s.formulas).value;
    NoInconsistentsStore(s.formulas);
    MakeTheoryFresh(s);
    PlainNormalClauses(f);
    var g := Normalize(Para([]), f).value;
    EntailSameClauses(t, n, f, g);
    EntailCompiled(s, f, t.(formulas := n), g);
  }

  /** `entail` asks the compiled store the query's PNNF. */
  lemma EntailCompiled(s: Spp, f: Formula, c: Store, g: Formula)
    requires MakeTheory(s).0 == Some(c) && Normalize(Para(s.incs), f) == Some(g)
    ensures SppEntail(s, f).0 == Some(Entail(c, g))
  {
  }

  /** With no inconsistent atom, the compiled store is `CPLogic`'s store of the same formulas, but
      for the formulas it records. */
  lemma NoInconsistentsStore(fs: seq<Formula>)
    requires forall i :: 0 <= i < |fs| ==> EquivFree(fs[i])
    ensures Compile([], fs) == Some(FromFormulas(fs).(formulas := NormalizeAll([], fs).value))
  {
    var n := NormalizeAll([], fs).value;
    forall i | 0 <= i < |fs| ensures Clauses(n[i]) == Clauses(fs[i]) && CollectAtoms(n[i]) == CollectAtoms(fs[i]) {
      PlainNormalClauses(fs[i]);
    }
    SameClausesStore(fs, n);
  }
}
