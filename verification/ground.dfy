/** The ground logic a default theory reasons in (`DefaultLogic.ground_logic`, dlogic.py:27-46):
    either the classical `CPLogic` or the paraconsistent `SPPLogic`. Both keep a list of
    formulas and answer `add`, `sat` and `entail`; this module gives them one interface and one
    reading, so that the default-logic layer is modelled and proved once for both. */
module Grounds {
  import opened Wrappers
  import opened Symbols
  import opened Nnf
  import PLogic
  import SppLogic

  datatype Ground = Classic(store: PLogic.Store) | Paraconsistent(spp: SppLogic.Spp)

  /** A fresh instance of each ground logic. */
  const FreshClassical: Ground := Classic(PLogic.Empty)
  const FreshParaconsistent: Ground := Paraconsistent(SppLogic.Fresh)

  /** How a formula is read: as written, or in positive normal form with the given atoms glutted. */
  datatype Reading = Plain | Glut(incs: seq<string>)

  function ReadingOf(g: Ground): Reading
  {
    match g
    case Classic(_) => Plain
    case Paraconsistent(s) => Glut(s.incs)
  }

  function Formulas(g: Ground): seq<Formula>
  {
    match g
    case Classic(s) => s.formulas
    case Paraconsistent(s) => s.formulas
  }

  /** `f` is true under `v` in reading `rd`. A formula whose positive normal form is the bare
      `None` of a negated `Equiv` asks nothing, as `SPPLogic.sat` treats it. */
  ghost predicate Holds(rd: Reading, v: string -> bool, f: Formula)
  {
    match rd
    case Plain => Eval(v, f)
    case Glut(incs) => SppLogic.Holds(v, Normalize(Para(incs), f))
  }

  ghost predicate ModelOf(rd: Reading, v: string -> bool, fs: seq<Formula>)
  {
    forall i :: 0 <= i < |fs| ==> Holds(rd, v, fs[i])
  }

  /** Semantic consequence and consistency in a reading. */
  ghost predicate Follows(rd: Reading, fs: seq<Formula>, f: Formula)
  {
    forall v :: ModelOf(rd, v, fs) ==> Holds(rd, v, f)
  }

  ghost predicate Consistent(rd: Reading, fs: seq<Formula>, q: Option<Formula>)
  {
    exists v :: ModelOf(rd, v, fs) && (q.Some? ==> Holds(rd, v, q.value))
  }

  /** What the paraconsistent ground needs to answer at all: every formula has a positive normal
      form and the cached compilation is the compilation of what it records. */
  predicate Usable(g: Ground)
  {
    match g
    case Classic(_) => true
    case Paraconsistent(s) =>
      SppLogic.CacheValid(s) && forall i :: 0 <= i < |s.formulas| ==> EquivFree(s.formulas[i])
  }

  /** A formula the ground can add and be asked to entail without raising. */
  predicate Accepts(g: Ground, f: Formula)
  {
    g.Classic? || EquivFree(f)
  }

  /** A `sat` query the ground answers without raising: a vanishing query is dropped. */
  predicate SatAccepts(g: Ground, q: Option<Formula>)
  {
    q.None? || g.Classic? || EquivFree(q.value) || SppLogic.Vanishes(q.value)
  }

  /** What the meaning lemmas need: the classical store represents its formulas, the
      paraconsistent one is usable, and every formula is well formed. */
  ghost predicate Healthy(g: Ground)
  {
    match g
    case Classic(s) => PLogic.Represents(s)
    case Paraconsistent(s) => Usable(g) && SppLogic.AllProper(s.formulas)
  }

  /** `add(formula)`. */
  function Add(g: Ground, f: Formula): (r: Ground)
    ensures Formulas(r) == Formulas(g) + [f]
    ensures ReadingOf(r) == ReadingOf(g) && r.Classic? == g.Classic?
    ensures Usable(g) && Accepts(g, f) ==> Usable(r)
  {
    match g
    case Classic(s) => Classic(PLogic.Add(s, f))
    case Paraconsistent(s) => Paraconsistent(SppLogic.AddFormula(s, f))
  }

  /** `sat(formula=None)`. The cache update of the paraconsistent ground is not kept: the answer
      never depends on the cache while it is valid (`SppLogic.MakeTheoryFresh`). */
  function Sat(g: Ground, q: Option<Formula>): bool
    requires Usable(g) && SatAccepts(g, q)
  {
    match g
    case Classic(s) => PLogic.Sat(s, q).0
    case Paraconsistent(s) =>
      Answers(s, q, Atom(""));
      SppLogic.SppSat(s, q).0.value
  }

  /** `entail(formula)`. */
  function Entail(g: Ground, f: Formula): bool
    requires Usable(g) && Accepts(g, f)
  {
    match g
    case Classic(s) => PLogic.Entail(s, f)
    case Paraconsistent(s) =>
      Answers(s, None, f);
      SppLogic.SppEntail(s, f).0.value
  }

  /** The paraconsistent ground answers every accepted query. */
  lemma Answers(s: SppLogic.Spp, q: Option<Formula>, f: Formula)
    requires Usable(Paraconsistent(s))
    ensures SatAccepts(Paraconsistent(s), q) ==> SppLogic.SppSat(s, q).0.Some?
    ensures EquivFree(f) ==> SppLogic.SppEntail(s, f).0.Some?
  {
    SppLogic.MakeTheoryFresh(s);
    NormalizeDefined(Para(s.incs), f);
    if q.Some? {
      NormalizeDefined(Para(s.incs), q.value);
    }
  }

  lemma FreshHealthy()
    ensures Healthy(FreshClassical) && Healthy(FreshParaconsistent)
    ensures Usable(FreshClassical) && Usable(FreshParaconsistent)
    ensures Formulas(FreshClassical) == [] && Formulas(FreshParaconsistent) == []
  {
    PLogic.FromFormulasRepresents([]);
    SppLogic.FreshCacheValid();
  }

  lemma AddHealthy(g: Ground, f: Formula)
    requires Healthy(g) && Proper(f) && Accepts(g, f)
    ensures Healthy(Add(g, f))
  {
    match g
    case Classic(s) =>
      PLogic.AddRepresents(s, f);
    case Paraconsistent(s) =>
  }

  /** The positive normal forms have a model exactly when the formulas have one in the glut reading. */
  lemma NormalizedModels(incs: seq<string>, fs: seq<Formula>, v: string -> bool)
    requires SppLogic.NormalizeAll(incs, fs).Some?
    ensures PLogic.Models(v, SppLogic.NormalizeAll(incs, fs).value) <==> ModelOf(Glut(incs), v, fs)
  {
    var n := SppLogic.NormalizeAll(incs, fs).value;
    if PLogic.Models(v, n) {
      forall i | 0 <= i < |fs| ensures Holds(Glut(incs), v, fs[i]) {
        assert Eval(v, n[i]);
      }
    }
    if ModelOf(Glut(incs), v, fs) {
      forall i | 0 <= i < |n| ensures Eval(v, n[i]) {
        assert Holds(Glut(incs), v, fs[i]);
      }
    }
  }

  lemma PlainModels(fs: seq<Formula>, v: string -> bool)
    ensures PLogic.Models(v, fs) <==> ModelOf(Plain, v, fs)
  {
  }

  /** `sat` decides consistency of the formulas with the query. */
  lemma SatMeaning(g: Ground, q: Option<Formula>)
    requires Healthy(g) && Usable(g) && SatAccepts(g, q) && (q.Some? ==> Proper(q.value))
    ensures Sat(g, q) == Consistent(ReadingOf(g), Formulas(g), q)
  {
    match g
    case Classic(s) =>
      PLogic.SatMeaning(s, q);
      if Sat(g, q) {
        var v :| PLogic.Models(v, s.formulas) && (q.Some? ==> Eval(v, q.value));
        assert ModelOf(Plain, v, s.formulas) && (q.Some? ==> Holds(Plain, v, q.value));
      }
      if Consistent(Plain, s.formulas, q) {
        var v :| ModelOf(Plain, v, s.formulas) && (q.Some? ==> Holds(Plain, v, q.value));
        assert PLogic.Models(v, s.formulas) && (q.Some? ==> Eval(v, q.value));
      }
    case Paraconsistent(s) =>
      SppLogic.SppSatMeaning(s, q);
      var rd := Glut(s.incs);
      if Sat(g, q) {
        var v :| PLogic.Models(v, SppLogic.NormalizeAll(s.incs, s.formulas).value) &&
          (q.Some? ==> SppLogic.Holds(v, Normalize(Para(s.incs), q.value)));
        NormalizedModels(s.incs, s.formulas, v);
        assert ModelOf(rd, v, s.formulas) && (q.Some? ==> Holds(rd, v, q.value));
      }
      if Consistent(rd, s.formulas, q) {
        var v :| ModelOf(rd, v, s.formulas) && (q.Some? ==> Holds(rd, v, q.value));
        NormalizedModels(s.incs, s.formulas, v);
        assert PLogic.Models(v, SppLogic.NormalizeAll(s.incs, s.formulas).value) &&
          (q.Some? ==> SppLogic.Holds(v, Normalize(Para(s.incs), q.value)));
      }
  }

  /** `entail` decides consequence. */
  lemma EntailMeaning(g: Ground, f: Formula)
    requires Healthy(g) && Usable(g) && Accepts(g, f) && Proper(f)
    ensures Entail(g, f) == Follows(ReadingOf(g), Formulas(g), f)
  {
    match g
    case Classic(s) =>
      ClassicEntailMeaning(s, f);
    case Paraconsistent(s) =>
      ParaEntailMeaning(s, f);
  }

  lemma ClassicEntailMeaning(s: PLogic.Store, f: Formula)
    requires PLogic.Represents(s) && Proper(f)
    ensures PLogic.Entail(s, f) == Follows(Plain, s.formulas, f)
  {
    PLogic.EntailMeaning(s, f);
    if PLogic.Entail(s, f) {
      forall v | ModelOf(Plain, v, s.formulas) ensures Holds(Plain, v, f) {
        assert PLogic.Models(v, s.formulas);
      }
    } else {
      var v :| PLogic.Models(v, s.formulas) && !Eval(v, f);
      assert ModelOf(Plain, v, s.formulas) && !Holds(Plain, v, f);
    }
  }

  lemma ParaEntailMeaning(s: SppLogic.Spp, f: Formula)
    requires Healthy(Paraconsistent(s)) && EquivFree(f) && Proper(f)
    ensures Entail(Paraconsistent(s), f) == Follows(Glut(s.incs), s.formulas, f)
  {
    SppLogic.SppEntailMeaning(s, f);
    var rd := Glut(s.incs);
    var n := SppLogic.NormalizeAll(s.incs, s.formulas).value;
    var g := Normalize(Para(s.incs), f);
    NormalizeDefined(Para(s.incs), f);
    if Entail(Paraconsistent(s), f) {
      forall v | ModelOf(rd, v, s.formulas) ensures Holds(rd, v, f) {
        NormalizedModels(s.incs, s.formulas, v);
        assert Eval(v, g.value);
      }
    } else {
      var v :| PLogic.Models(v, n) && !Eval(v, g.value);
      NormalizedModels(s.incs, s.formulas, v);
      assert ModelOf(rd, v, s.formulas) && !Holds(rd, v, f);
    }
  }

  /** More formulas, fewer models: consequence is monotone and consistency anti-monotone. */
  lemma Monotone(rd: Reading, fs: seq<Formula>, gs: seq<Formula>, f: Formula, q: Option<Formula>)
    requires forall i :: 0 <= i < |fs| ==> fs[i] in gs
    ensures Follows(rd, fs, f) ==> Follows(rd, gs, f)
    ensures Consistent(rd, gs, q) ==> Consistent(rd, fs, q)
  {
    forall v | ModelOf(rd, v, gs) ensures ModelOf(rd, v, fs) {
      forall i | 0 <= i < |fs| ensures Holds(rd, v, fs[i]) {
        var j :| 0 <= j < |gs| && gs[j] == fs[i];
      }
    }
  }
}
