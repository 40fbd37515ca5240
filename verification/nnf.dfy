/** `NNFTransformer`, `PNNFTransformer` and `FullPNNFTransformer` (visitor.py:134-218) as one
    normaliser with a mode. The three differ only on a negated atom (renamed to its "^-" twin when
    the mode says so) and on `Implication` (kept by NNF, rewritten by the paraconsistent modes).
    An input holding `Equiv` has no normal form: a bare `Equiv` reaches the dispatcher's fallback,
    which raises, and a negated one finds no handler at all; both give `None` here. */
module Nnf {
  import opened Wrappers
  import opened Symbols

  datatype Mode = Classical | Para(incs: seq<string>) | FullPara

  /** `should_rename`: the negated atoms a mode replaces by their twin. */
  predicate Renames(m: Mode, n: string)
  {
    match m
    case Classical => false
    case Para(incs) => n in incs
    case FullPara => true
  }

  /** `atom_renamer`: the name of the atom standing for the negation of `n`. */
  function Twin(n: string): string
  {
    n + "^-"
  }

  /** All children normalised, or `None` as soon as one child has no normal form. */
  function Values(rs: seq<Option<Formula>>): (r: Option<seq<Formula>>)
    ensures r.Some? <==> forall i :: 0 <= i < |rs| ==> rs[i].Some?
    ensures r.Some? ==> |r.value| == |rs| && forall i :: 0 <= i < |rs| ==> r.value[i] == rs[i].value
  {
    if forall i :: 0 <= i < |rs| ==> rs[i].Some? then
      Some(seq(|rs|, i requires 0 <= i < |rs| && rs[i].Some? => rs[i].value))
    else None
  }

  /** Two normalised children give the pair of their normal forms. */
  lemma ValuesPair(x: Formula, y: Formula)
    ensures Values([Some(x), Some(y)]) == Some([x, y])
  {
    var r := Values([Some(x), Some(y)]);
    assert r.Some? && |r.value| == 2 && r.value[0] == x && r.value[1] == y;
    assert r.value == [x, y];
  }

  /** `visit`: the normal form of `f`. */
  function Normalize(m: Mode, f: Formula): Option<Formula>
  {
    match f
    case Atom(_) => Some(f)
    case Not(x) => NormalizeNot(m, x)
    case And(xs) =>
      var ys := Values(seq(|xs|, i requires 0 <= i < |xs| => Normalize(m, xs[i])));
      if ys.Some? then Some(And(ys.value)) else None
    case Or(xs) =>
      var ys := Values(seq(|xs|, i requires 0 <= i < |xs| => Normalize(m, xs[i])));
      if ys.Some? then Some(Or(ys.value)) else None
    case Imply(a, b) =>
      var na, nb := NormalizeNot(m, a), Normalize(m, b);
      if na.Some? && nb.Some? then Some(Or([na.value, nb.value])) else None
    case Implication(a, b) =>
      var na, nb := Normalize(m, a), Normalize(m, b);
      if na.None? || nb.None? then None
      else if m.Classical? then Some(Implication(na.value, nb.value))
      else Some(Or([Not(na.value), nb.value]))
    case Equiv(_, _) => None
  }

  /** `visitNot`: the normal form of `Not(x)`, by the `visitNot*` dispatch on `x`. */
  function NormalizeNot(m: Mode, x: Formula): Option<Formula>
  {
    match x
    case Atom(n) => if Renames(m, n) then Some(Atom(Twin(n))) else Some(Not(x))
    case Not(y) => Normalize(m, y)
    case And(xs) =>
      var ys := Values(seq(|xs|, i requires 0 <= i < |xs| => NormalizeNot(m, xs[i])));
      if ys.Some? then Some(Or(ys.value)) else None
    case Or(xs) =>
      var ys := Values(seq(|xs|, i requires 0 <= i < |xs| => NormalizeNot(m, xs[i])));
      if ys.Some? then Some(And(ys.value)) else None
    case Imply(a, b) =>
      var na, nb := Normalize(m, a), NormalizeNot(m, b);
      if na.Some? && nb.Some? then Some(And([na.value, nb.value])) else None
    case Implication(a, b) =>
      var na, nb := Normalize(m, a), NormalizeNot(m, b);
      if na.Some? && nb.Some? then Some(And([na.value, nb.value])) else None
    case Equiv(_, _) => None
  }

  /** Exactly the `Equiv`-free formulas have a normal form, negated or not. */
  lemma {:induction false} NormalizeDefined(m: Mode, f: Formula)
    ensures Normalize(m, f).Some? <==> EquivFree(f)
    ensures NormalizeNot(m, f).Some? <==> EquivFree(f)
  {
    match f
    case Atom(_) =>
    case Not(x) =>
      NormalizeDefined(m, x);
    case And(xs) =>
      var pos := seq(|xs|, i requires 0 <= i < |xs| => Normalize(m, xs[i]));
      var neg := seq(|xs|, i requires 0 <= i < |xs| => NormalizeNot(m, xs[i]));
      forall i | 0 <= i < |xs| ensures pos[i].Some? == EquivFree(xs[i]) && neg[i].Some? == EquivFree(xs[i]) {
        NormalizeDefined(m, xs[i]);
      }
    case Or(xs) =>
      var pos := seq(|xs|, i requires 0 <= i < |xs| => Normalize(m, xs[i]));
      var neg := seq(|xs|, i requires 0 <= i < |xs| => NormalizeNot(m, xs[i]));
      forall i | 0 <= i < |xs| ensures pos[i].Some? == EquivFree(xs[i]) && neg[i].Some? == EquivFree(xs[i]) {
        NormalizeDefined(m, xs[i]);
      }
    case Imply(a, b) =>
      NormalizeDefined(m, a);
      NormalizeDefined(m, b);
    case Implication(a, b) =>
      NormalizeDefined(m, a);
      NormalizeDefined(m, b);
    case Equiv(_, _) =>
  }

  /** A valuation that gives every renamed atom's twin the opposite value. */
  ghost predicate Coherent(m: Mode, v: string -> bool)
  {
    forall n :: Renames(m, n) ==> v(Twin(n)) == !v(n)
  }

  /** Normalisation keeps the truth value under every coherent valuation (every valuation for NNF),
      and the negated normal form has the opposite value. */
  lemma {:induction false} NormalizeSemantics(m: Mode, v: string -> bool, f: Formula)
    requires Coherent(m, v)
    ensures Normalize(m, f).Some? ==> Eval(v, Normalize(m, f).value) == Eval(v, f)
    ensures NormalizeNot(m, f).Some? ==> Eval(v, NormalizeNot(m, f).value) == !Eval(v, f)
  {
    match f
    case Atom(n) =>
    case Not(x) =>
      NormalizeSemantics(m, v, x);
    case And(xs) =>
      forall i | 0 <= i < |xs| ensures Sound(m, v, xs[i]) {
        NormalizeSemantics(m, v, xs[i]);
      }
      JunctionSemantics(m, v, xs);
    case Or(xs) =>
      forall i | 0 <= i < |xs| ensures Sound(m, v, xs[i]) {
        NormalizeSemantics(m, v, xs[i]);
      }
      JunctionSemantics(m, v, xs);
    case Imply(a, b) =>
      NormalizeSemantics(m, v, a);
      NormalizeSemantics(m, v, b);
      if NormalizeNot(m, a).Some? && Normalize(m, b).Some? {
        EvalPair(v, NormalizeNot(m, a).value, Normalize(m, b).value);
      }
      if Normalize(m, a).Some? && NormalizeNot(m, b).Some? {
        EvalPair(v, Normalize(m, a).value, NormalizeNot(m, b).value);
      }
    case Implication(a, b) =>
      NormalizeSemantics(m, v, a);
      NormalizeSemantics(m, v, b);
      if Normalize(m, a).Some? && Normalize(m, b).Some? {
        EvalPair(v, Not(Normalize(m, a).value), Normalize(m, b).value);
      }
      if Normalize(m, a).Some? && NormalizeNot(m, b).Some? {
        EvalPair(v, Normalize(m, a).value, NormalizeNot(m, b).value);
      }
    case Equiv(_, _) =>
  }

  /** Both normal forms of `f`, where they exist, keep or flip its value under `v`. */
  ghost predicate Sound(m: Mode, v: string -> bool, f: Formula)
  {
    (Normalize(m, f).Some? ==> Eval(v, Normalize(m, f).value) == Eval(v, f)) &&
    (NormalizeNot(m, f).Some? ==> Eval(v, NormalizeNot(m, f).value) == !Eval(v, f))
  }

  /** An `And` or `Or` of children whose normal forms are sound has sound normal forms. */
  lemma JunctionSemantics(m: Mode, v: string -> bool, xs: seq<Formula>)
    requires forall i :: 0 <= i < |xs| ==> Sound(m, v, xs[i])
    ensures Sound(m, v, And(xs)) && Sound(m, v, Or(xs))
  {
    JunctionPositive(m, v, xs);
    JunctionNegative(m, v, xs);
  }

  lemma JunctionPositive(m: Mode, v: string -> bool, xs: seq<Formula>)
    requires forall i :: 0 <= i < |xs| ==> Sound(m, v, xs[i])
    ensures Normalize(m, And(xs)).Some? ==> Eval(v, Normalize(m, And(xs)).value) == Eval(v, And(xs))
    ensures Normalize(m, Or(xs)).Some? ==> Eval(v, Normalize(m, Or(xs)).value) == Eval(v, Or(xs))
  {
    var pos := seq(|xs|, i requires 0 <= i < |xs| => Normalize(m, xs[i]));
    forall i | 0 <= i < |xs|
      ensures pos[i].Some? ==> Eval(v, pos[i].value) == Eval(v, xs[i])
    {
      assert Sound(m, v, xs[i]);
    }
  }

  lemma JunctionNegative(m: Mode, v: string -> bool, xs: seq<Formula>)
    requires forall i :: 0 <= i < |xs| ==> Sound(m, v, xs[i])
    ensures NormalizeNot(m, And(xs)).Some? ==> Eval(v, NormalizeNot(m, And(xs)).value) == !Eval(v, And(xs))
    ensures NormalizeNot(m, Or(xs)).Some? ==> Eval(v, NormalizeNot(m, Or(xs)).value) == !Eval(v, Or(xs))
  {
    var neg := seq(|xs|, i requires 0 <= i < |xs| => NormalizeNot(m, xs[i]));
    forall i | 0 <= i < |xs|
      ensures neg[i].Some? ==> Eval(v, neg[i].value) == !Eval(v, xs[i])
    {
      assert Sound(m, v, xs[i]);
    }
  }

  /** Negation normal form: `Not` only on atoms; `And`, `Or` and `Implication` over normal forms. */
  predicate IsNnf(g: Formula)
  {
    match g
    case Atom(_) => true
    case Not(x) => x.Atom?
    case And(xs) => forall i :: 0 <= i < |xs| ==> IsNnf(xs[i])
    case Or(xs) => forall i :: 0 <= i < |xs| ==> IsNnf(xs[i])
    case Imply(_, _) => false
    case Implication(a, b) => IsNnf(a) && IsNnf(b)
    case Equiv(_, _) => false
  }

  /** Built only from atoms, `Not`, `And` and `Or`: what the paraconsistent modes produce. */
  predicate Basic(g: Formula)
  {
    match g
    case Atom(_) => true
    case Not(x) => Basic(x)
    case And(xs) => forall i :: 0 <= i < |xs| ==> Basic(xs[i])
    case Or(xs) => forall i :: 0 <= i < |xs| ==> Basic(xs[i])
    case Imply(_, _) => false
    case Implication(_, _) => false
    case Equiv(_, _) => false
  }

  /** `to_NNF` gives a negation normal form; the paraconsistent modes give a formula over `Not`,
      `And` and `Or` only. */
  lemma {:induction false} NormalizeShape(m: Mode, f: Formula)
    ensures m.Classical? && Normalize(m, f).Some? ==> IsNnf(Normalize(m, f).value)
    ensures m.Classical? && NormalizeNot(m, f).Some? ==> IsNnf(NormalizeNot(m, f).value)
    ensures !m.Classical? && Normalize(m, f).Some? ==> Basic(Normalize(m, f).value)
    ensures !m.Classical? && NormalizeNot(m, f).Some? ==> Basic(NormalizeNot(m, f).value)
  {
    match f
    case Atom(n) =>
    case Not(x) =>
      NormalizeShape(m, x);
    case And(xs) =>
      forall i | 0 <= i < |xs| {
        NormalizeShape(m, xs[i]);
      }
    case Or(xs) =>
      forall i | 0 <= i < |xs| {
        NormalizeShape(m, xs[i]);
      }
    case Imply(a, b) =>
      NormalizeShape(m, a);
      NormalizeShape(m, b);
    case Implication(a, b) =>
      NormalizeShape(m, a);
      NormalizeShape(m, b);
    case Equiv(_, _) =>
  }

  /** A negation normal form is its own normal form, so `to_NNF` is idempotent. */
  lemma {:induction false} NnfFixpoint(g: Formula)
    requires IsNnf(g)
    ensures Normalize(Classical, g) == Some(g)
  {
    match g
    case Atom(_) =>
    case Not(x) =>
    case And(xs) =>
      forall i | 0 <= i < |xs| ensures Normalize(Classical, xs[i]) == Some(xs[i]) {
        NnfFixpoint(xs[i]);
      }
      assert Values(seq(|xs|, i requires 0 <= i < |xs| => Normalize(Classical, xs[i]))).value == xs;
    case Or(xs) =>
      forall i | 0 <= i < |xs| ensures Normalize(Classical, xs[i]) == Some(xs[i]) {
        NnfFixpoint(xs[i]);
      }
      assert Values(seq(|xs|, i requires 0 <= i < |xs| => Normalize(Classical, xs[i]))).value == xs;
    case Implication(a, b) =>
      NnfFixpoint(a);
      NnfFixpoint(b);
  }

  /** Normalisation never creates an empty `And` or `Or`. */
  lemma {:induction false} NormalizeProper(m: Mode, f: Formula)
    requires Proper(f)
    ensures Normalize(m, f).Some? ==> Proper(Normalize(m, f).value)
    ensures NormalizeNot(m, f).Some? ==> Proper(NormalizeNot(m, f).value)
  {
    match f
    case Atom(n) =>
    case Not(x) =>
      NormalizeProper(m, x);
    case And(xs) =>
      forall i | 0 <= i < |xs| {
        NormalizeProper(m, xs[i]);
      }
    case Or(xs) =>
      forall i | 0 <= i < |xs| {
        NormalizeProper(m, xs[i]);
      }
    case Imply(a, b) =>
      NormalizeProper(m, a);
      NormalizeProper(m, b);
    case Implication(a, b) =>
      NormalizeProper(m, a);
      NormalizeProper(m, b);
    case Equiv(_, _) =>
  }
}
