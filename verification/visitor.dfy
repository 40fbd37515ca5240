/** The simple visitors of visitor.py: atom collection, substitution, And/Or flattening and the
    markup rendering. Python's class-hierarchy dispatch becomes a `match`; a handler registered for
    a category (`visitConnector`, `visitInfixConnector`) becomes one arm per member of the category
    computing the same thing. */
module Visitor {
  import opened Utils
  import opened Symbols
  import opened Rules

  /** `AtomCollector`: atom names, left to right, duplicates kept. */
  function CollectAtoms(f: Formula): seq<string>
  {
    match f
    case Atom(n) => [n]
    case Not(x) => CollectAtoms(x)
    case And(xs) => Flat(seq(|xs|, i requires 0 <= i < |xs| => CollectAtoms(xs[i])))
    case Or(xs) => Flat(seq(|xs|, i requires 0 <= i < |xs| => CollectAtoms(xs[i])))
    case Imply(a, b) => CollectAtoms(a) + CollectAtoms(b)
    case Implication(a, b) => CollectAtoms(a) + CollectAtoms(b)
    case Equiv(a, b) => CollectAtoms(a) + CollectAtoms(b)
  }

  /** The atoms of each child are among the atoms of its parent. */
  lemma ChildAtoms(f: Formula)
    ensures f.Not? ==> CollectAtoms(f.sub) == CollectAtoms(f)
    ensures f.And? || f.Or? ==>
      forall i, n :: 0 <= i < |f.subs| && n in CollectAtoms(f.subs[i]) ==> n in CollectAtoms(f)
    ensures f.Imply? || f.Implication? || f.Equiv? ==>
      forall n :: n in CollectAtoms(f) <==> n in CollectAtoms(f.l) || n in CollectAtoms(f.r)
  {
    if f.And? || f.Or? {
      var parts := seq(|f.subs|, i requires 0 <= i < |f.subs| => CollectAtoms(f.subs[i]));
      assert CollectAtoms(f) == Flat(parts);
      forall i, n | 0 <= i < |f.subs| && n in CollectAtoms(f.subs[i]) ensures n in CollectAtoms(f) {
        FlatMembership(parts, n);
        assert n in parts[i];
      }
    }
  }

  /** The collected atoms are all a formula's truth value depends on. */
  lemma {:induction false} EvalOnlyOnCollected(v1: string -> bool, v2: string -> bool, f: Formula)
    requires forall n :: n in CollectAtoms(f) ==> v1(n) == v2(n)
    ensures Eval(v1, f) == Eval(v2, f)
  {
    ChildAtoms(f);
    match f
    case Atom(n) =>
    case Not(x) =>
      EvalOnlyOnCollected(v1, v2, x);
    case And(xs) =>
      forall i | 0 <= i < |xs| ensures Eval(v1, xs[i]) == Eval(v2, xs[i]) {
        EvalOnlyOnCollected(v1, v2, xs[i]);
      }
    case Or(xs) =>
      forall i | 0 <= i < |xs| ensures Eval(v1, xs[i]) == Eval(v2, xs[i]) {
        EvalOnlyOnCollected(v1, v2, xs[i]);
      }
    case Imply(a, b) =>
      EvalOnlyOnCollected(v1, v2, a);
      EvalOnlyOnCollected(v1, v2, b);
    case Implication(a, b) =>
      EvalOnlyOnCollected(v1, v2, a);
      EvalOnlyOnCollected(v1, v2, b);
    case Equiv(a, b) =>
      EvalOnlyOnCollected(v1, v2, a);
      EvalOnlyOnCollected(v1, v2, b);
  }

  /** `AtomSubstituter.subst_all`: every atom named in `m` is replaced by its image, verbatim and
      without visiting the image again; every other node keeps its class. */
  function SubstAll(f: Formula, m: map<string, Formula>): (r: Formula)
    ensures f.Atom? && f.name in m ==> r == m[f.name]
    ensures f.Atom? && f.name !in m ==> r == f
    ensures !f.Atom? ==> !r.Atom? && ConnectiveOf(r) == ConnectiveOf(f)
    ensures !f.Atom? ==> |Operands(r)| == |Operands(f)|
  {
    match f
    case Atom(n) => if n in m then m[n] else f
    case Not(x) => Not(SubstAll(x, m))
    case And(xs) => And(seq(|xs|, i requires 0 <= i < |xs| => SubstAll(xs[i], m)))
    case Or(xs) => Or(seq(|xs|, i requires 0 <= i < |xs| => SubstAll(xs[i], m)))
    case Imply(a, b) => Imply(SubstAll(a, m), SubstAll(b, m))
    case Implication(a, b) => Implication(SubstAll(a, m), SubstAll(b, m))
    case Equiv(a, b) => Equiv(SubstAll(a, m), SubstAll(b, m))
  }

  /** `AtomSubstituter.subst`: a single-pair substitution. */
  function Subst(f: Formula, name: string, g: Formula): Formula
  {
    SubstAll(f, map[name := g])
  }

  /** The valuation a simultaneous substitution induces: a substituted atom takes the value of its image. */
  function Induced(v: string -> bool, m: map<string, Formula>): string -> bool
  {
    n => if n in m then Eval(v, m[n]) else v(n)
  }

  /** Substitution lemma: the substituted formula's value is the original's value under the induced
      valuation, so every named atom is replaced at once and its image is not substituted into again. */
  lemma {:induction false} SubstAllSemantics(v: string -> bool, f: Formula, m: map<string, Formula>)
    ensures Eval(v, SubstAll(f, m)) == Eval(Induced(v, m), f)
  {
    match f
    case Atom(n) =>
    case Not(x) =>
      SubstAllSemantics(v, x, m);
    case And(xs) =>
      forall i | 0 <= i < |xs| ensures Eval(v, SubstAll(f, m).subs[i]) == Eval(Induced(v, m), xs[i]) {
        SubstAllSemantics(v, xs[i], m);
      }
    case Or(xs) =>
      forall i | 0 <= i < |xs| ensures Eval(v, SubstAll(f, m).subs[i]) == Eval(Induced(v, m), xs[i]) {
        SubstAllSemantics(v, xs[i], m);
      }
    case Imply(a, b) =>
      SubstAllSemantics(v, a, m);
      SubstAllSemantics(v, b, m);
    case Implication(a, b) =>
      SubstAllSemantics(v, a, m);
      SubstAllSemantics(v, b, m);
    case Equiv(a, b) =>
      SubstAllSemantics(v, a, m);
      SubstAllSemantics(v, b, m);
  }

  /** A substitution none of whose names occurs in the formula returns an equal tree. */
  lemma {:induction false} SubstAllNoMatch(f: Formula, m: map<string, Formula>)
    requires forall n :: n in CollectAtoms(f) ==> n !in m
    ensures SubstAll(f, m) == f
  {
    ChildAtoms(f);
    match f
    case Atom(n) =>
    case Not(x) =>
      SubstAllNoMatch(x, m);
    case And(xs) =>
      forall i | 0 <= i < |xs| ensures SubstAll(xs[i], m) == xs[i] {
        SubstAllNoMatch(xs[i], m);
      }
      assert SubstAll(f, m).subs == xs;
    case Or(xs) =>
      forall i | 0 <= i < |xs| ensures SubstAll(xs[i], m) == xs[i] {
        SubstAllNoMatch(xs[i], m);
      }
      assert SubstAll(f, m).subs == xs;
    case Imply(a, b) =>
      SubstAllNoMatch(a, m);
      SubstAllNoMatch(b, m);
    case Implication(a, b) =>
      SubstAllNoMatch(a, m);
      SubstAllNoMatch(b, m);
    case Equiv(a, b) =>
      SubstAllNoMatch(a, m);
      SubstAllNoMatch(b, m);
  }

  /** Lifts the children of an `And` (resp. `Or`) child into the parent; other children stay. */
  function Splice(conj: bool, ys: seq<Formula>): seq<Formula>
  {
    Flat(seq(|ys|, i requires 0 <= i < |ys| => Lifted(conj, ys[i])))
  }

  /** What one child contributes to the spliced list. */
  function Lifted(conj: bool, y: Formula): seq<Formula>
  {
    if (conj && y.And?) || (!conj && y.Or?) then y.subs else [y]
  }

  /** `PlainTransformer`: flattens `And` directly under `And` and `Or` directly under `Or`; every
      other connector is returned as it is, without visiting its children. */
  function ToPlain(f: Formula): Formula
  {
    match f
    case Atom(_) => f
    case And(xs) => And(Splice(true, seq(|xs|, i requires 0 <= i < |xs| => ToPlain(xs[i]))))
    case Or(xs) => Or(Splice(false, seq(|xs|, i requires 0 <= i < |xs| => ToPlain(xs[i]))))
    case Not(_) => f
    case Imply(_, _) => f
    case Implication(_, _) => f
    case Equiv(_, _) => f
  }

  lemma SpliceMembership(conj: bool, ys: seq<Formula>, z: Formula)
    ensures z in Splice(conj, ys) <==>
      exists i :: 0 <= i < |ys| &&
        (if (conj && ys[i].And?) || (!conj && ys[i].Or?) then z in ys[i].subs else z == ys[i])
  {
    var parts := seq(|ys|, i requires 0 <= i < |ys| => Lifted(conj, ys[i]));
    FlatMembership(parts, z);
    if exists i :: 0 <= i < |ys| && z in parts[i] {
      var i :| 0 <= i < |ys| && z in parts[i];
      assert (if (conj && ys[i].And?) || (!conj && ys[i].Or?) then z in ys[i].subs else z == ys[i]);
    }
    if exists i :: 0 <= i < |ys| &&
        (if (conj && ys[i].And?) || (!conj && ys[i].Or?) then z in ys[i].subs else z == ys[i]) {
      var i :| 0 <= i < |ys| &&
        (if (conj && ys[i].And?) || (!conj && ys[i].Or?) then z in ys[i].subs else z == ys[i]);
      assert z in parts[i];
    }
  }

  /** After flattening no `And` sits directly under an `And` and no `Or` directly under an `Or`,
      and the flattening is idempotent. */
  lemma {:induction false} ToPlainFlat(f: Formula)
    ensures ToPlain(f).And? ==> forall z :: z in ToPlain(f).subs ==> !z.And? && ToPlain(z) == z
    ensures ToPlain(f).Or? ==> forall z :: z in ToPlain(f).subs ==> !z.Or? && ToPlain(z) == z
    ensures ToPlain(ToPlain(f)) == ToPlain(f)
  {
    match f
    case And(xs) =>
      var ys := seq(|xs|, i requires 0 <= i < |xs| => ToPlain(xs[i]));
      var zs := Splice(true, ys);
      forall i | 0 <= i < |xs| {
        ToPlainFlat(xs[i]);
      }
      forall z | z in zs ensures !z.And? && ToPlain(z) == z {
        SpliceMembership(true, ys, z);
      }
      PlainFixedSplice(true, zs);
    case Or(xs) =>
      var ys := seq(|xs|, i requires 0 <= i < |xs| => ToPlain(xs[i]));
      var zs := Splice(false, ys);
      forall i | 0 <= i < |xs| {
        ToPlainFlat(xs[i]);
      }
      forall z | z in zs ensures !z.Or? && ToPlain(z) == z {
        SpliceMembership(false, ys, z);
      }
      PlainFixedSplice(false, zs);
    case _ =>
  }

  /** Splicing a list that holds no node of the spliced class changes nothing. */
  lemma PlainFixedSplice(conj: bool, zs: seq<Formula>)
    requires forall z :: z in zs ==> ToPlain(z) == z && (if conj then !z.And? else !z.Or?)
    ensures Splice(conj, seq(|zs|, i requires 0 <= i < |zs| => ToPlain(zs[i]))) == zs
  {
    var ys := seq(|zs|, i requires 0 <= i < |zs| => ToPlain(zs[i]));
    assert ys == zs;
    SpliceSingletons(conj, zs);
  }

  lemma {:induction false} SpliceSingletons(conj: bool, zs: seq<Formula>)
    requires forall z :: z in zs ==> (if conj then !z.And? else !z.Or?)
    ensures Splice(conj, zs) == zs
  {
    if |zs| > 0 {
      SpliceSingletons(conj, zs[1..]);
      var parts := seq(|zs|, i requires 0 <= i < |zs| => Lifted(conj, zs[i]));
      var restParts := seq(|zs[1..]|, i requires 0 <= i < |zs[1..]| => Lifted(conj, zs[1..][i]));
      assert parts[1..] == restParts;
      assert parts[0] == [zs[0]];
      assert zs == [zs[0]] + zs[1..];
    }
  }

  /** Flattening keeps the truth value. */
  lemma {:induction false} ToPlainSemantics(v: string -> bool, f: Formula)
    ensures Eval(v, ToPlain(f)) == Eval(v, f)
  {
    match f
    case And(xs) =>
      var ys := seq(|xs|, i requires 0 <= i < |xs| => ToPlain(xs[i]));
      forall i | 0 <= i < |xs| ensures Eval(v, ys[i]) == Eval(v, xs[i]) {
        ToPlainSemantics(v, xs[i]);
      }
      SpliceConjunction(v, xs, ys);
    case Or(xs) =>
      var ys := seq(|xs|, i requires 0 <= i < |xs| => ToPlain(xs[i]));
      forall i | 0 <= i < |xs| ensures Eval(v, ys[i]) == Eval(v, xs[i]) {
        ToPlainSemantics(v, xs[i]);
      }
      SpliceDisjunction(v, xs, ys);
    case _ =>
  }

  /** Splicing the conjunctions among children equivalent to `xs` keeps the conjunction's value. */
  lemma SpliceConjunction(v: string -> bool, xs: seq<Formula>, ys: seq<Formula>)
    requires |ys| == |xs| && forall i :: 0 <= i < |xs| ==> Eval(v, ys[i]) == Eval(v, xs[i])
    ensures Eval(v, And(Splice(true, ys))) == Eval(v, And(xs))
  {
    var zs := Splice(true, ys);
    if Eval(v, And(xs)) {
      forall j | 0 <= j < |zs| ensures Eval(v, zs[j]) {
        SpliceMembership(true, ys, zs[j]);
      }
    }
    if Eval(v, And(zs)) {
      forall i | 0 <= i < |xs| ensures Eval(v, xs[i]) {
        if ys[i].And? {
          forall k | 0 <= k < |ys[i].subs| ensures Eval(v, ys[i].subs[k]) {
            SpliceMembership(true, ys, ys[i].subs[k]);
            var j :| 0 <= j < |zs| && zs[j] == ys[i].subs[k];
          }
        } else {
          SpliceMembership(true, ys, ys[i]);
          var j :| 0 <= j < |zs| && zs[j] == ys[i];
        }
      }
    }
  }

  /** Splicing the disjunctions among children equivalent to `xs` keeps the disjunction's value. */
  lemma SpliceDisjunction(v: string -> bool, xs: seq<Formula>, ys: seq<Formula>)
    requires |ys| == |xs| && forall i :: 0 <= i < |xs| ==> Eval(v, ys[i]) == Eval(v, xs[i])
    ensures Eval(v, Or(Splice(false, ys))) == Eval(v, Or(xs))
  {
    var zs := Splice(false, ys);
    if Eval(v, Or(zs)) {
      var j :| 0 <= j < |zs| && Eval(v, zs[j]);
      SpliceMembership(false, ys, zs[j]);
    }
    if Eval(v, Or(xs)) {
      var i :| 0 <= i < |xs| && Eval(v, xs[i]);
      if ys[i].Or? {
        var k :| 0 <= k < |ys[i].subs| && Eval(v, ys[i].subs[k]);
        SpliceMembership(false, ys, ys[i].subs[k]);
      } else {
        SpliceMembership(false, ys, ys[i]);
      }
    }
  }

  /** `LaTeXTransformer`: every node is wrapped in braces; infix children are joined by the markup
      symbol with no spaces; a prefix connector puts its symbol before the child. */
  function ToLatex(f: Formula): string
  {
    match f
    case Atom(n) => "{" + n + "}"
    case Not(x) => "{" + LatexSymbol(CNot) + ToLatex(x) + "}"
    case And(xs) => LatexInfix(CAnd, LatexEach(xs))
    case Or(xs) => LatexInfix(COr, LatexEach(xs))
    case Imply(a, b) => LatexInfix(CImply, [ToLatex(a), ToLatex(b)])
    case Implication(a, b) => LatexInfix(CImplication, [ToLatex(a), ToLatex(b)])
    case Equiv(a, b) => LatexInfix(CEquiv, [ToLatex(a), ToLatex(b)])
  }

  /** The markup of a list of children, in order. */
  function LatexEach(xs: seq<Formula>): (r: seq<string>)
    ensures |r| == |xs|
    ensures forall i :: 0 <= i < |xs| ==> r[i] == ToLatex(xs[i])
  {
    seq(|xs|, i requires 0 <= i < |xs| => ToLatex(xs[i]))
  }

  function LatexInfix(c: Connective, parts: seq<string>): string
  {
    "{" + Join(LatexSymbol(c), parts) + "}"
  }

  /** `visitDefaultRule`: `\frac{pre:jus}cons`. */
  function LatexRule(d: DefaultRule): string
  {
    "\\frac{" + ToLatex(d.pre) + ":" + ToLatex(d.jus) + "}" + ToLatex(d.cons)
  }

  /** `visitPropositionalLogic`: the asserted formulas as `\{f1, f2\}`. */
  function LatexTheory(formulas: seq<Formula>): string
  {
    "\\{" + Join(", ", seq(|formulas|, i requires 0 <= i < |formulas| => ToLatex(formulas[i]))) + "\\}"
  }

  /** `visitDefaultLogic`: `(\{d1, d2\}, W)`. */
  function LatexDefaultTheory(rules: seq<DefaultRule>, facts: seq<Formula>): string
  {
    "(\\{" + Join(", ", seq(|rules|, i requires 0 <= i < |rules| => LatexRule(rules[i]))) + "\\}, "
      + LatexTheory(facts) + ")"
  }
}
