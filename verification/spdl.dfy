/** The paraconsistent default logics of spdl.py. A theory is kept twice: as written (`base`, the
    `DefaultLogic` part of the object) and, possibly transformed, in a classical-search default
    logic `cdl` (`_cdl`). Extensions are searched over candidate lists of inconsistent atoms,
    smallest first; a candidate is tried on a copy of `cdl` adjusted for it, and contributes the
    extensions whose ground is consistent and in which every candidate atom can take a
    non-classical value. Two variants adjust `cdl` differently:
    - `SPDLogic` reads the theory in `SPPLogic` with the candidate atoms declared inconsistent;
    - `AnotherSPDLogic` keeps `CPLogic`, stores every formula in full positive normal form (every
      negated atom `!a` becomes the atom `a^-`) and forces `a` and `a^-` to take opposite values
      for every atom `a` outside the candidate. */
module Spdl {
  import opened Wrappers
  import opened Symbols
  import opened Utils
  import opened Subsets
  import opened Rules
  import opened Grounds
  import opened Nnf
  import opened Visitor
  import DLogic
  import MinimalSets
  import SppLogic

  /** `SPDLogic` (the candidate atoms glutted in the paraconsistent ground) or `AnotherSPDLogic`
      (classical ground, atoms outside the candidate asserted classical). */
  datatype Variant = Glutted | Asserted

  // ---------------------------------------------------------------------------------------------
  // The formulas the search builds

  /** "`x` is a glut or a gap": `x|!x =) x&!x`. */
  function TesterOf(x: Formula): Formula
  {
    Implication(Or([x, Not(x)]), And([x, Not(x)]))
  }

  /** `inc_tester`: the formula the text `p|!p =) p&!p` parses to. */
  const IncTester: Formula := TesterOf(Atom("p"))

  /** `classic_assert`: the formula the text `p <-> !q` parses to. */
  const ClassicAssert: Formula := Equiv(Atom("p"), Not(Atom("q")))

  /** `_transform_formula`: the identity for `SPDLogic`; `to_FullPNNF` for `AnotherSPDLogic`, which
      raises on a formula holding `Equiv` (`None` here). */
  function Transform(v: Variant, f: Formula): (r: Option<Formula>)
    ensures r.Some? <==> v.Glutted? || EquivFree(f)
    ensures v.Glutted? ==> r == Some(f)
  {
    NormalizeDefined(FullPara, f);
    match v
    case Glutted => Some(f)
    case Asserted => Normalize(FullPara, f)
  }

  /** Substituting an atom for `p` in the tester gives the tester of that atom. */
  lemma SubstTester(a: string)
    ensures Subst(IncTester, "p", Atom(a)) == TesterOf(Atom(a))
  {
    var m := map["p" := Atom(a)];
    var xs := [Atom("p"), Not(Atom("p"))];
    assert SubstAll(Atom("p"), m) == Atom(a);
    assert SubstAll(Not(Atom("p")), m) == Not(Atom(a));
    assert seq(|xs|, i requires 0 <= i < |xs| => SubstAll(xs[i], m)) == [Atom(a), Not(Atom(a))];
    assert SubstAll(Or(xs), m) == Or([Atom(a), Not(Atom(a))]);
    assert SubstAll(And(xs), m) == And([Atom(a), Not(Atom(a))]);
  }

  /** The tester of `a` in a paraconsistent normal form that renames `a`: the outer `Not` the
      rewrite of `=)` introduces stays in place. */
  function NormalTester(a: string): Formula
  {
    Or([Not(Or([Atom(a), Atom(Twin(a))])), And([Atom(a), Atom(Twin(a))])])
  }

  lemma TesterNormal(m: Mode, a: string)
    requires Renames(m, a) && !m.Classical?
    ensures Normalize(m, TesterOf(Atom(a))) == Some(NormalTester(a))
  {
    var xs := [Atom(a), Not(Atom(a))];
    assert Normalize(m, Not(Atom(a))) == Some(Atom(Twin(a)));
    assert seq(|xs|, i requires 0 <= i < |xs| => Normalize(m, xs[i])) == [Some(Atom(a)), Some(Atom(Twin(a)))];
    ValuesPair(Atom(a), Atom(Twin(a)));
  }

  lemma TesterForms(a: string)
    ensures EquivFree(TesterOf(Atom(a))) && Proper(TesterOf(Atom(a)))
    ensures EquivFree(NormalTester(a)) && Proper(NormalTester(a))
  {
    var xs := [Atom(a), Not(Atom(a))];
    assert EquivFree(xs[0]) && EquivFree(xs[1]) && Proper(xs[0]) && Proper(xs[1]);
    var ys := [Atom(a), Atom(Twin(a))];
    assert EquivFree(ys[0]) && EquivFree(ys[1]) && Proper(ys[0]) && Proper(ys[1]);
    var zs := [Not(Or(ys)), And(ys)];
    assert EquivFree(zs[0]) && EquivFree(zs[1]) && Proper(zs[0]) && Proper(zs[1]);
  }

  /** `_make_tester(atom)`: the tester for `a`, transformed. */
  function MakeTester(v: Variant, a: string): (r: Formula)
    ensures EquivFree(r) && Proper(r)
  {
    SubstTester(a);
    TesterNormal(FullPara, a);
    TesterForms(a);
    var t := Subst(IncTester, "p", Atom(a));
    match v
    case Glutted => t
    case Asserted => Transform(v, t).value
  }

  /** The tester says that `a` does not take a classical value: in `SPDLogic`, read with `a`
      inconsistent, it holds exactly when `a` and its twin `a^-` are both true or both false; in
      `AnotherSPDLogic` the transformed tester says the same classically. */
  lemma TesterMeaning(a: string, incs: seq<string>, val: string -> bool)
    requires a in incs
    ensures Holds(Glut(incs), val, MakeTester(Glutted, a)) <==> val(a) == val(Twin(a))
    ensures Holds(Plain, val, MakeTester(Asserted, a)) <==> val(a) == val(Twin(a))
  {
    SubstTester(a);
    TesterNormal(Para(incs), a);
    TesterNormal(FullPara, a);
    var ys := [Atom(a), Atom(Twin(a))];
    EvalPair(val, ys[0], ys[1]);
    EvalPair(val, Not(Or(ys)), And(ys));
  }

  /** `_make_assert(atom_name)`: `classic_assert` with `p` and `q` replaced, at once, by the
      transforms of `a` and of `!a`. */
  function MakeAssert(a: string): (r: Formula)
    ensures Proper(r) && CollectAtoms(r) == [a, Twin(a)]
  {
    var p := Transform(Asserted, Atom(a)).value;
    var q := Transform(Asserted, Not(Atom(a))).value;
    AssertForm(a);
    SubstAll(ClassicAssert, map["p" := p, "q" := q])
  }

  lemma AssertForm(a: string)
    ensures SubstAll(ClassicAssert, map["p" := Transform(Asserted, Atom(a)).value, "q" := Transform(Asserted, Not(Atom(a))).value]) ==
      Equiv(Atom(a), Not(Atom(Twin(a))))
    ensures Proper(Equiv(Atom(a), Not(Atom(Twin(a))))) && CollectAtoms(Equiv(Atom(a), Not(Atom(Twin(a))))) == [a, Twin(a)]
  {
    assert Normalize(FullPara, Not(Atom(a))) == Some(Atom(Twin(a)));
    assert CollectAtoms(Not(Atom(Twin(a)))) == [Twin(a)];
  }

  /** The assert forces `a` and its twin to take opposite values, that is, `a^-` to mean `!a`. */
  lemma AssertMeaning(a: string, val: string -> bool)
    ensures Holds(Plain, val, MakeAssert(a)) <==> val(a) != val(Twin(a))
  {
    AssertForm(a);
    var f := Equiv(Atom(a), Not(Atom(Twin(a))));
    assert MakeAssert(a) == f;
    assert Eval(val, f) == (Eval(val, Atom(a)) == Eval(val, Not(Atom(Twin(a)))));
    assert Eval(val, Atom(a)) == val(a) && Eval(val, Not(Atom(Twin(a)))) == !val(Twin(a));
  }

  /** The full positive normal form keeps the truth value wherever every twin means the negation of
      its atom, and is built from atoms with `Not`, `And` and `Or` only. */
  lemma TransformSemantics(f: Formula, val: string -> bool)
    requires EquivFree(f) && Coherent(FullPara, val)
    ensures Eval(val, Transform(Asserted, f).value) == Eval(val, f)
    ensures Basic(Transform(Asserted, f).value)
  {
    NormalizeSemantics(FullPara, val, f);
    NormalizeShape(FullPara, f);
  }

  // ---------------------------------------------------------------------------------------------
  // The state and its updates

  /** `base` is the theory as written (`self.d`, `self.w`), `cdl` the transformed one the search
      runs on (`self._cdl`), `atoms` every atom name met so far (`self.atoms`). */
  datatype Spdl = Spdl(variant: Variant, base: DLogic.DefaultLogic, cdl: DLogic.DefaultLogic, atoms: seq<string>)

  /** `ground_logic` of each variant. */
  function GroundOf(v: Variant): Ground
  {
    match v
    case Glutted => FreshParaconsistent
    case Asserted => FreshClassical
  }

  /** What the search needs: `cdl` lives in the variant's ground and can be searched without the
      ground raising, and `atoms` has no repeats. */
  predicate Ok(s: Spdl)
  {
    s.cdl.w.Classic? == s.variant.Asserted? && DLogic.Admissible(s.cdl) && NoDuplicates(s.atoms)
  }

  /** `reset` on a fresh object of the variant. */
  function Fresh(v: Variant): (r: Spdl)
    ensures Ok(r) && r.variant == v && r.atoms == []
    ensures r.cdl.d == [] && Formulas(r.cdl.w) == [] && r.base.d == [] && Formulas(r.base.w) == []
  {
    FreshHealthy();
    var t := DLogic.DefaultLogic([], GroundOf(v));
    Spdl(v, t, t, [])
  }

  /** `reset`: back to a fresh object of the same variant. */
  function Reset(s: Spdl): (r: Spdl)
    ensures Ok(r) && r.variant == s.variant && r.atoms == [] && r.cdl.d == [] && Formulas(r.cdl.w) == []
  {
    Fresh(s.variant)
  }

  /** `add_fact`: the fact as written goes to `base`, its atoms to `atoms` and its transform to
      `cdl`. `AnotherSPDLogic` raises on a fact holding `Equiv`. */
  function AddFact(s: Spdl, f: Formula): (r: Spdl)
    requires s.variant.Asserted? ==> EquivFree(f)
    ensures r.variant == s.variant && r.cdl.d == s.cdl.d && r.base.d == s.base.d
    ensures Formulas(r.base.w) == Formulas(s.base.w) + [f]
    ensures Formulas(r.cdl.w) == Formulas(s.cdl.w) + [Transform(s.variant, f).value]
    ensures s.atoms <= r.atoms && forall n :: n in r.atoms <==> n in s.atoms || n in CollectAtoms(f)
    ensures Ok(s) && Accepts(s.cdl.w, f) ==> Ok(r)
  {
    var g := Transform(s.variant, f).value;
    s.(base := DLogic.AddFact(s.base, f), cdl := DLogic.AddFact(s.cdl, g), atoms := Update(s.atoms, CollectAtoms(f)).0)
  }

  /** The rule with each of its formulas transformed. */
  function TransformRule(v: Variant, rule: DefaultRule): DefaultRule
    requires v.Asserted? ==> EquivFree(rule.pre) && EquivFree(rule.jus) && EquivFree(rule.cons)
  {
    DefaultRule(Transform(v, rule.pre).value, Transform(v, rule.jus).value, Transform(v, rule.cons).value)
  }

  /** A rule the ground can search with: `CPDLogic` entails its prerequisite and consequent and
      tests its justification with `sat`. */
  predicate RuleAccepted(g: Ground, rule: DefaultRule)
  {
    Accepts(g, rule.pre) && SatAccepts(g, Some(rule.jus)) && Accepts(g, rule.cons)
  }

  /** `add_rule`: the rule as written goes to `base`, the atoms of its prerequisite, justification
      and consequent (in that order) to `atoms`, and the transformed rule to `cdl`. */
  function AddRule(s: Spdl, rule: DefaultRule): (r: Spdl)
    requires s.variant.Asserted? ==> EquivFree(rule.pre) && EquivFree(rule.jus) && EquivFree(rule.cons)
    ensures r.variant == s.variant && r.cdl.w == s.cdl.w && r.base.w == s.base.w
    ensures r.base.d == s.base.d + [rule] && r.cdl.d == s.cdl.d + [TransformRule(s.variant, rule)]
    ensures s.atoms <= r.atoms
    ensures forall n :: n in r.atoms <==>
      n in s.atoms || n in CollectAtoms(rule.pre) || n in CollectAtoms(rule.jus) || n in CollectAtoms(rule.cons)
    ensures Ok(s) && RuleAccepted(s.cdl.w, rule) ==> Ok(r)
  {
    var a1 := Update(s.atoms, CollectAtoms(rule.pre)).0;
    var a2 := Update(a1, CollectAtoms(rule.jus)).0;
    var a3 := Update(a2, CollectAtoms(rule.cons)).0;
    s.(base := DLogic.AddRule(s.base, rule), cdl := DLogic.AddRule(s.cdl, TransformRule(s.variant, rule)), atoms := a3)
  }

  /** An input to the theory: `add_fact(f)` or `add_rule(rule)`. */
  datatype Input = Fact(f: Formula) | Rule(rule: DefaultRule)

  /** The atom names an input mentions, in the order `_update_atoms` meets them. */
  function Mentions(i: Input): seq<string>
  {
    match i
    case Fact(f) => CollectAtoms(f)
    case Rule(d) => CollectAtoms(d.pre) + CollectAtoms(d.jus) + CollectAtoms(d.cons)
  }

  function MentionsAll(inputs: seq<Input>): seq<string>
  {
    if |inputs| == 0 then [] else MentionsAll(inputs[..|inputs| - 1]) + Mentions(inputs[|inputs| - 1])
  }

  /** The variant does not raise on the input. */
  predicate Allowed(v: Variant, i: Input)
  {
    v.Glutted? ||
    match i
    case Fact(f) => EquivFree(f)
    case Rule(d) => EquivFree(d.pre) && EquivFree(d.jus) && EquivFree(d.cons)
  }

  function Apply(s: Spdl, i: Input): Spdl
    requires Allowed(s.variant, i)
  {
    match i
    case Fact(f) => AddFact(s, f)
    case Rule(d) => AddRule(s, d)
  }

  /** A fresh object of the variant fed the inputs in order. */
  function Build(v: Variant, inputs: seq<Input>): (r: Spdl)
    requires forall k :: 0 <= k < |inputs| ==> Allowed(v, inputs[k])
    ensures r.variant == v
  {
    if |inputs| == 0 then Fresh(v) else Apply(Build(v, inputs[..|inputs| - 1]), inputs[|inputs| - 1])
  }

  lemma AppendThree(xs: seq<string>, a: seq<string>, b: seq<string>, c: seq<string>)
    ensures xs + a + b + c == xs + (a + b + c)
  {
  }

  /** `atoms` lists every atom name of the facts and rules fed in, once each, in the order of
      first occurrence. */
  lemma {:induction false} BuildAtoms(v: Variant, inputs: seq<Input>)
    requires forall k :: 0 <= k < |inputs| ==> Allowed(v, inputs[k])
    ensures FirstOccurrences(Build(v, inputs).atoms, MentionsAll(inputs))
  {
    if |inputs| > 0 {
      var prefix := inputs[..|inputs| - 1];
      var last := inputs[|inputs| - 1];
      BuildAtoms(v, prefix);
      var s := Build(v, prefix);
      var seen := MentionsAll(prefix);
      match last
      case Fact(f) =>
        UpdateFirstOccurrences(s.atoms, seen, CollectAtoms(f));
      case Rule(d) =>
        var a1 := Update(s.atoms, CollectAtoms(d.pre)).0;
        var a2 := Update(a1, CollectAtoms(d.jus)).0;
        UpdateFirstOccurrences(s.atoms, seen, CollectAtoms(d.pre));
        UpdateFirstOccurrences(a1, seen + CollectAtoms(d.pre), CollectAtoms(d.jus));
        UpdateFirstOccurrences(a2, seen + CollectAtoms(d.pre) + CollectAtoms(d.jus), CollectAtoms(d.cons));
        AppendThree(seen, CollectAtoms(d.pre), CollectAtoms(d.jus), CollectAtoms(d.cons));
    }
  }

  /** The ground of the variant can search with the input. */
  predicate Searchable(v: Variant, i: Input)
  {
    match i
    case Fact(f) => Accepts(GroundOf(v), f)
    case Rule(d) => RuleAccepted(GroundOf(v), d)
  }

  /** Inputs the ground can search with keep the object searchable. */
  lemma {:induction false} BuildOk(v: Variant, inputs: seq<Input>)
    requires forall k :: 0 <= k < |inputs| ==> Allowed(v, inputs[k]) && Searchable(v, inputs[k])
    ensures Ok(Build(v, inputs))
  {
    if |inputs| > 0 {
      var prefix := inputs[..|inputs| - 1];
      BuildOk(v, prefix);
      var s := Build(v, prefix);
      assert s.cdl.w.Classic? == GroundOf(v).Classic?;
    }
  }

  /** Every formula of the input is well formed. */
  predicate ProperInput(i: Input)
  {
    match i
    case Fact(f) => Proper(f)
    case Rule(d) => Proper(d.pre) && Proper(d.jus) && Proper(d.cons)
  }

  lemma TransformProper(v: Variant, f: Formula)
    requires Proper(f) && (v.Asserted? ==> EquivFree(f))
    ensures Proper(Transform(v, f).value)
  {
    NormalizeProper(FullPara, f);
  }

  /** Well-formed inputs the ground can search with give a theory the meaning lemmas apply to. */
  lemma {:induction false} BuildWellFormed(v: Variant, inputs: seq<Input>)
    requires forall k :: 0 <= k < |inputs| ==> Allowed(v, inputs[k]) && Searchable(v, inputs[k]) && ProperInput(inputs[k])
    ensures Ok(Build(v, inputs)) && DLogic.WellFormed(Build(v, inputs).cdl)
  {
    BuildOk(v, inputs);
    if |inputs| > 0 {
      var prefix := inputs[..|inputs| - 1];
      BuildWellFormed(v, prefix);
      ApplyWellFormed(Build(v, prefix), inputs[|inputs| - 1]);
    }
  }

  /** One well-formed input the ground can search with keeps the theory well formed. */
  lemma ApplyWellFormed(s: Spdl, i: Input)
    requires Ok(s) && DLogic.WellFormed(s.cdl)
    requires Allowed(s.variant, i) && Searchable(s.variant, i) && ProperInput(i)
    ensures DLogic.WellFormed(Apply(s, i).cdl)
  {
    match i
    case Fact(f) => FactWellFormed(s, f);
    case Rule(d) => RuleWellFormed(s, d);
  }

  lemma FactWellFormed(s: Spdl, f: Formula)
    requires Ok(s) && DLogic.WellFormed(s.cdl) && Allowed(s.variant, Fact(f))
    requires Accepts(GroundOf(s.variant), f) && Proper(f)
    ensures DLogic.WellFormed(AddFact(s, f).cdl)
  {
    var g := Transform(s.variant, f).value;
    TransformProper(s.variant, f);
    assert Accepts(s.cdl.w, g);
    AddHealthy(s.cdl.w, g);
    assert AddFact(s, f).cdl == s.cdl.(w := Grounds.Add(s.cdl.w, g));
  }

  lemma RuleWellFormed(s: Spdl, d: DefaultRule)
    requires Ok(s) && DLogic.WellFormed(s.cdl) && Allowed(s.variant, Rule(d))
    requires Proper(d.pre) && Proper(d.jus) && Proper(d.cons)
    ensures DLogic.WellFormed(AddRule(s, d).cdl)
  {
    TransformProper(s.variant, d.pre);
    TransformProper(s.variant, d.jus);
    TransformProper(s.variant, d.cons);
    var t := AddRule(s, d).cdl;
    assert t.d == s.cdl.d + [TransformRule(s.variant, d)];
    forall k | 0 <= k < |t.d| ensures Proper(t.d[k].pre) && Proper(t.d[k].jus) && Proper(t.d[k].cons) {
      if k < |s.cdl.d| {
        assert t.d[k] == s.cdl.d[k];
      }
    }
  }

  // ---------------------------------------------------------------------------------------------
  // Candidate theories

  /** The atoms of `atoms` left out of the candidate `incs`, in order. */
  function Outside(atoms: seq<string>, incs: seq<string>): (r: seq<string>)
    ensures forall n :: n in r <==> n in atoms && n !in incs
  {
    Filter(n => n !in incs, atoms)
  }

  /** The classic assertion of each name, in order. */
  function Asserts(names: seq<string>): (r: seq<Formula>)
    ensures |r| == |names| && forall k :: 0 <= k < |names| ==> r[k] == MakeAssert(names[k])
  {
    seq(|names|, k requires 0 <= k < |names| => MakeAssert(names[k]))
  }

  /** `cdl.add_fact(self._make_assert(name))` for each name in order. */
  function AddAsserts(t: DLogic.DefaultLogic, names: seq<string>): (r: DLogic.DefaultLogic)
    ensures r.d == t.d && ReadingOf(r.w) == ReadingOf(t.w) && r.w.Classic? == t.w.Classic?
    ensures Formulas(r.w) == Formulas(t.w) + Asserts(names)
    ensures t.w.Classic? ==> DLogic.Admissible(r)
  {
    if |names| == 0 then t
    else
      var init := names[..|names| - 1];
      AssertsSnoc(names);
      DLogic.AddFact(AddAsserts(t, init), MakeAssert(names[|names| - 1]))
  }

  lemma AssertsSnoc(names: seq<string>)
    requires |names| > 0
    ensures Asserts(names) == Asserts(names[..|names| - 1]) + [MakeAssert(names[|names| - 1])]
  {
    var init := names[..|names| - 1];
    var r := Asserts(init) + [MakeAssert(names[|names| - 1])];
    assert forall k :: 0 <= k < |names| ==> r[k] == MakeAssert(names[k]) by {
      forall k | 0 <= k < |names| ensures r[k] == MakeAssert(names[k]) {
        if k < |init| {
          assert r[k] == Asserts(init)[k];
        }
      }
    }
  }

  lemma {:induction false} AddAssertsWellFormed(t: DLogic.DefaultLogic, names: seq<string>)
    requires DLogic.WellFormed(t) && t.w.Classic?
    ensures DLogic.WellFormed(AddAsserts(t, names))
  {
    if |names| > 0 {
      var init := names[..|names| - 1];
      AddAssertsWellFormed(t, init);
      AddHealthy(AddAsserts(t, init).w, MakeAssert(names[|names| - 1]));
    }
  }

  /** `_make_classic_default_logic(incs)`: `SPDLogic` reads the copy of `cdl` with the atoms of
      `incs` glutted; `AnotherSPDLogic` asserts every other atom of the theory classic. */
  function MakeCdl(s: Spdl, incs: seq<string>): (r: DLogic.DefaultLogic)
    requires Ok(s)
    ensures DLogic.Admissible(r) && r.d == s.cdl.d && r.w.Classic? == s.variant.Asserted?
    ensures ReadingOf(r.w) == (if s.variant.Glutted? then Glut(incs) else Plain)
    ensures s.variant.Glutted? ==> Formulas(r.w) == Formulas(s.cdl.w)
    ensures s.variant.Asserted? ==> Formulas(r.w) == Formulas(s.cdl.w) + Asserts(Outside(s.atoms, incs))
  {
    match s.variant
    case Glutted => s.cdl.(w := Paraconsistent(SppLogic.SetInconsistents(s.cdl.w.spp, incs)))
    case Asserted => AddAsserts(s.cdl, Outside(s.atoms, incs))
  }

  lemma MakeCdlWellFormed(s: Spdl, incs: seq<string>)
    requires Ok(s) && DLogic.WellFormed(s.cdl)
    ensures DLogic.WellFormed(MakeCdl(s, incs))
  {
    if s.variant.Asserted? {
      AddAssertsWellFormed(s.cdl, Outside(s.atoms, incs));
    }
  }

  lemma ModelOfAppend(rd: Reading, val: string -> bool, xs: seq<Formula>, ys: seq<Formula>)
    ensures ModelOf(rd, val, xs + ys) <==> ModelOf(rd, val, xs) && ModelOf(rd, val, ys)
  {
    if ModelOf(rd, val, xs) && ModelOf(rd, val, ys) {
      forall i | 0 <= i < |xs + ys| ensures Holds(rd, val, (xs + ys)[i]) {
        if i >= |xs| {
          assert (xs + ys)[i] == ys[i - |xs|];
        }
      }
    }
    if ModelOf(rd, val, xs + ys) {
      forall i | 0 <= i < |xs| ensures Holds(rd, val, xs[i]) {
        assert (xs + ys)[i] == xs[i];
      }
      forall i | 0 <= i < |ys| ensures Holds(rd, val, ys[i]) {
        assert (xs + ys)[i + |xs|] == ys[i];
      }
    }
  }

  /** Adding the classic assertions of `names` keeps exactly the models in which each of them
      differs from its twin. */
  lemma AssertsModels(fs: seq<Formula>, names: seq<string>, val: string -> bool)
    ensures ModelOf(Plain, val, fs + Asserts(names)) <==>
      ModelOf(Plain, val, fs) && forall n :: n in names ==> val(n) != val(Twin(n))
  {
    ModelOfAppend(Plain, val, fs, Asserts(names));
    forall k | 0 <= k < |names| ensures Holds(Plain, val, Asserts(names)[k]) <==> val(names[k]) != val(Twin(names[k])) {
      AssertMeaning(names[k], val);
    }
  }

  /** The candidate theory of `AnotherSPDLogic` has the models of the theory in which every atom
      outside `incs` is classic. */
  lemma MakeCdlModels(s: Spdl, incs: seq<string>, val: string -> bool)
    requires Ok(s) && s.variant.Asserted?
    ensures ModelOf(Plain, val, Formulas(MakeCdl(s, incs).w)) <==>
      ModelOf(Plain, val, Formulas(s.cdl.w)) && forall n :: n in s.atoms && n !in incs ==> val(n) != val(Twin(n))
  {
    AssertsModels(Formulas(s.cdl.w), Outside(s.atoms, incs), val);
  }

  // ---------------------------------------------------------------------------------------------
  // The search

  /** `extension.sat()`. */
  predicate IsSat(e: Ground)
  {
    Usable(e) && Grounds.Sat(e, None)
  }

  /** Every tester of `incs` is satisfiable with the extension: the inner `for atom in incs` loop
      runs to its end. */
  predicate PassesTesters(v: Variant, incs: seq<string>, e: Ground)
  {
    Usable(e) && forall k :: 0 <= k < |incs| ==> Grounds.Sat(e, Some(MakeTester(v, incs[k])))
  }

  function Tested(v: Variant, incs: seq<string>): Ground -> bool
  {
    e => PassesTesters(v, incs, e)
  }

  /** The loop over `cdl.all_extensions()`: it stops at the first unsatisfiable extension and
      yields the ones before it that pass every tester. */
  function Scan(v: Variant, incs: seq<string>, exts: seq<Ground>): (r: seq<Ground>)
    ensures r == Filter(Tested(v, incs), TakeWhile(IsSat, exts))
  {
    if |exts| == 0 || !IsSat(exts[0]) then []
    else
      var rest := Scan(v, incs, exts[1..]);
      var t := TakeWhile(IsSat, exts);
      assert t[0] == exts[0] && t[1..] == TakeWhile(IsSat, exts[1..]);
      if PassesTesters(v, incs, exts[0]) then [exts[0]] + rest else rest
  }

  /** The scan gets to position `k`, which holds `e`: every extension up to it is satisfiable. */
  predicate Reached(exts: seq<Ground>, k: int, e: Ground)
  {
    0 <= k < |exts| && exts[k] == e && forall j :: 0 <= j <= k ==> IsSat(exts[j])
  }

  /** The satisfiable prefix holds exactly the extensions the scan reaches. */
  lemma TakenReached(exts: seq<Ground>, e: Ground)
    ensures e in TakeWhile(IsSat, exts) <==> exists k :: Reached(exts, k, e)
  {
    var t := TakeWhile(IsSat, exts);
    if e in t {
      var k :| 0 <= k < |t| && t[k] == e;
      forall j | 0 <= j <= k ensures IsSat(exts[j]) {
        assert exts[j] == t[j];
      }
      assert Reached(exts, k, e);
    }
    if exists k :: Reached(exts, k, e) {
      var k :| Reached(exts, k, e);
      assert k < |t|;
      assert t[k] == exts[k];
    }
  }

  /** What the scan yields: an extension every extension up to which is satisfiable, and which
      passes every tester. */
  lemma ScanMeaning(v: Variant, incs: seq<string>, exts: seq<Ground>, e: Ground)
    ensures e in Scan(v, incs, exts) <==> PassesTesters(v, incs, e) && exists k :: Reached(exts, k, e)
  {
    TakenReached(exts, e);
    assert Tested(v, incs)(e) == PassesTesters(v, incs, e);
  }

  /** The extensions of the candidate `incs` that the loop yields. */
  function Qualifying(s: Spdl, incs: seq<string>): (r: seq<Ground>)
    requires Ok(s)
    ensures forall e :: e in r ==>
      Usable(e) && e.Classic? == s.variant.Asserted? && ReadingOf(e) == ReadingOf(MakeCdl(s, incs).w)
  {
    var t := MakeCdl(s, incs);
    var exts := DLogic.AllExtensions(t);
    ExtensionsGrounded(t);
    Scan(s.variant, incs, exts)
  }

  lemma ExtensionsGrounded(t: DLogic.DefaultLogic)
    requires DLogic.Admissible(t)
    ensures forall e :: e in DLogic.AllExtensions(t) ==>
      Usable(e) && e.Classic? == t.w.Classic? && ReadingOf(e) == ReadingOf(t.w)
  {
    var exts := DLogic.AllExtensions(t);
    forall e | e in exts ensures Usable(e) && e.Classic? == t.w.Classic? && ReadingOf(e) == ReadingOf(t.w) {
      var k :| 0 <= k < |exts| && exts[k] == e;
    }
  }

  function Qual(s: Spdl): seq<string> -> seq<Ground>
    requires Ok(s)
  {
    incs => Qualifying(s, incs)
  }

  /** Whatever the search yields, some candidate qualifies it. */
  lemma RunGrounded(s: Spdl, run: seq<MinimalSets.Found<Ground>>)
    requires Ok(s) && run == MinimalSets.Run(s.atoms, Qual(s))
    ensures forall k :: 0 <= k < |run| ==> Usable(run[k].item) && run[k].item.Classic? == s.variant.Asserted?
  {
    forall k | 0 <= k < |run|
      ensures Usable(run[k].item) && run[k].item.Classic? == s.variant.Asserted?
    {
      MinimalSets.RunMeaning(s.atoms, Qual(s), run[k].incs, run[k].item);
      assert run[k] == MinimalSets.Found(run[k].incs, run[k].item);
      assert run[k].item in Qualifying(s, run[k].incs);
    }
  }

  /** `all_extensions`. */
  function AllExtensions(s: Spdl): (r: seq<Ground>)
    requires Ok(s)
    ensures forall e :: e in r ==> Usable(e) && e.Classic? == s.variant.Asserted?
  {
    var run := MinimalSets.Run(s.atoms, Qual(s));
    RunGrounded(s, run);
    var items := MinimalSets.Items(run);
    assert forall e :: e in items ==> exists p :: 0 <= p < |run| && run[p].item == e;
    items
  }

  /** The candidate `c` is minimal and qualifies `e`. */
  ghost predicate MinimallyQualified(s: Spdl, c: seq<nat>, e: Ground)
    requires Ok(s)
  {
    MinimalSets.Minimal(s.atoms, Qual(s), c) && e in Qualifying(s, Pick(s.atoms, c))
  }

  lemma ExtensionsSound(s: Spdl, e: Ground) returns (c: seq<nat>)
    requires Ok(s) && e in AllExtensions(s)
    ensures MinimallyQualified(s, c, e)
  {
    var run := MinimalSets.Run(s.atoms, Qual(s));
    var items := MinimalSets.Items(run);
    var p :| 0 <= p < |items| && items[p] == e;
    var incs := run[p].incs;
    assert run[p] == MinimalSets.Found(incs, e);
    MinimalSets.RunMeaning(s.atoms, Qual(s), incs, e);
    c :| MinimalSets.Minimal(s.atoms, Qual(s), c) && incs == Pick(s.atoms, c) && e in Qual(s)(incs);
  }

  lemma ExtensionsComplete(s: Spdl, c: seq<nat>, e: Ground)
    requires Ok(s) && MinimallyQualified(s, c, e)
    ensures e in AllExtensions(s)
  {
    var run := MinimalSets.Run(s.atoms, Qual(s));
    var items := MinimalSets.Items(run);
    var incs := Pick(s.atoms, c);
    assert e in Qual(s)(incs);
    MinimalSets.RunMeaning(s.atoms, Qual(s), incs, e);
    var p :| 0 <= p < |run| && run[p] == MinimalSets.Found(incs, e);
    assert items[p] == e;
  }

  /** The extensions are those that the minimal candidates qualify: candidates of the fewest
      inconsistent atoms, no proper part of which qualifies anything. */
  lemma ExtensionsMeaning(s: Spdl, e: Ground)
    requires Ok(s)
    ensures e in AllExtensions(s) <==> exists c :: MinimallyQualified(s, c, e)
  {
    if e in AllExtensions(s) {
      var c := ExtensionsSound(s, e);
    }
    if exists c :: MinimallyQualified(s, c, e) {
      var c :| MinimallyQualified(s, c, e);
      ExtensionsComplete(s, c, e);
    }
  }

  /** When the theory read classically already has extensions that qualify, those are all the
      extensions: the search returns after the empty candidate. */
  lemma ExtensionsStopAtEmpty(s: Spdl)
    requires Ok(s) && |Qualifying(s, [])| > 0
    ensures AllExtensions(s) == Qualifying(s, [])
  {
    assert Qual(s)([]) == Qualifying(s, []);
    MinimalSets.RunStopsAtEmpty(s.atoms, Qual(s));
  }

  /** The extensions of a theory whose ground formulas and rules are well formed are healthy. */
  lemma ExtensionsOfHealthy(t: DLogic.DefaultLogic)
    requires DLogic.Admissible(t) && DLogic.WellFormed(t)
    ensures forall e :: e in DLogic.AllExtensions(t) ==> Healthy(e)
  {
    var exts := DLogic.AllExtensions(t);
    forall e | e in exts ensures Healthy(e) {
      var k :| 0 <= k < |exts| && exts[k] == e;
      DLogic.BuildHealthy(t, DLogic.Generating(t)[k]);
    }
  }

  lemma QualifyingHealthy(s: Spdl, incs: seq<string>, e: Ground)
    requires Ok(s) && DLogic.WellFormed(s.cdl) && e in Qualifying(s, incs)
    ensures Healthy(e)
  {
    var t := MakeCdl(s, incs);
    MakeCdlWellFormed(s, incs);
    ExtensionsOfHealthy(t);
    ScanMeaning(s.variant, incs, DLogic.AllExtensions(t), e);
  }

  lemma ExtensionsHealthy(s: Spdl, e: Ground)
    requires Ok(s) && DLogic.WellFormed(s.cdl) && e in AllExtensions(s)
    ensures Healthy(e)
  {
    var c := ExtensionsSound(s, e);
    QualifyingHealthy(s, Pick(s.atoms, c), e);
  }

  /** The formulas have a model in the reading. */
  ghost predicate HasModel(rd: Reading, fs: seq<Formula>)
  {
    exists val :: ModelOf(rd, val, fs)
  }

  /** Some model of the formulas gives `a` the same value as its twin: `a` is not classic. */
  ghost predicate NonClassic(rd: Reading, fs: seq<Formula>, a: string)
  {
    exists val :: ModelOf(rd, val, fs) && val(a) == val(Twin(a))
  }

  /** One tester is satisfiable with the extension exactly when the atom is non-classic in some
      model of it. */
  lemma TesterSat(v: Variant, incs: seq<string>, e: Ground, a: string)
    requires Healthy(e) && Usable(e) && e.Classic? == v.Asserted? && a in incs
    requires v.Glutted? ==> ReadingOf(e) == Glut(incs)
    ensures Grounds.Sat(e, Some(MakeTester(v, a))) <==> NonClassic(ReadingOf(e), Formulas(e), a)
  {
    var rd := ReadingOf(e);
    var t := MakeTester(v, a);
    SatMeaning(e, Some(t));
    if Grounds.Sat(e, Some(t)) {
      var val :| ModelOf(rd, val, Formulas(e)) && Holds(rd, val, t);
      TesterMeaning(a, incs, val);
      assert val(a) == val(Twin(a));
    }
    if NonClassic(rd, Formulas(e), a) {
      var val :| ModelOf(rd, val, Formulas(e)) && val(a) == val(Twin(a));
      TesterMeaning(a, incs, val);
      assert Holds(rd, val, t);
    }
  }

  /** An extension passes the testers of `incs` exactly when each atom of `incs` is non-classic
      in some model of it. */
  lemma PassesMeaning(v: Variant, incs: seq<string>, e: Ground)
    requires Healthy(e) && Usable(e) && e.Classic? == v.Asserted?
    requires v.Glutted? ==> ReadingOf(e) == Glut(incs)
    ensures PassesTesters(v, incs, e) <==>
      forall k :: 0 <= k < |incs| ==> NonClassic(ReadingOf(e), Formulas(e), incs[k])
  {
    forall k | 0 <= k < |incs|
      ensures Grounds.Sat(e, Some(MakeTester(v, incs[k]))) <==> NonClassic(ReadingOf(e), Formulas(e), incs[k])
    {
      TesterSat(v, incs, e, incs[k]);
    }
    assert PassesTesters(v, incs, e) <==>
      forall k :: 0 <= k < |incs| ==> Grounds.Sat(e, Some(MakeTester(v, incs[k])));
  }

  /** `extension.sat()` decides whether the extension has a model. */
  lemma IsSatMeaning(e: Ground)
    requires Healthy(e) && Usable(e)
    ensures IsSat(e) <==> HasModel(ReadingOf(e), Formulas(e))
  {
    SatMeaning(e, None);
  }

  /** `e` is listed at `k` and every extension up to it has a model. */
  ghost predicate ConsistentUpTo(rd: Reading, exts: seq<Ground>, k: int, e: Ground)
  {
    0 <= k < |exts| && exts[k] == e && forall j :: 0 <= j <= k ==> HasModel(rd, Formulas(exts[j]))
  }

  lemma ConsistentPrefix(t: DLogic.DefaultLogic, k: int, e: Ground)
    requires DLogic.Admissible(t) && DLogic.WellFormed(t)
    ensures var exts := DLogic.AllExtensions(t);
      ConsistentUpTo(ReadingOf(t.w), exts, k, e) <==> Reached(exts, k, e)
  {
    var exts := DLogic.AllExtensions(t);
    ExtensionsOfHealthy(t);
    forall j | 0 <= j < |exts| ensures IsSat(exts[j]) <==> HasModel(ReadingOf(t.w), Formulas(exts[j])) {
      IsSatMeaning(exts[j]);
    }
  }

  /** The extensions a candidate qualifies, semantically: extensions of its candidate theory such
      that it and every extension listed before it have a model, and each atom of `incs` is
      non-classic in some model of it. */
  lemma QualifyingMeaning(s: Spdl, incs: seq<string>, e: Ground)
    requires Ok(s) && DLogic.WellFormed(s.cdl)
    ensures var t := MakeCdl(s, incs);
      e in Qualifying(s, incs) <==>
        (exists k :: ConsistentUpTo(ReadingOf(t.w), DLogic.AllExtensions(t), k, e)) &&
        forall i :: 0 <= i < |incs| ==> NonClassic(ReadingOf(t.w), Formulas(e), incs[i])
  {
    var t := MakeCdl(s, incs);
    var exts := DLogic.AllExtensions(t);
    MakeCdlWellFormed(s, incs);
    assert Qualifying(s, incs) == Scan(s.variant, incs, exts);
    ScanMeaning(s.variant, incs, exts, e);
    ReachedMeaning(t, e);
    if e in exts {
      QualifiedTesters(s, incs, e);
    }
  }

  /** The scan reaches an extension exactly when it and every extension before it are consistent. */
  lemma ReachedMeaning(t: DLogic.DefaultLogic, e: Ground)
    requires DLogic.Admissible(t) && DLogic.WellFormed(t)
    ensures var exts := DLogic.AllExtensions(t);
      (exists k :: Reached(exts, k, e)) <==> (exists k :: ConsistentUpTo(ReadingOf(t.w), exts, k, e))
  {
    forall k ensures ConsistentUpTo(ReadingOf(t.w), DLogic.AllExtensions(t), k, e) <==>
      Reached(DLogic.AllExtensions(t), k, e)
    {
      ConsistentPrefix(t, k, e);
    }
  }

  /** An extension of the candidate theory passes the testers exactly when every atom of the
      candidate is non-classic in some model of it. */
  lemma QualifiedTesters(s: Spdl, incs: seq<string>, e: Ground)
    requires Ok(s) && DLogic.WellFormed(s.cdl)
    requires e in DLogic.AllExtensions(MakeCdl(s, incs))
    ensures PassesTesters(s.variant, incs, e) <==>
      forall i :: 0 <= i < |incs| ==> NonClassic(ReadingOf(MakeCdl(s, incs).w), Formulas(e), incs[i])
  {
    var t := MakeCdl(s, incs);
    MakeCdlWellFormed(s, incs);
    ExtensionsGrounded(t);
    ExtensionsOfHealthy(t);
    PassesMeaning(s.variant, incs, e);
  }

  // ---------------------------------------------------------------------------------------------
  // Entailment

  /** The atoms of the query that the theory does not mention, in the order met, repeats kept. */
  function QueryNames(s: Spdl, g: Formula): (r: seq<string>)
    ensures forall n :: n in r <==> n in CollectAtoms(g) && n !in s.atoms
    ensures forall n :: multiset(r)[n] == if n in s.atoms then 0 else multiset(CollectAtoms(g))[n]
    ensures Subsequence(r, CollectAtoms(g))
  {
    FilterCount(n => n !in s.atoms, CollectAtoms(g));
    FilterSubsequence(n => n !in s.atoms, CollectAtoms(g));
    Filter(n => n !in s.atoms, CollectAtoms(g))
  }

  /** What a query asks of which object. `SPDLogic` asks the formula as written of the object as
      it is. `AnotherSPDLogic` (`_wrap_entail`) asks the formula's transform, of a copy whose `cdl`
      also asserts classic every atom of the transform the theory does not mention; the object
      itself is left as it was. */
  function Query(s: Spdl, f: Formula): (r: (Spdl, Formula))
    requires Ok(s) && EquivFree(f)
    ensures Ok(r.0) && r.0.variant == s.variant && r.0.atoms == s.atoms && r.0.cdl.d == s.cdl.d
    ensures Accepts(r.0.cdl.w, r.1)
    ensures s.variant.Glutted? ==> r == (s, f)
    ensures s.variant.Asserted? ==>
      r.1 == Transform(Asserted, f).value &&
      Formulas(r.0.cdl.w) == Formulas(s.cdl.w) + Asserts(QueryNames(s, r.1))
  {
    match s.variant
    case Glutted => (s, f)
    case Asserted =>
      var g := Transform(Asserted, f).value;
      (s.(cdl := AddAsserts(s.cdl, QueryNames(s, g))), g)
  }

  /** The query's copy of `cdl` has the models of `cdl` in which every new atom of the query is
      classic. */
  lemma QueryModels(s: Spdl, f: Formula, val: string -> bool)
    requires Ok(s) && EquivFree(f) && s.variant.Asserted?
    ensures var (q, g) := Query(s, f);
      ModelOf(Plain, val, Formulas(q.cdl.w)) <==>
        ModelOf(Plain, val, Formulas(s.cdl.w)) &&
        forall n :: n in CollectAtoms(g) && n !in s.atoms ==> val(n) != val(Twin(n))
  {
    var (q, g) := Query(s, f);
    AssertsModels(Formulas(s.cdl.w), QueryNames(s, g), val);
  }

  lemma QueryWellFormed(s: Spdl, f: Formula)
    requires Ok(s) && EquivFree(f) && DLogic.WellFormed(s.cdl) && Proper(f)
    ensures DLogic.WellFormed(Query(s, f).0.cdl) && Proper(Query(s, f).1)
  {
    if s.variant.Asserted? {
      var g := Transform(Asserted, f).value;
      AddAssertsWellFormed(s.cdl, QueryNames(s, g));
      NormalizeProper(FullPara, f);
    }
  }

  /** The loop of `credulous_entail`: true at the first extension that entails `g`. */
  function AnyEntails(exts: seq<Ground>, g: Formula): (r: bool)
    requires forall e :: e in exts ==> Usable(e) && Accepts(e, g)
    ensures r <==> exists e :: e in exts && Grounds.Entail(e, g)
  {
    if |exts| == 0 then false
    else
      assert forall e :: e in exts[1..] ==> e in exts;
      Grounds.Entail(exts[0], g) || AnyEntails(exts[1..], g)
  }

  /** The loop of `skeptical_entail`: false at the first extension that does not entail `g`. */
  function EveryEntails(exts: seq<Ground>, g: Formula): (r: bool)
    requires forall e :: e in exts ==> Usable(e) && Accepts(e, g)
    ensures r <==> forall e :: e in exts ==> Grounds.Entail(e, g)
  {
    if |exts| == 0 then true
    else
      assert forall e :: e in exts ==> e == exts[0] || e in exts[1..];
      Grounds.Entail(exts[0], g) && EveryEntails(exts[1..], g)
  }

  /** `credulous_entail`: some extension entails the query. */
  function CredulousEntail(s: Spdl, f: Formula): (r: bool)
    requires Ok(s) && EquivFree(f)
    ensures r <==> exists e :: e in AllExtensions(Query(s, f).0) && Grounds.Entail(e, Query(s, f).1)
  {
    var (q, g) := Query(s, f);
    AnyEntails(AllExtensions(q), g)
  }

  /** `skeptical_entail`: every extension entails the query. */
  function SkepticalEntail(s: Spdl, f: Formula): (r: bool)
    requires Ok(s) && EquivFree(f)
    ensures r <==> forall e :: e in AllExtensions(Query(s, f).0) ==> Grounds.Entail(e, Query(s, f).1)
  {
    var (q, g) := Query(s, f);
    EveryEntails(AllExtensions(q), g)
  }

  /** Credulous entailment, semantically: the query follows from some extension. */
  lemma CredulousMeaning(s: Spdl, f: Formula)
    requires Ok(s) && EquivFree(f) && DLogic.WellFormed(s.cdl) && Proper(f)
    ensures var (q, g) := Query(s, f);
      CredulousEntail(s, f) <==> exists e :: e in AllExtensions(q) && Follows(ReadingOf(e), Formulas(e), g)
  {
    var (q, g) := Query(s, f);
    QueryWellFormed(s, f);
    forall e | e in AllExtensions(q) ensures Grounds.Entail(e, g) == Follows(ReadingOf(e), Formulas(e), g) {
      ExtensionsHealthy(q, e);
      EntailMeaning(e, g);
    }
  }

  /** Skeptical entailment, semantically: the query follows from every extension. */
  lemma SkepticalMeaning(s: Spdl, f: Formula)
    requires Ok(s) && EquivFree(f) && DLogic.WellFormed(s.cdl) && Proper(f)
    ensures var (q, g) := Query(s, f);
      SkepticalEntail(s, f) <==> forall e :: e in AllExtensions(q) ==> Follows(ReadingOf(e), Formulas(e), g)
  {
    var (q, g) := Query(s, f);
    QueryWellFormed(s, f);
    forall e | e in AllExtensions(q) ensures Grounds.Entail(e, g) == Follows(ReadingOf(e), Formulas(e), g) {
      ExtensionsHealthy(q, e);
      EntailMeaning(e, g);
    }
  }
}
