/** Scenarios for the classical store: a dropped tautology, and the inline scenario of plogic.py
    (lines 225-232). */
module PLogicExamples {
  import opened Wrappers
  import opened Utils
  import opened Symbols
  import opened Visitor
  import opened Cnf
  import opened PLogic

  /** `a | !a` has the single clause `a, !a` and the atom list `a, a`. */
  lemma ExcludedMiddleParts()
    ensures Clauses(Or([Atom("a"), Not(Atom("a"))])) == [[Atom("a"), Not(Atom("a"))]]
    ensures CollectAtoms(Or([Atom("a"), Not(Atom("a"))])) == ["a", "a"]
  {
    var a, na := Atom("a"), Not(Atom("a"));
    var xs := [a, na];
    assert seq(|xs|, i requires 0 <= i < |xs| => Clauses(xs[i])) == [[[a]], [[na]]];
    var r0: seq<Clause> := Distribute([]);
    assert r0 == [[]];
    DistributeOne([na], []);
    assert [[[na]]] + [] == [[[na]]];
    var r1 := Distribute([[[na]]]);
    assert |r1| == 1 && r1[0] == [na] + r0[0];
    assert r1[0] == [na];
    assert r1 == [[na]];
    DistributeOne([a], [[[na]]]);
    assert [[[a]]] + [[[na]]] == [[[a]], [[na]]];
    var r2 := Distribute([[[a]], [[na]]]);
    assert |r2| == 1 && r2[0] == [a] + r1[0];
    assert r2[0] == [a, na];
    assert r2 == [[a, na]];
    assert seq(|xs|, i requires 0 <= i < |xs| => CollectAtoms(xs[i])) == [["a"], ["a"]];
    FlatPair(["a"], ["a"]);
  }

  /** Registering `a` twice numbers it once. */
  lemma AtomsOfExcludedMiddle()
    ensures AddAtoms(map[], ["a", "a"]) == map["a" := 1]
  {
    var m := map["a" := 1];
    assert AddAtom(map[], "a").2 == m;
    assert ["a", "a"][1..] == ["a"];
    assert AddAtoms(m, ["a"]) == m;
  }

  /** The clause `a, !a` translates to a tautology: nothing is stored and no name stays new. */
  lemma ExcludedMiddleClause(s: Store)
    requires s.atoms == map["a" := 1]
    ensures AddClause(s, [Atom("a"), Not(Atom("a"))]) == (s, 0, [])
  {
    var a, na := Atom("a"), Not(Atom("a"));
    assert LiteralStep(s, a, [], []) == Step(false, s, [1], []);
    assert LiteralStep(s, na, [1], []).tautology;
    assert Translate(s, [a, na], [], []) == Translation([], [], s);
  }

  /** `a | !a` yields one tautological clause, which is dropped, but `add` has already
      registered `a`, and the entry stays. */
  lemma TautologyKeepsAtom()
    ensures var f := Or([Atom("a"), Not(Atom("a"))]);
      Add(Empty, f) == Store([f], map["a" := 1], [])
  {
    var a, na := Atom("a"), Not(Atom("a"));
    var f := Or([a, na]);
    ExcludedMiddleParts();
    AtomsOfExcludedMiddle();
    var s1 := Store([f], map["a" := 1], []);
    ExcludedMiddleClause(s1);
    var cs := Clauses(f);
    assert cs == [[a, na]];
    var step := AddClause(s1, cs[0]);
    assert step == (s1, 0, []);
    assert step.2 == [] && cs[1..] == [];
    var none: seq<Clause> := [];
    var nonews: seq<string> := [];
    assert AddClauses(s1, none, 0, nonews) == (s1, 0, nonews);
    assert AddClauses(s1, cs[1..], 0, []) == (s1, 0, []);
    assert AddClauses(s1, cs, 0, []) == AddClauses(step.0, cs[1..], 0 + step.1, [] + step.2);
    assert AddCnf(s1, f).0 == s1;
  }

  /** The theory `A`, `A -> !B | (!A & C)` of the inline scenario. */
  function Scenario(): seq<Formula>
  {
    [Atom("A"), Imply(Atom("A"), Or([Not(Atom("B")), And([Not(Atom("A")), Atom("C")])]))]
  }

  lemma ScenarioProper()
    ensures forall i :: 0 <= i < |Scenario()| ==> Proper(Scenario()[i])
  {
    var inner := And([Not(Atom("A")), Atom("C")]);
    assert Proper(inner.subs[0]) && Proper(inner.subs[1]);
    assert Proper(inner);
    var body := Or([Not(Atom("B")), inner]);
    assert Proper(body.subs[0]) && Proper(body.subs[1]);
    assert Proper(body);
  }

  lemma ScenarioModels(v: string -> bool)
    ensures Models(v, Scenario()) <==> v("A") && !v("B")
  {
    var fs := Scenario();
    var body := [Not(Atom("B")), And([Not(Atom("A")), Atom("C")])];
    if v("A") && !v("B") {
      assert Eval(v, body[0]);
      assert Eval(v, fs[1]);
    }
    if Models(v, fs) {
      assert Eval(v, fs[0]) && Eval(v, fs[1]);
      assert !Eval(v, body[1]) by {
        assert !Eval(v, body[1].subs[0]);
      }
      var i :| 0 <= i < |body| && Eval(v, body[i]);
      assert i == 0;
    }
  }

  /** The valuation making only `A` true. */
  predicate OnlyA(n: string)
  {
    n == "A"
  }

  /** The valuation making only `A` true models the scenario, ... */
  lemma SatByOnlyA(w: Store, q: Formula)
    requires Represents(w) && w.formulas == Scenario() && Proper(q) && Eval(OnlyA, q)
    ensures Sat(w, Some(q)).0
  {
    ScenarioModels(OnlyA);
    SatMeaning(w, Some(q));
  }

  /** ... so whatever it makes false is not entailed. */
  lemma RefutedByOnlyA(w: Store, q: Formula)
    requires Represents(w) && w.formulas == Scenario() && Proper(q) && !Eval(OnlyA, q)
    ensures !Entail(w, q)
  {
    ScenarioModels(OnlyA);
    EntailMeaning(w, q);
  }

  lemma EntailsNotB(w: Store)
    requires Represents(w) && w.formulas == Scenario()
    ensures Entail(w, Or([Not(Atom("B")), Atom("E")]))
  {
    var q := Or([Not(Atom("B")), Atom("E")]);
    EntailMeaning(w, q);
    forall v | Models(v, w.formulas) ensures Eval(v, q) {
      ScenarioModels(v);
      assert Eval(v, q.subs[0]);
    }
  }

  /** With `A` and `A -> !B | (!A & C)` asserted, `D -> B` and `D -> A` are satisfiable, `!B | E`
      is entailed, and neither `C` nor `E` is. */
  lemma ClassicalScenario()
    ensures var w := FromFormulas(Scenario());
      Sat(w, Some(Imply(Atom("D"), Atom("B")))).0 && Sat(w, Some(Imply(Atom("D"), Atom("A")))).0 &&
      Entail(w, Or([Not(Atom("B")), Atom("E")])) &&
      !Entail(w, Atom("C")) && !Entail(w, Atom("E"))
  {
    var w := FromFormulas(Scenario());
    ScenarioProper();
    FromFormulasRepresents(Scenario());
    SatByOnlyA(w, Imply(Atom("D"), Atom("B")));
    SatByOnlyA(w, Imply(Atom("D"), Atom("A")));
    RefutedByOnlyA(w, Atom("C"));
    RefutedByOnlyA(w, Atom("E"));
    EntailsNotB(w);
  }

  /** `CPLogic().add(Or())`: the empty disjunction has no model, but its one clause is empty and
      `_add` keeps only non-empty clauses (plogic.py:109), so the store holds no clause and `sat`
      answers true. This is why the meaning lemmas ask for formulas without an empty `And`/`Or`. */
  lemma EmptyOrDropped()
    ensures forall v :: !Models(v, [Or([])])
    ensures Add(Empty, Or([])).cnfs == [] && Sat(Add(Empty, Or([])), None).0
  {
    var s1 := Empty.(formulas := [Or([])], atoms := AddAtoms(map[], []));
    var cs: seq<Clause> := [[]];
    var none: seq<Clause> := [];
    var nonews: seq<string> := [];
    assert Clauses(Or([])) == cs;
    assert Translate(s1, cs[0], [], []) == Translation([], [], s1);
    assert AddClause(s1, cs[0]) == (s1, 0, nonews);
    assert cs[1..] == none && nonews + nonews == nonews;
    assert AddClauses(s1, none, 0, nonews) == (s1, 0, nonews);
    assert AddClauses(s1, cs, 0, nonews) == (s1, 0, nonews);
    assert Add(Empty, Or([])) == s1;
    forall v ensures !Models(v, [Or([])]) {
      assert [Or([])][0] == Or([]);
    }
  }
}
