/** The inline `SPPLogic` scenario of plogic.py (lines 234-248): the theory `A`,
    `A -> !B | (!A & C)` read with no inconsistent atom and then with `A` inconsistent. */
module SppLogicExamples {
  import opened Wrappers
  import opened Symbols
  import opened Nnf
  import opened PLogic
  import opened SppLogic
  import opened PLogicExamples

  /** The PNNF forms once `A` is inconsistent: `!A` becomes the atom `A^-`. */
  lemma ScenarioPnnf()
    ensures NormalizeAll(["A"], Scenario()) ==
      Some([Atom("A"), Or([Atom("A^-"), Or([Not(Atom("B")), And([Atom("A^-"), Atom("C")])])])])
  {
    var m := Para(["A"]);
    assert Twin("A") == "A^-";
    assert Renames(m, "A") && !Renames(m, "B");
    assert Normalize(m, Not(Atom("A"))) == Some(Atom("A^-"));
    assert Normalize(m, Not(Atom("B"))) == Some(Not(Atom("B")));
    var inner := [Not(Atom("A")), Atom("C")];
    assert seq(|inner|, i requires 0 <= i < |inner| => Normalize(m, inner[i])) == [Some(Atom("A^-")), Some(Atom("C"))];
    ValuesPair(Atom("A^-"), Atom("C"));
    assert Normalize(m, And(inner)) == Some(And([Atom("A^-"), Atom("C")]));
    var body := [Not(Atom("B")), And(inner)];
    assert seq(|body|, i requires 0 <= i < |body| => Normalize(m, body[i])) ==
      [Some(Not(Atom("B"))), Some(And([Atom("A^-"), Atom("C")]))];
    ValuesPair(Not(Atom("B")), And([Atom("A^-"), Atom("C")]));
    assert Normalize(m, Or(body)) == Some(Or([Not(Atom("B")), And([Atom("A^-"), Atom("C")])]));
    var fs := Scenario();
    assert seq(|fs|, i requires 0 <= i < |fs| => Normalize(m, fs[i])) ==
      [Some(Atom("A")), Some(Or([Atom("A^-"), Or([Not(Atom("B")), And([Atom("A^-"), Atom("C")])])]))];
    ValuesPair(Atom("A"), Or([Atom("A^-"), Or([Not(Atom("B")), And([Atom("A^-"), Atom("C")])])]));
  }

  /** `A`, `A^-` and `B` true, everything else false: a model of the PNNF forms in which `A` is
      both true and false. */
  predicate Glut(n: string)
  {
    n == "A" || n == "A^-" || n == "B"
  }

  lemma GlutModel()
    ensures Models(Glut, NormalizeAll(["A"], Scenario()).value)
  {
    var v: string -> bool := Glut;
    ScenarioPnnf();
    var n := NormalizeAll(["A"], Scenario()).value;
    assert Eval(v, n[1].subs[0]);
  }

  /** The scenario with `A` declared inconsistent. */
  predicate GlutState(s: Spp)
  {
    CacheValid(s) && s.formulas == Scenario() && s.incs == ["A"]
  }

  /** `v` models the positive normal forms of a state's formulas, which are all well formed. */
  ghost predicate ModelledBy(s: Spp, v: string -> bool)
  {
    CacheValid(s) && AllProper(s.formulas) && NormalizeAll(s.incs, s.formulas).Some? &&
    Models(v, NormalizeAll(s.incs, s.formulas).value)
  }

  /** The glut valuation models the glut state. */
  lemma GlutFacts(s: Spp)
    requires GlutState(s)
    ensures ModelledBy(s, Glut)
  {
    GlutProper(s.formulas);
    GlutModels(s.incs, s.formulas);
  }

  lemma GlutProper(fs: seq<Formula>)
    requires fs == Scenario()
    ensures AllProper(fs)
  {
    ScenarioProper();
  }

  lemma GlutModels(incs: seq<string>, fs: seq<Formula>)
    requires incs == ["A"] && fs == Scenario()
    ensures NormalizeAll(incs, fs).Some?
    ensures Models(Glut, NormalizeAll(incs, fs).value)
  {
    GlutModel();
  }

  /** A query whose PNNF form `g` a model of the state makes true is satisfiable ... */
  lemma SatByModel(s: Spp, v: string -> bool, q: Formula, g: Formula)
    requires ModelledBy(s, v) && Proper(q) && Normalize(Para(s.incs), q) == Some(g) && Eval(v, g)
    ensures SppSat(s, Some(q)).0 == Some(true)
  {
    NormalizeDefined(Para(s.incs), q);
    SppSatMeaning(s, Some(q));
    assert Holds(v, Normalize(Para(s.incs), q));
  }

  /** ... and one whose PNNF form it makes false is not entailed. */
  lemma RefutedByModel(s: Spp, v: string -> bool, q: Formula, g: Formula)
    requires ModelledBy(s, v) && Proper(q) && Normalize(Para(s.incs), q) == Some(g) && !Eval(v, g)
    ensures SppEntail(s, q).0 == Some(false)
  {
    NormalizeDefined(Para(s.incs), q);
    SppEntailMeaning(s, q);
  }

  lemma EntailsA(s: Spp)
    requires GlutState(s)
    ensures SppEntail(s, Atom("A")).0 == Some(true)
  {
    ScenarioProper();
    ScenarioPnnf();
    var n := NormalizeAll(["A"], Scenario()).value;
    SppEntailMeaning(s, Atom("A"));
    forall u | Models(u, n) ensures Eval(u, Atom("A")) {
      assert Eval(u, n[0]);
    }
  }

  /** With `A` inconsistent, `D -> B` and `D -> A` are satisfiable ... */
  lemma InconsistentSat(s: Spp)
    requires GlutState(s)
    ensures SppSat(s, Some(Imply(Atom("D"), Atom("B")))).0 == Some(true)
    ensures SppSat(s, Some(Imply(Atom("D"), Atom("A")))).0 == Some(true)
  {
    GlutFacts(s);
    SatByGlutThrough(s, "B");
    SatByGlutThrough(s, "A");
  }

  /** `D -> x` normalises to `!D | x` when `D` is consistent. */
  lemma ImplyPnnf(incs: seq<string>, x: string)
    requires incs == ["A"]
    ensures Normalize(Para(incs), Imply(Atom("D"), Atom(x))) == Some(Or([Not(Atom("D")), Atom(x)]))
  {
    assert !Renames(Para(incs), "D");
  }

  /** `D -> x` is satisfiable in the glut state whenever the glut model makes `x` true. */
  lemma SatByGlutThrough(s: Spp, x: string)
    requires ModelledBy(s, Glut) && s.incs == ["A"] && Glut(x)
    ensures SppSat(s, Some(Imply(Atom("D"), Atom(x)))).0 == Some(true)
  {
    var g := Or([Not(Atom("D")), Atom(x)]);
    ImplyPnnf(s.incs, x);
    assert Eval(Glut, g.subs[1]);
    SatByModel(s, Glut, Imply(Atom("D"), Atom(x)), g);
  }

  /** ... `A` is entailed, but `!B | E`, `C` and `E` are not: unlike the classical reading,
      `!B` no longer follows. */
  lemma InconsistentEntail(s: Spp)
    requires GlutState(s)
    ensures SppEntail(s, Atom("A")).0 == Some(true)
    ensures SppEntail(s, Or([Not(Atom("B")), Atom("E")])).0 == Some(false)
    ensures SppEntail(s, Atom("C")).0 == Some(false)
    ensures SppEntail(s, Atom("E")).0 == Some(false)
  {
    EntailsA(s);
    NotBOrE(s);
    RefutesC(s);
    RefutesE(s);
  }

  lemma RefutesC(s: Spp)
    requires GlutState(s)
    ensures SppEntail(s, Atom("C")).0 == Some(false)
  {
    assert !Glut("C");
    RefutedAtom(s, "C");
  }

  lemma RefutesE(s: Spp)
    requires GlutState(s)
    ensures SppEntail(s, Atom("E")).0 == Some(false)
  {
    assert !Glut("E");
    RefutedAtom(s, "E");
  }

  /** An atom false in the glut model is not entailed. */
  lemma RefutedAtom(s: Spp, name: string)
    requires GlutState(s) && !Glut(name)
    ensures SppEntail(s, Atom(name)).0 == Some(false)
  {
    GlutFacts(s);
    RefutedByModel(s, Glut, Atom(name), Atom(name));
  }

  lemma NotBOrE(s: Spp)
    requires GlutState(s)
    ensures SppEntail(s, Or([Not(Atom("B")), Atom("E")])).0 == Some(false)
  {
    var q := Or([Not(Atom("B")), Atom("E")]);
    NotBOrEPnnf(s.incs);
    assert !Eval(Glut, q.subs[0]) && !Eval(Glut, q.subs[1]);
    GlutFacts(s);
    RefutedByModel(s, Glut, q, q);
  }

  /** `!B | E` is its own positive normal form when `B` is consistent. */
  lemma NotBOrEPnnf(incs: seq<string>)
    requires incs == ["A"]
    ensures Normalize(Para(incs), Or([Not(Atom("B")), Atom("E")])) == Some(Or([Not(Atom("B")), Atom("E")]))
  {
    var m := Para(incs);
    assert !Renames(m, "B");
    assert Normalize(m, Not(Atom("B"))) == Some(Not(Atom("B")));
    var q := Or([Not(Atom("B")), Atom("E")]);
    ValuesPair(Not(Atom("B")), Atom("E"));
    assert seq(|q.subs|, i requires 0 <= i < |q.subs| => Normalize(m, q.subs[i])) == [Some(Not(Atom("B"))), Some(Atom("E"))];
  }

  /** Built as the source builds it: two `add` calls, then `set_inconsistents(['A'])`. */
  lemma ScenarioBuilt()
    ensures GlutState(SetInconsistents(AddFormula(AddFormula(Fresh, Scenario()[0]), Scenario()[1]), ["A"]))
  {
    FreshCacheValid();
  }
}
