/** Concrete outputs the source documents for its visitors: the markup column of the inline test
    table in plogic.py (lines 183-211, first and third rows) and the flattening example of `PlainTransformer`. */
module VisitorExamples {
  import opened Utils
  import opened Symbols
  import opened Visitor

  lemma JoinThree(sep: string, a: string, b: string, c: string)
    ensures Join(sep, [a, b, c]) == a + sep + b + sep + c
  {
    assert [a, b, c][1..] == [b, c];
    assert [b, c][1..] == [c];
    assert Join(sep, [b, c]) == b + sep + c;
    assert Join(sep, [a, b, c]) == a + sep + (b + sep + c);
  }

  lemma LatexNegatedOr()
    ensures ToLatex(Not(Or([Atom("B"), Atom("C")]))) == "{\\lnot{{B}\\lor{C}}}"
  {
    assert ToLatex(Atom("B")) == "{B}" && ToLatex(Atom("C")) == "{C}";
    assert LatexEach([Atom("B"), Atom("C")]) == ["{B}", "{C}"];
    JoinTwo("\\lor", "{B}", "{C}");
  }

  lemma LatexBAndC()
    ensures ToLatex(And([Atom("B"), Atom("C")])) == "{{B}\\land{C}}"
  {
    assert ToLatex(Atom("B")) == "{B}" && ToLatex(Atom("C")) == "{C}";
    assert LatexEach([Atom("B"), Atom("C")]) == ["{B}", "{C}"];
    JoinTwo("\\land", "{B}", "{C}");
  }

  lemma LatexOrOfAnd()
    ensures ToLatex(Or([Atom("A"), And([Atom("B"), Atom("C")]), Atom("D")])) == "{{A}\\lor{{B}\\land{C}}\\lor{D}}"
  {
    LatexBAndC();
    var xs := [Atom("A"), And([Atom("B"), Atom("C")]), Atom("D")];
    assert ToLatex(Atom("A")) == "{A}" && ToLatex(Atom("D")) == "{D}";
    var parts := LatexEach(xs);
    assert parts == ["{A}", "{{B}\\land{C}}", "{D}"];
    JoinThree("\\lor", "{A}", "{{B}\\land{C}}", "{D}");
  }

  /** The example in `PlainTransformer`'s documentation. */
  lemma PlainNestedAnd()
    ensures ToPlain(And([And([Atom("A"), Atom("B")]), Atom("C")])) == And([Atom("A"), Atom("B"), Atom("C")])
  {
    var ab := [Atom("A"), Atom("B")];
    var ys := [And(ab), Atom("C")];
    assert ToPlain(And(ab)) == And(ab) by {
      assert seq(|ab|, i requires 0 <= i < |ab| => ToPlain(ab[i])) == ab;
      SpliceSingletons(true, ab);
    }
    assert seq(|ys|, i requires 0 <= i < |ys| => ToPlain(ys[i])) == ys;
    var parts := seq(|ys|, i requires 0 <= i < |ys| => Lifted(true, ys[i]));
    assert parts == [ab, [Atom("C")]];
    FlatPair(ab, [Atom("C")]);
    assert Splice(true, ys) == ab + [Atom("C")];
    assert ab + [Atom("C")] == [Atom("A"), Atom("B"), Atom("C")];
  }
}
