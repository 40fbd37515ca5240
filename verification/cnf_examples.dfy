/** The normal forms the inline test table of plogic.py (lines 183-211) expects. */
module CnfExamples {
  import opened Utils
  import opened Symbols
  import opened Cnf

  lemma NegatedOrCnf()
    ensures ToCnf(Not(Or([Atom("B"), Atom("C")])))
         == And([Or([Not(Atom("B"))]), Or([Not(Atom("C"))])])
  {
    var xs := [Atom("B"), Atom("C")];
    assert NegClauses(Or(xs)) == Flat([[[Not(Atom("B"))]], [[Not(Atom("C"))]]]) by {
      assert seq(|xs|, i requires 0 <= i < |xs| => NegClauses(xs[i])) == [[[Not(Atom("B"))]], [[Not(Atom("C"))]]];
    }
    assert Flat([[[Not(Atom("B"))]], [[Not(Atom("C"))]]]) == [[Not(Atom("B"))], [Not(Atom("C"))]];
  }
  /** Merging a single one-clause operand gives that clause. */
  lemma Single(c: Clause)
    ensures Distribute([[c]]) == [c]
  {
    DistributeOne(c, []);
    assert [[c]] + [] == [[c]];
    assert Distribute([]) == [[]];
    assert c + [] == c;
  }

  /** A one-clause operand in front of operands merging to one clause. */
  lemma ConsSingle(c: Clause, rest: seq<seq<Clause>>, d: Clause)
    requires Distribute(rest) == [d]
    ensures Distribute([[c]] + rest) == [c + d]
  {
    DistributeOne(c, rest);
  }

  /** A two-clause operand in front of operands merging to one clause. */
  lemma ConsPairSingle(c1: Clause, c2: Clause, rest: seq<seq<Clause>>, d: Clause)
    requires Distribute(rest) == [d]
    ensures Distribute([[c1, c2]] + rest) == [c1 + d, c2 + d]
  {
    DistributeTwo(c1, c2, rest);
  }

  /** A one-clause operand in front of operands merging to two clauses. */
  lemma ConsSinglePair(c: Clause, rest: seq<seq<Clause>>, d1: Clause, d2: Clause)
    requires Distribute(rest) == [d1, d2]
    ensures Distribute([[c]] + rest) == [c + d1, c + d2]
  {
    DistributeOne(c, rest);
  }

  lemma OrOfAndCnf()
    ensures ToCnf(Or([Atom("A"), And([Atom("B"), Atom("C")]), Atom("D")]))
         == And([Or([Atom("A"), Atom("B"), Atom("D")]), Or([Atom("A"), Atom("C"), Atom("D")])])
  {
    var a, b, c, d := Atom("A"), Atom("B"), Atom("C"), Atom("D");
    var bc := [b, c];
    assert Clauses(And(bc)) == [[b], [c]] by {
      assert seq(|bc|, i requires 0 <= i < |bc| => Clauses(bc[i])) == [[[b]], [[c]]];
      FlatPair([[b]], [[c]]);
    }
    var xs := [a, And(bc), d];
    assert seq(|xs|, i requires 0 <= i < |xs| => Clauses(xs[i])) == [[[a]], [[b], [c]], [[d]]];
    Single([d]);
    ConsPairSingle([b], [c], [[[d]]], [d]);
    assert [[[b], [c]]] + [[[d]]] == [[[b], [c]], [[d]]];
    ConsSinglePair([a], [[[b], [c]], [[d]]], [b] + [d], [c] + [d]);
    assert [[[a]]] + [[[b], [c]], [[d]]] == [[[a]], [[b], [c]], [[d]]];
    assert [a] + ([b] + [d]) == [a, b, d] && [a] + ([c] + [d]) == [a, c, d];
  }

  lemma AndOfOrCnf()
    ensures ToCnf(And([Atom("A"), Or([Atom("B"), And([Atom("D"), Atom("E")])])]))
         == And([Or([Atom("A")]), Or([Atom("B"), Atom("D")]), Or([Atom("B"), Atom("E")])])
  {
    var a, b, d, e := Atom("A"), Atom("B"), Atom("D"), Atom("E");
    var de := [d, e];
    assert Clauses(And(de)) == [[d], [e]] by {
      assert seq(|de|, i requires 0 <= i < |de| => Clauses(de[i])) == [[[d]], [[e]]];
      FlatPair([[d]], [[e]]);
    }
    var ys := [b, And(de)];
    assert seq(|ys|, i requires 0 <= i < |ys| => Clauses(ys[i])) == [[[b]], [[d], [e]]];
    assert Distribute([]) == [[]];
    ConsPairSingle([d], [e], [], []);
    assert [[[d], [e]]] + [] == [[[d], [e]]];
    ConsSinglePair([b], [[[d], [e]]], [d] + [], [e] + []);
    assert [[[b]]] + [[[d], [e]]] == [[[b]], [[d], [e]]];
    assert [b] + ([d] + []) == [b, d] && [b] + ([e] + []) == [b, e];
    assert Clauses(Or(ys)) == [[b, d], [b, e]];
    var xs := [a, Or(ys)];
    assert seq(|xs|, i requires 0 <= i < |xs| => Clauses(xs[i])) == [[[a]], [[b, d], [b, e]]];
    FlatPair([[a]], [[b, d], [b, e]]);
    assert Clauses(And(xs)) == [[a], [b, d], [b, e]];
  }

  lemma EquivCnf()
    ensures ToCnf(Equiv(Atom("B"), Or([Atom("P_1"), Atom("P_2")])))
         == And([Or([Not(Atom("B")), Atom("P_1"), Atom("P_2")]),
                 Or([Not(Atom("P_1")), Atom("B")]),
                 Or([Not(Atom("P_2")), Atom("B")])])
  {
    var b, p1, p2 := Atom("B"), Atom("P_1"), Atom("P_2");
    var ps := [p1, p2];
    EquivParts();
    var cs := Clauses(Equiv(b, Or(ps)));
    assert NegClauses(b) == [[Not(b)]] && Clauses(b) == [[b]];
    assert [NegClauses(b), Clauses(Or(ps))] == [[[Not(b)]], [[p1, p2]]];
    assert [NegClauses(Or(ps)), Clauses(b)] == [[[Not(p1)], [Not(p2)]], [[b]]];
    assert cs == [[Not(b), p1, p2]] + [[Not(p1), b], [Not(p2), b]];
  }

  /** The pieces of the `Equiv` example: the clauses of `P_1 | P_2` and of its negation, and the
      two merges the equivalence makes. */
  lemma EquivParts()
    ensures Clauses(Or([Atom("P_1"), Atom("P_2")])) == [[Atom("P_1"), Atom("P_2")]]
    ensures NegClauses(Or([Atom("P_1"), Atom("P_2")])) == [[Not(Atom("P_1"))], [Not(Atom("P_2"))]]
    ensures Distribute([[[Not(Atom("B"))]], [[Atom("P_1"), Atom("P_2")]]]) ==
      [[Not(Atom("B")), Atom("P_1"), Atom("P_2")]]
    ensures Distribute([[[Not(Atom("P_1"))], [Not(Atom("P_2"))]], [[Atom("B")]]]) ==
      [[Not(Atom("P_1")), Atom("B")], [Not(Atom("P_2")), Atom("B")]]
  {
    var b, p1, p2 := Atom("B"), Atom("P_1"), Atom("P_2");
    var ps := [p1, p2];
    assert seq(|ps|, i requires 0 <= i < |ps| => Clauses(ps[i])) == [[[p1]], [[p2]]];
    Single([p2]);
    ConsSingle([p1], [[[p2]]], [p2]);
    assert [[[p1]]] + [[[p2]]] == [[[p1]], [[p2]]];
    assert [p1] + [p2] == [p1, p2];
    assert seq(|ps|, i requires 0 <= i < |ps| => NegClauses(ps[i])) == [[[Not(p1)]], [[Not(p2)]]];
    FlatPair([[Not(p1)]], [[Not(p2)]]);
    Single([p1, p2]);
    ConsSingle([Not(b)], [[[p1, p2]]], [p1, p2]);
    assert [[[Not(b)]]] + [[[p1, p2]]] == [[[Not(b)]], [[p1, p2]]];
    assert [Not(b)] + [p1, p2] == [Not(b), p1, p2];
    Single([b]);
    ConsPairSingle([Not(p1)], [Not(p2)], [[[b]]], [b]);
    assert [[[Not(p1)], [Not(p2)]]] + [[[b]]] == [[[Not(p1)], [Not(p2)]], [[b]]];
    assert [Not(p1)] + [b] == [Not(p1), b] && [Not(p2)] + [b] == [Not(p2), b];
  }
}
