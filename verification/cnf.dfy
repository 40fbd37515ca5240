/** `CNFTransformer` (visitor.py:80-131): conjunctive normal form as a list of clauses, each clause
    a list of literals. The transformer's `And(Or(..), ..)` result is the clause list wrapped back
    into formulas by `ToCnf`. */
module Cnf {
  import opened Utils
  import opened Symbols

  type Clause = seq<Formula>

  /** The clauses `visit(f)` returns. */
  function Clauses(f: Formula): seq<Clause>
  {
    match f
    case Atom(_) => [[f]]
    case Not(x) => NegClauses(x)
    case And(xs) => Flat(seq(|xs|, i requires 0 <= i < |xs| => Clauses(xs[i])))
    case Or(xs) => Distribute(seq(|xs|, i requires 0 <= i < |xs| => Clauses(xs[i])))
    case Imply(a, b) => Distribute([NegClauses(a), Clauses(b)])
    case Implication(a, b) => Distribute([NegClauses(a), Clauses(b)])
    case Equiv(a, b) => Distribute([NegClauses(a), Clauses(b)]) + Distribute([NegClauses(b), Clauses(a)])
  }

  /** The clauses `visit(Not(x))` returns, by the `visitNot*` dispatch on the negated formula. */
  function NegClauses(x: Formula): seq<Clause>
  {
    match x
    case Atom(_) => [[Not(x)]]
    case Not(y) => Clauses(y)
    case And(xs) => Distribute(seq(|xs|, i requires 0 <= i < |xs| => NegClauses(xs[i])))
    case Or(xs) => Flat(seq(|xs|, i requires 0 <= i < |xs| => NegClauses(xs[i])))
    case Imply(a, b) => Clauses(a) + NegClauses(b)
    case Implication(a, b) => Clauses(a) + NegClauses(b)
    case Equiv(a, b) => Distribute([Clauses(a) + NegClauses(b), Clauses(b) + NegClauses(a)])
  }

  /** `visitOr`'s merge: one clause per choice of a clause from every operand (in the order of
      `itertools.product`), the chosen clauses concatenated. */
  function Distribute(parts: seq<seq<Clause>>): seq<Clause>
  {
    if |parts| == 0 then [[]]
    else
      var rest := Distribute(parts[1..]);
      Flat(seq(|parts[0]|, i requires 0 <= i < |parts[0]| =>
        seq(|rest|, j requires 0 <= j < |rest| => parts[0][i] + rest[j])))
  }

  /** Distribution over a leading part of one clause: that clause is prefixed to every merge of the rest. */
  lemma DistributeOne(c: Clause, rest: seq<seq<Clause>>)
    ensures Distribute([[c]] + rest) == seq(|Distribute(rest)|, j requires 0 <= j < |Distribute(rest)| => c + Distribute(rest)[j])
  {
    var parts := [[c]] + rest;
    assert parts[1..] == rest;
    var r := Distribute(rest);
    var rows := seq(|parts[0]|, i requires 0 <= i < |parts[0]| => seq(|r|, j requires 0 <= j < |r| => parts[0][i] + r[j]));
    FlatPair(rows[0], []);
    assert rows == [rows[0]];
  }

  /** Distribution over a leading part of two clauses: the merges of the first, then of the second. */
  lemma DistributeTwo(c1: Clause, c2: Clause, rest: seq<seq<Clause>>)
    ensures Distribute([[c1, c2]] + rest) ==
      seq(|Distribute(rest)|, j requires 0 <= j < |Distribute(rest)| => c1 + Distribute(rest)[j]) +
      seq(|Distribute(rest)|, j requires 0 <= j < |Distribute(rest)| => c2 + Distribute(rest)[j])
  {
    var parts := [[c1, c2]] + rest;
    assert parts[1..] == rest;
    var r := Distribute(rest);
    var rows := seq(|parts[0]|, i requires 0 <= i < |parts[0]| => seq(|r|, j requires 0 <= j < |r| => parts[0][i] + r[j]));
    FlatPair(rows[0], rows[1]);
    assert rows == [rows[0], rows[1]];
  }

  /** `to_CNF`: the clause list as an `And` of `Or`s. */
  function ToCnf(f: Formula): Formula
  {
    var cs := Clauses(f);
    And(seq(|cs|, i requires 0 <= i < |cs| => Or(cs[i])))
  }

  predicate ClauseTrue(v: string -> bool, c: Clause)
  {
    exists i :: 0 <= i < |c| && Eval(v, c[i])
  }

  predicate ClausesTrue(v: string -> bool, cs: seq<Clause>)
  {
    forall i :: 0 <= i < |cs| ==> ClauseTrue(v, cs[i])
  }

  lemma ClausesTrueAppend(v: string -> bool, a: seq<Clause>, b: seq<Clause>)
    ensures ClausesTrue(v, a + b) == (ClausesTrue(v, a) && ClausesTrue(v, b))
  {
    if ClausesTrue(v, a) && ClausesTrue(v, b) {
      forall i | 0 <= i < |a + b| ensures ClauseTrue(v, (a + b)[i]) {
        if i >= |a| { assert (a + b)[i] == b[i - |a|]; }
      }
    }
    if ClausesTrue(v, a + b) {
      forall i | 0 <= i < |b| ensures ClauseTrue(v, b[i]) {
        assert (a + b)[|a| + i] == b[i];
      }
      forall i | 0 <= i < |a| ensures ClauseTrue(v, a[i]) {
        assert (a + b)[i] == a[i];
      }
    }
  }

  /** A flattened clause list holds exactly when every part holds. */
  lemma {:induction false} ClausesTrueFlat(v: string -> bool, parts: seq<seq<Clause>>)
    ensures ClausesTrue(v, Flat(parts)) <==> forall k :: 0 <= k < |parts| ==> ClausesTrue(v, parts[k])
  {
    if |parts| > 0 {
      ClausesTrueFlat(v, parts[1..]);
      assert Flat(parts) == parts[0] + Flat(parts[1..]);
      ClausesTrueAppend(v, parts[0], Flat(parts[1..]));
      if forall k :: 1 <= k < |parts| ==> ClausesTrue(v, parts[k]) {
        forall k | 0 <= k < |parts[1..]| ensures ClausesTrue(v, parts[1..][k]) {
          assert parts[1..][k] == parts[k + 1];
        }
      }
    }
  }

  /** The merged clauses of one clause `c` with every clause of `rest`. */
  lemma PrefixClauses(v: string -> bool, c: Clause, rest: seq<Clause>)
    ensures ClausesTrue(v, seq(|rest|, j requires 0 <= j < |rest| => c + rest[j]))
      <==> (ClauseTrue(v, c) || ClausesTrue(v, rest))
  {
    var merged := seq(|rest|, j requires 0 <= j < |rest| => c + rest[j]);
    forall j | 0 <= j < |rest| ensures ClauseTrue(v, merged[j]) <==> ClauseTrue(v, c) || ClauseTrue(v, rest[j]) {
      if ClauseTrue(v, merged[j]) {
        var k :| 0 <= k < |merged[j]| && Eval(v, merged[j][k]);
        if k >= |c| { assert merged[j][k] == rest[j][k - |c|]; }
      }
      if ClauseTrue(v, c) {
        var k :| 0 <= k < |c| && Eval(v, c[k]);
        assert merged[j][k] == c[k];
      }
      if ClauseTrue(v, rest[j]) {
        var k :| 0 <= k < |rest[j]| && Eval(v, rest[j][k]);
        assert merged[j][|c| + k] == rest[j][k];
      }
    }
  }

  /** Distribution is disjunction: the merged clauses hold exactly when some part holds. */
  lemma {:induction false} DistributeSound(v: string -> bool, parts: seq<seq<Clause>>)
    ensures ClausesTrue(v, Distribute(parts)) <==> exists k :: 0 <= k < |parts| && ClausesTrue(v, parts[k])
  {
    if |parts| == 0 {
      assert !ClauseTrue(v, []);
      assert Distribute(parts)[0] == [];
    } else {
      var rest := Distribute(parts[1..]);
      DistributeSound(v, parts[1..]);
      var rows := seq(|parts[0]|, i requires 0 <= i < |parts[0]| =>
        seq(|rest|, j requires 0 <= j < |rest| => parts[0][i] + rest[j]));
      ClausesTrueFlat(v, rows);
      forall i | 0 <= i < |parts[0]|
        ensures ClausesTrue(v, rows[i]) <==> ClauseTrue(v, parts[0][i]) || ClausesTrue(v, rest)
      {
        PrefixClauses(v, parts[0][i], rest);
      }
      if exists k :: 1 <= k < |parts| && ClausesTrue(v, parts[k]) {
        var k :| 1 <= k < |parts| && ClausesTrue(v, parts[k]);
        assert parts[1..][k - 1] == parts[k];
      }
      if exists k :: 0 <= k < |parts[1..]| && ClausesTrue(v, parts[1..][k]) {
        var k :| 0 <= k < |parts[1..]| && ClausesTrue(v, parts[1..][k]);
        assert parts[k + 1] == parts[1..][k];
      }
    }
  }

  /** The clauses of `f` hold exactly when `f` does, and the negation clauses exactly when it does not. */
  lemma {:induction false} ClausesSound(v: string -> bool, f: Formula)
    ensures ClausesTrue(v, Clauses(f)) == Eval(v, f)
    ensures ClausesTrue(v, NegClauses(f)) == !Eval(v, f)
  {
    match f
    case Atom(_) =>
      assert ClauseTrue(v, [f]) == Eval(v, f) by { assert [f][0] == f; }
      assert ClauseTrue(v, [Not(f)]) == !Eval(v, f) by { assert [Not(f)][0] == Not(f); }
      assert [[f]][0] == [f] && [[Not(f)]][0] == [Not(f)];
    case Not(x) =>
      ClausesSound(v, x);
    case And(xs) =>
      forall i | 0 <= i < |xs| ensures Agrees(v, xs[i]) {
        ClausesSound(v, xs[i]);
      }
      JunctionAgrees(v, xs);
    case Or(xs) =>
      forall i | 0 <= i < |xs| ensures Agrees(v, xs[i]) {
        ClausesSound(v, xs[i]);
      }
      JunctionAgrees(v, xs);
    case Imply(a, b) =>
      ClausesSound(v, a);
      ClausesSound(v, b);
      ImplyAgrees(v, a, b);
    case Implication(a, b) =>
      ClausesSound(v, a);
      ClausesSound(v, b);
      ImplyAgrees(v, a, b);
    case Equiv(a, b) =>
      ClausesSound(v, a);
      ClausesSound(v, b);
      EquivAgrees(v, a, b);
  }

  /** Both clause lists of `f` have the truth values `ClausesSound` states. */
  ghost predicate Agrees(v: string -> bool, f: Formula)
  {
    ClausesTrue(v, Clauses(f)) == Eval(v, f) && ClausesTrue(v, NegClauses(f)) == !Eval(v, f)
  }

  lemma JunctionAgrees(v: string -> bool, xs: seq<Formula>)
    requires forall i :: 0 <= i < |xs| ==> Agrees(v, xs[i])
    ensures Agrees(v, And(xs)) && Agrees(v, Or(xs))
  {
    var pos := seq(|xs|, i requires 0 <= i < |xs| => Clauses(xs[i]));
    var neg := seq(|xs|, i requires 0 <= i < |xs| => NegClauses(xs[i]));
    forall i | 0 <= i < |xs|
      ensures ClausesTrue(v, pos[i]) == Eval(v, xs[i]) && ClausesTrue(v, neg[i]) == !Eval(v, xs[i])
    {
      assert Agrees(v, xs[i]);
    }
    ClausesTrueFlat(v, pos);
    DistributeSound(v, neg);
    DistributeSound(v, pos);
    ClausesTrueFlat(v, neg);
  }

  /** Merging two clause lists gives a list true exactly when one of them is. */
  lemma DistributePair(v: string -> bool, a: seq<Clause>, b: seq<Clause>)
    ensures ClausesTrue(v, Distribute([a, b])) == (ClausesTrue(v, a) || ClausesTrue(v, b))
  {
    DistributeSound(v, [a, b]);
    if ClausesTrue(v, Distribute([a, b])) {
      var k :| 0 <= k < 2 && ClausesTrue(v, [a, b][k]);
    }
    if ClausesTrue(v, b) {
      assert ClausesTrue(v, [a, b][1]);
    }
    if ClausesTrue(v, a) {
      assert ClausesTrue(v, [a, b][0]);
    }
  }

  lemma ImplyAgrees(v: string -> bool, a: Formula, b: Formula)
    requires Agrees(v, a) && Agrees(v, b)
    ensures Agrees(v, Imply(a, b)) && Agrees(v, Implication(a, b))
  {
    DistributePair(v, NegClauses(a), Clauses(b));
    ClausesTrueAppend(v, Clauses(a), NegClauses(b));
  }

  lemma EquivAgrees(v: string -> bool, a: Formula, b: Formula)
    requires Agrees(v, a) && Agrees(v, b)
    ensures Agrees(v, Equiv(a, b))
  {
    EquivPositive(v, a, b);
    EquivNegative(v, a, b);
  }

  lemma EquivPositive(v: string -> bool, a: Formula, b: Formula)
    requires Agrees(v, a) && Agrees(v, b)
    ensures ClausesTrue(v, Clauses(Equiv(a, b))) == Eval(v, Equiv(a, b))
  {
    DistributePair(v, NegClauses(a), Clauses(b));
    DistributePair(v, NegClauses(b), Clauses(a));
    ClausesTrueAppend(v, Distribute([NegClauses(a), Clauses(b)]), Distribute([NegClauses(b), Clauses(a)]));
  }

  lemma EquivNegative(v: string -> bool, a: Formula, b: Formula)
    requires Agrees(v, a) && Agrees(v, b)
    ensures ClausesTrue(v, NegClauses(Equiv(a, b))) == !Eval(v, Equiv(a, b))
  {
    ClausesTrueAppend(v, Clauses(a), NegClauses(b));
    ClausesTrueAppend(v, Clauses(b), NegClauses(a));
    DistributePair(v, Clauses(a) + NegClauses(b), Clauses(b) + NegClauses(a));
  }

  /** The normal form is equivalent to the input under every valuation. */
  lemma ToCnfSound(v: string -> bool, f: Formula)
    ensures Eval(v, ToCnf(f)) == Eval(v, f)
  {
    ClausesSound(v, f);
    var cs := Clauses(f);
    forall i | 0 <= i < |cs| ensures Eval(v, ToCnf(f).subs[i]) == ClauseTrue(v, cs[i]) {
    }
  }

  /** Every clause is made of literals; with no empty `And`/`Or` anywhere, no clause is empty. */
  predicate LiteralClauses(cs: seq<Clause>, nonEmpty: bool)
  {
    forall i :: 0 <= i < |cs| ==>
      (nonEmpty ==> |cs[i]| > 0) && forall j :: 0 <= j < |cs[i]| ==> IsLiteral(cs[i][j])
  }

  lemma LiteralAppend(a: seq<Clause>, b: seq<Clause>, nonEmpty: bool)
    requires LiteralClauses(a, nonEmpty) && LiteralClauses(b, nonEmpty)
    ensures LiteralClauses(a + b, nonEmpty)
  {
    forall i | |a| <= i < |a + b| ensures (a + b)[i] == b[i - |a|] { }
  }

  lemma {:induction false} LiteralFlat(parts: seq<seq<Clause>>, nonEmpty: bool)
    requires forall k :: 0 <= k < |parts| ==> LiteralClauses(parts[k], nonEmpty)
    ensures LiteralClauses(Flat(parts), nonEmpty)
  {
    if |parts| > 0 {
      LiteralFlat(parts[1..], nonEmpty);
      assert Flat(parts) == parts[0] + Flat(parts[1..]);
      LiteralAppend(parts[0], Flat(parts[1..]), nonEmpty);
    }
  }

  /** Merging literal clauses gives literal clauses; a merge over at least one part of non-empty
      clauses gives non-empty clauses (an empty product gives the single empty clause). */
  lemma {:induction false} LiteralDistribute(parts: seq<seq<Clause>>, nonEmpty: bool)
    requires forall k :: 0 <= k < |parts| ==> LiteralClauses(parts[k], nonEmpty)
    requires nonEmpty ==> |parts| > 0
    ensures LiteralClauses(Distribute(parts), nonEmpty)
  {
    if |parts| > 0 {
      var rest := Distribute(parts[1..]);
      LiteralDistribute(parts[1..], nonEmpty && |parts| > 1);
      assert LiteralClauses(rest, false);
      var rows := seq(|parts[0]|, i requires 0 <= i < |parts[0]| =>
        seq(|rest|, j requires 0 <= j < |rest| => parts[0][i] + rest[j]));
      forall i | 0 <= i < |parts[0]| ensures LiteralClauses(rows[i], nonEmpty) {
        forall j | 0 <= j < |rest| ensures LiteralClauses([parts[0][i] + rest[j]], nonEmpty) {
          var c := parts[0][i] + rest[j];
          forall t | |parts[0][i]| <= t < |c| ensures c[t] == rest[j][t - |parts[0][i]|] { }
        }
        assert forall j :: 0 <= j < |rest| ==> rows[i][j] == [parts[0][i] + rest[j]][0];
      }
      LiteralFlat(rows, nonEmpty);
    }
  }

  /** `plogic.py` requires every clause to be an `Or` of atoms and negated atoms; the clauses are
      non-empty unless an empty `And`/`Or` occurs. */
  lemma {:induction false} ClausesShape(f: Formula)
    ensures LiteralClauses(Clauses(f), Proper(f))
    ensures LiteralClauses(NegClauses(f), Proper(f))
  {
    match f
    case Atom(_) =>
    case Not(x) =>
      ClausesShape(x);
    case And(xs) =>
      var pos := seq(|xs|, i requires 0 <= i < |xs| => Clauses(xs[i]));
      var neg := seq(|xs|, i requires 0 <= i < |xs| => NegClauses(xs[i]));
      forall i | 0 <= i < |xs|
        ensures LiteralClauses(pos[i], Proper(f)) && LiteralClauses(neg[i], Proper(f))
      {
        ClausesShape(xs[i]);
      }
      LiteralFlat(pos, Proper(f));
      LiteralDistribute(neg, Proper(f));
    case Or(xs) =>
      var pos := seq(|xs|, i requires 0 <= i < |xs| => Clauses(xs[i]));
      var neg := seq(|xs|, i requires 0 <= i < |xs| => NegClauses(xs[i]));
      forall i | 0 <= i < |xs|
        ensures LiteralClauses(pos[i], Proper(f)) && LiteralClauses(neg[i], Proper(f))
      {
        ClausesShape(xs[i]);
      }
      LiteralDistribute(pos, Proper(f));
      LiteralFlat(neg, Proper(f));
    case Imply(a, b) =>
      ClausesShape(a);
      ClausesShape(b);
      LiteralDistribute([NegClauses(a), Clauses(b)], Proper(f));
      LiteralAppend(Clauses(a), NegClauses(b), Proper(f));
    case Implication(a, b) =>
      ClausesShape(a);
      ClausesShape(b);
      LiteralDistribute([NegClauses(a), Clauses(b)], Proper(f));
      LiteralAppend(Clauses(a), NegClauses(b), Proper(f));
    case Equiv(a, b) =>
      ClausesShape(a);
      ClausesShape(b);
      LiteralDistribute([NegClauses(a), Clauses(b)], Proper(f));
      LiteralDistribute([NegClauses(b), Clauses(a)], Proper(f));
      LiteralAppend(Distribute([NegClauses(a), Clauses(b)]), Distribute([NegClauses(b), Clauses(a)]), Proper(f));
      LiteralAppend(Clauses(a), NegClauses(b), Proper(f));
      LiteralAppend(Clauses(b), NegClauses(a), Proper(f));
      LiteralDistribute([Clauses(a) + NegClauses(b), Clauses(b) + NegClauses(a)], Proper(f));
  }
}
