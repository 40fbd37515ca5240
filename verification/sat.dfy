/** The satisfiability oracle behind `CPLogic.sat` (plogic.py:118). The source hands its integer
    clauses to the foreign solver `pycosat.solve`; here the oracle's meaning is the ghost predicate
    `Satisfiable` (some valuation of the variables makes every clause true), and `Solve` is a small
    compiled splitting procedure proved to decide exactly that predicate. */
module Solver {

  /** A literal is a non-zero integer: `n` stands for variable `n`, `-n` for its negation. */
  type Clause = seq<int>

  predicate LitTrue(val: int -> bool, l: int)
  {
    if l > 0 then val(l) else !val(-l)
  }

  predicate ClauseSat(val: int -> bool, c: Clause)
  {
    exists i :: 0 <= i < |c| && LitTrue(val, c[i])
  }

  predicate AllSat(val: int -> bool, cs: seq<Clause>)
  {
    forall k :: 0 <= k < |cs| ==> ClauseSat(val, cs[k])
  }

  /** What `pycosat.solve` decides: some valuation satisfies every clause. */
  ghost predicate Satisfiable(cs: seq<Clause>)
  {
    exists val :: AllSat(val, cs)
  }

  /** The solver's input format: `0` terminates clauses and is never a literal. */
  predicate NonZero(cs: seq<Clause>)
  {
    forall k, i :: 0 <= k < |cs| && 0 <= i < |cs[k]| ==> cs[k][i] != 0
  }

  function Var(l: int): nat
  {
    if l >= 0 then l else -l
  }

  /** `c` without the occurrences of `x`. */
  function Remove(c: Clause, x: int): (r: Clause)
    ensures |r| <= |c|
    ensures x in c ==> |r| < |c|
    ensures forall y :: y in r <==> y in c && y != x
  {
    if |c| == 0 then []
    else if c[0] == x then Remove(c[1..], x)
    else [c[0]] + Remove(c[1..], x)
  }

  /** The clauses left once literal `l` is made true: those holding `l` are satisfied and go,
      and `-l` is struck from the others. */
  function Assign(cs: seq<Clause>, l: int): (r: seq<Clause>)
    ensures forall k :: 0 <= k < |r| ==> l !in r[k] && -l !in r[k]
  {
    if |cs| == 0 then []
    else if l in cs[0] then Assign(cs[1..], l)
    else [Remove(cs[0], -l)] + Assign(cs[1..], l)
  }

  /** Total number of literal occurrences. */
  function Size(cs: seq<Clause>): nat
  {
    if |cs| == 0 then 0 else |cs[0]| + Size(cs[1..])
  }

  lemma {:induction false} AssignSize(cs: seq<Clause>, l: int)
    ensures Size(Assign(cs, l)) <= Size(cs)
    ensures |cs| > 0 && (l in cs[0] || -l in cs[0]) ==> Size(Assign(cs, l)) < Size(cs)
  {
    if |cs| > 0 {
      AssignSize(cs[1..], l);
      if l !in cs[0] {
        assert Assign(cs, l)[1..] == Assign(cs[1..], l);
      }
    }
  }

  /** Splitting on the first literal of the first clause. */
  function Solve(cs: seq<Clause>): (r: bool)
    decreases Size(cs)
  {
    if |cs| == 0 then true
    else if |cs[0]| == 0 then false
    else
      var l := cs[0][0];
      AssignSize(cs, l);
      AssignSize(cs, -l);
      Solve(Assign(cs, l)) || Solve(Assign(cs, -l))
  }

  lemma AssignNonZero(cs: seq<Clause>, l: int)
    requires NonZero(cs)
    ensures NonZero(Assign(cs, l))
  {
    var r := Assign(cs, l);
    forall k, i | 0 <= k < |r| && 0 <= i < |r[k]| ensures r[k][i] != 0 {
      AssignFrom(cs, l, k);
      var j :| 0 <= j < |cs| && l !in cs[j] && r[k] == Remove(cs[j], -l);
      assert r[k][i] in cs[j];
    }
  }

  /** Every clause left by `Assign` is a clause of the input with `-l` struck out. */
  lemma {:induction false} AssignFrom(cs: seq<Clause>, l: int, k: nat)
    requires k < |Assign(cs, l)|
    ensures exists j :: 0 <= j < |cs| && l !in cs[j] && Assign(cs, l)[k] == Remove(cs[j], -l)
  {
    if l in cs[0] {
      AssignFrom(cs[1..], l, k);
      var j :| 0 <= j < |cs[1..]| && l !in cs[1..][j] && Assign(cs[1..], l)[k] == Remove(cs[1..][j], -l);
      assert cs[1..][j] == cs[j + 1];
    } else if k == 0 {
      assert Assign(cs, l)[0] == Remove(cs[0], -l);
    } else {
      AssignFrom(cs[1..], l, k - 1);
      var j :| 0 <= j < |cs[1..]| && l !in cs[1..][j] && Assign(cs[1..], l)[k - 1] == Remove(cs[1..][j], -l);
      assert cs[1..][j] == cs[j + 1];
    }
  }

  /** Every clause of the input without `l` survives `Assign`, with `-l` struck out. */
  lemma {:induction false} AssignKeeps(cs: seq<Clause>, l: int, j: nat)
    requires j < |cs| && l !in cs[j]
    ensures exists k :: 0 <= k < |Assign(cs, l)| && Assign(cs, l)[k] == Remove(cs[j], -l)
  {
    if j == 0 {
      assert Assign(cs, l)[0] == Remove(cs[0], -l);
    } else {
      assert cs[1..][j - 1] == cs[j];
      AssignKeeps(cs[1..], l, j - 1);
      var k :| 0 <= k < |Assign(cs[1..], l)| && Assign(cs[1..], l)[k] == Remove(cs[j], -l);
      if l in cs[0] {
        assert Assign(cs, l) == Assign(cs[1..], l);
      } else {
        assert Assign(cs, l)[k + 1] == Assign(cs[1..], l)[k];
      }
    }
  }

  /** The valuation `val` changed so that literal `l` holds. */
  function Set(val: int -> bool, l: int): int -> bool
  {
    (x: int) => if x == Var(l) then l > 0 else val(x)
  }

  lemma SetLit(val: int -> bool, l: int, m: int)
    requires l != 0 && m != 0
    ensures LitTrue(Set(val, l), l)
    ensures m != l && m != -l ==> LitTrue(Set(val, l), m) == LitTrue(val, m)
  {
    assert Set(val, l)(Var(l)) == (l > 0);
    assert Var(m) != Var(l) ==> Set(val, l)(Var(m)) == val(Var(m));
  }

  /** A model of the input in which `l` holds is a model of `Assign(cs, l)`. */
  lemma AssignModel(cs: seq<Clause>, l: int, val: int -> bool)
    requires AllSat(val, cs) && LitTrue(val, l) && l != 0
    ensures AllSat(val, Assign(cs, l))
  {
    var r := Assign(cs, l);
    forall k | 0 <= k < |r| ensures ClauseSat(val, r[k]) {
      AssignFrom(cs, l, k);
      var j :| 0 <= j < |cs| && l !in cs[j] && r[k] == Remove(cs[j], -l);
      var i :| 0 <= i < |cs[j]| && LitTrue(val, cs[j][i]);
      assert cs[j][i] != -l;
      assert cs[j][i] in r[k];
    }
  }

  /** A model of `Assign(cs, l)`, changed to make `l` hold, is a model of the input. */
  lemma AssignLift(cs: seq<Clause>, l: int, val: int -> bool)
    requires NonZero(cs) && l != 0 && AllSat(val, Assign(cs, l))
    ensures AllSat(Set(val, l), cs)
  {
    var val' := Set(val, l);
    forall j | 0 <= j < |cs| ensures ClauseSat(val', cs[j]) {
      if l in cs[j] {
        var i :| 0 <= i < |cs[j]| && cs[j][i] == l;
        SetLit(val, l, l);
      } else {
        AssignKeeps(cs, l, j);
        var k :| 0 <= k < |Assign(cs, l)| && Assign(cs, l)[k] == Remove(cs[j], -l);
        var c := Assign(cs, l)[k];
        var i :| 0 <= i < |c| && LitTrue(val, c[i]);
        assert c[i] in cs[j] && c[i] != 0;
        var i' :| 0 <= i' < |cs[j]| && cs[j][i'] == c[i];
        SetLit(val, l, c[i]);
      }
    }
  }

  /** Splitting on a literal: the clauses have a model exactly when one of the two branches has. */
  lemma Split(cs: seq<Clause>, l: int)
    requires NonZero(cs) && l != 0
    ensures Satisfiable(cs) <==> Satisfiable(Assign(cs, l)) || Satisfiable(Assign(cs, -l))
  {
    if Satisfiable(cs) {
      var val :| AllSat(val, cs);
      if LitTrue(val, l) {
        AssignModel(cs, l, val);
      } else {
        AssignModel(cs, -l, val);
      }
    }
    if Satisfiable(Assign(cs, l)) {
      var val :| AllSat(val, Assign(cs, l));
      AssignLift(cs, l, val);
    }
    if Satisfiable(Assign(cs, -l)) {
      var val :| AllSat(val, Assign(cs, -l));
      AssignLift(cs, -l, val);
    }
  }

  /** Splitting is sound and complete: `Solve` decides `Satisfiable`. */
  lemma {:induction false} SolveCorrect(cs: seq<Clause>)
    requires NonZero(cs)
    ensures Solve(cs) == Satisfiable(cs)
    decreases Size(cs)
  {
    if |cs| == 0 {
      var val := (x: int) => true;
      assert AllSat(val, cs);
    } else if |cs[0]| == 0 {
      forall val: int -> bool ensures !AllSat(val, cs) {
        assert !ClauseSat(val, cs[0]);
      }
    } else {
      var l := cs[0][0];
      AssignSize(cs, l);
      AssignSize(cs, -l);
      AssignNonZero(cs, l);
      AssignNonZero(cs, -l);
      SolveCorrect(Assign(cs, l));
      SolveCorrect(Assign(cs, -l));
      Split(cs, l);
    }
  }

  lemma AllSatAppend(val: int -> bool, a: seq<Clause>, b: seq<Clause>)
    ensures AllSat(val, a + b) <==> AllSat(val, a) && AllSat(val, b)
  {
    if AllSat(val, a) && AllSat(val, b) {
      forall k | 0 <= k < |a + b| ensures ClauseSat(val, (a + b)[k]) {
        if k >= |a| {
          assert (a + b)[k] == b[k - |a|];
        }
      }
    }
    if AllSat(val, a + b) {
      forall k | 0 <= k < |b| ensures ClauseSat(val, b[k]) {
        assert (a + b)[|a| + k] == b[k];
      }
      forall k | 0 <= k < |a| ensures ClauseSat(val, a[k]) {
        assert (a + b)[k] == a[k];
      }
    }
  }
}
