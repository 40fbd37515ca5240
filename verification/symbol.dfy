/** Propositional formulas (symbol.py): an immutable tree of atoms and connectives, its
    class-sensitive equality, the connectives' plain and markup symbols, and the plain rendering.
    `Eval` is the classical truth value, the reference semantics used by every transform. */
module Symbols {

  datatype Formula =
    | Atom(name: string)
    | Not(sub: Formula)
    | And(subs: seq<Formula>)
    | Or(subs: seq<Formula>)
    | Imply(l: Formula, r: Formula)
    | Implication(l: Formula, r: Formula)
    | Equiv(l: Formula, r: Formula)

  /** The connective classes; `Atom` has none. */
  datatype Connective = CNot | CAnd | COr | CImply | CImplication | CEquiv

  function ConnectiveOf(f: Formula): Connective
    requires !f.Atom?
  {
    match f
    case Not(_) => CNot
    case And(_) => CAnd
    case Or(_) => COr
    case Imply(_, _) => CImply
    case Implication(_, _) => CImplication
    case Equiv(_, _) => CEquiv
  }

  /** `str_symbol` of each connector class. */
  function StrSymbol(c: Connective): string
  {
    match c
    case CNot => "!"
    case CAnd => "&"
    case COr => "|"
    case CImply => "->"
    case CImplication => "=)"
    case CEquiv => "<->"
  }

  /** `latex_symbol` of each connector class. */
  function LatexSymbol(c: Connective): string
  {
    match c
    case CNot => "\\lnot"
    case CAnd => "\\land"
    case COr => "\\lor"
    case CImply => "\\to"
    case CImplication => "\\supset"
    case CEquiv => "\\leftrightarrow"
  }

  /** Distinct connectives have distinct symbols in both tables. */
  lemma SymbolsDistinct(c: Connective, d: Connective)
    ensures StrSymbol(c) == StrSymbol(d) ==> c == d
    ensures LatexSymbol(c) == LatexSymbol(d) ==> c == d
  {
  }

  /** `Formula.__eq__`: same class and element-wise equal child lists, in order. */
  function FormulaEq(f: Formula, g: Formula): (r: bool)
    ensures r <==> f == g
  {
    match (f, g)
    case (Atom(a), Atom(b)) => a == b
    case (Not(x), Not(y)) => FormulaEq(x, y)
    case (And(xs), And(ys)) =>
      var same := |xs| == |ys| && forall i :: 0 <= i < |xs| ==> FormulaEq(xs[i], ys[i]);
      assert same ==> xs == ys;
      same
    case (Or(xs), Or(ys)) =>
      var same := |xs| == |ys| && forall i :: 0 <= i < |xs| ==> FormulaEq(xs[i], ys[i]);
      assert same ==> xs == ys;
      same
    case (Imply(a, b), Imply(c, d)) => FormulaEq(a, c) && FormulaEq(b, d)
    case (Implication(a, b), Implication(c, d)) => FormulaEq(a, c) && FormulaEq(b, d)
    case (Equiv(a, b), Equiv(c, d)) => FormulaEq(a, c) && FormulaEq(b, d)
    case _ => false
  }

  /** Python's `str.join`. */
  function Join(sep: string, parts: seq<string>): string
  {
    if |parts| == 0 then ""
    else if |parts| == 1 then parts[0]
    else parts[0] + sep + Join(sep, parts[1..])
  }

  /** `__str__`: an atom is its name; a prefix connector is its symbol followed by the child;
      an infix connector is its children joined by ` sym `, in parentheses. */
  function Render(f: Formula): string
  {
    match f
    case Atom(n) => n
    case Not(x) => StrSymbol(CNot) + Render(x)
    case And(xs) => RenderInfix(CAnd, RenderEach(xs))
    case Or(xs) => RenderInfix(COr, RenderEach(xs))
    case Imply(a, b) => RenderInfix(CImply, [Render(a), Render(b)])
    case Implication(a, b) => RenderInfix(CImplication, [Render(a), Render(b)])
    case Equiv(a, b) => RenderInfix(CEquiv, [Render(a), Render(b)])
  }

  /** The renderings of a list of children, in order. */
  function RenderEach(xs: seq<Formula>): (r: seq<string>)
    ensures |r| == |xs|
    ensures forall i :: 0 <= i < |xs| ==> r[i] == Render(xs[i])
  {
    seq(|xs|, i requires 0 <= i < |xs| => Render(xs[i]))
  }

  function RenderInfix(c: Connective, parts: seq<string>): string
  {
    "(" + Join(" " + StrSymbol(c) + " ", parts) + ")"
  }

  /** Binary view of an n-ary `And`/`Or`/implication node: the operands as a list. */
  function Operands(f: Formula): seq<Formula>
  {
    match f
    case Atom(_) => []
    case Not(x) => [x]
    case And(xs) => xs
    case Or(xs) => xs
    case Imply(a, b) => [a, b]
    case Implication(a, b) => [a, b]
    case Equiv(a, b) => [a, b]
  }

  /** Classical truth value under a valuation of atom names. */
  predicate Eval(v: string -> bool, f: Formula)
  {
    match f
    case Atom(n) => v(n)
    case Not(x) => !Eval(v, x)
    case And(xs) => forall i :: 0 <= i < |xs| ==> Eval(v, xs[i])
    case Or(xs) => exists i :: 0 <= i < |xs| && Eval(v, xs[i])
    case Imply(a, b) => !Eval(v, a) || Eval(v, b)
    case Implication(a, b) => !Eval(v, a) || Eval(v, b)
    case Equiv(a, b) => Eval(v, a) == Eval(v, b)
  }

  /** Every `And`/`Or` node has at least one child, as every parsed formula does. */
  predicate Proper(f: Formula)
  {
    match f
    case Atom(_) => true
    case Not(x) => Proper(x)
    case And(xs) => |xs| > 0 && forall i :: 0 <= i < |xs| ==> Proper(xs[i])
    case Or(xs) => |xs| > 0 && forall i :: 0 <= i < |xs| ==> Proper(xs[i])
    case Imply(a, b) => Proper(a) && Proper(b)
    case Implication(a, b) => Proper(a) && Proper(b)
    case Equiv(a, b) => Proper(a) && Proper(b)
  }

  /** No `Equiv` node anywhere in the tree. */
  predicate EquivFree(f: Formula)
  {
    match f
    case Atom(_) => true
    case Not(x) => EquivFree(x)
    case And(xs) => forall i :: 0 <= i < |xs| ==> EquivFree(xs[i])
    case Or(xs) => forall i :: 0 <= i < |xs| ==> EquivFree(xs[i])
    case Imply(a, b) => EquivFree(a) && EquivFree(b)
    case Implication(a, b) => EquivFree(a) && EquivFree(b)
    case Equiv(_, _) => false
  }

  /** A CNF literal: an atom or a negated atom. */
  predicate IsLiteral(f: Formula)
  {
    f.Atom? || (f.Not? && f.sub.Atom?)
  }

  /** A two-child `Or` is a disjunction and a two-child `And` a conjunction. */
  lemma EvalPair(v: string -> bool, x: Formula, y: Formula)
    ensures Eval(v, Or([x, y])) == (Eval(v, x) || Eval(v, y))
    ensures Eval(v, And([x, y])) == (Eval(v, x) && Eval(v, y))
  {
    assert [x, y][0] == x && [x, y][1] == y;
  }

  /** The plain renderings the source's inline test table expects (plogic.py:177,185-192). */
  lemma RenderNegatedOr()
    ensures Render(Not(Or([Atom("B"), Atom("C")]))) == "!(B | C)"
  {
    assert " " + StrSymbol(COr) + " " == " | ";
    assert RenderEach([Atom("B"), Atom("C")]) == ["B", "C"];
    assert Join(" | ", ["B", "C"]) == "B | C";
  }

  lemma JoinTwo(sep: string, a: string, b: string)
    ensures Join(sep, [a, b]) == a + sep + b
  {
    assert [a, b][1..] == [b];
  }

  lemma RenderPair()
    ensures Render(Or([Atom("P_1"), Atom("P_2")])) == "(P_1 | P_2)"
  {
    assert " " + StrSymbol(COr) + " " == " | ";
    assert RenderEach([Atom("P_1"), Atom("P_2")]) == ["P_1", "P_2"];
    JoinTwo(" | ", "P_1", "P_2");
  }

  lemma RenderEquiv()
    ensures Render(Equiv(Atom("B"), Or([Atom("P_1"), Atom("P_2")]))) == "(B <-> (P_1 | P_2))"
  {
    RenderPair();
    assert " " + StrSymbol(CEquiv) + " " == " <-> ";
    JoinTwo(" <-> ", "B", "(P_1 | P_2)");
  }
}
