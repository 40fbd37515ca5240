/** Laws of the Pratt parser (parser.py:131-165), stated over any token lookup that behaves like
    the tokenizer: which tree a run of tokens parses to, how binding power and associativity
    decide the shape, and which error a malformed run gives. */
module ParserLaws {
  import opened Wrappers
  import opened Symbols
  import opened Parser

  /** Reading at `p` gives token `t` and moves to `q`. */
  predicate At(lx: Lexed, p: nat, q: nat, t: Token)
  {
    p < |lx| && lx[p] == Ok(St(q, t))
  }

  /** An expression starting with an atom: the atom is its first operand, and the loop takes over
      at the token after it. */
  lemma ExprAtom(s: string, lx: Lexed, p: nat, a: string, q: nat, t: Token, rbp: nat)
    requires Lexes(s, lx) && p <= |s| && At(lx, p, q, t)
    ensures Expression(s, lx, St(p, AtomTok(a)), rbp) == Loop(s, lx, NAtom(a), St(q, t), rbp)
  {
  }

  /** The loop stops at a token that binds no tighter than the power it runs with. */
  lemma LoopStop(s: string, lx: Lexed, left: Node, st: St, rbp: nat)
    requires Lexes(s, lx) && Valid(s, st) && Lbp(st.tok) <= rbp
    ensures Loop(s, lx, left, st, rbp) == Ok((left, st))
  {
  }

  /** An atom followed by a token that does not bind is a whole operand. */
  lemma AtomOperand(s: string, lx: Lexed, p: nat, a: string, q: nat, t: Token, rbp: nat)
    requires Lexes(s, lx) && p <= |s| && At(lx, p, q, t) && Lbp(t) <= rbp
    ensures Expression(s, lx, St(p, AtomTok(a)), rbp) == Ok((NAtom(a), St(q, t)))
  {
    ExprAtom(s, lx, p, a, q, t, rbp);
    LoopStop(s, lx, NAtom(a), St(q, t), rbp);
  }

  /** A binary connective that binds tighter than the loop's power takes what was parsed so far as
      its left operand and parses its right operand with its own right power. */
  lemma LoopInfix(s: string, lx: Lexed, left: Node, p: nat, c: Connective, q: nat, t: Token,
                  right: Node, st: St, rbp: nat)
    requires Lexes(s, lx) && p <= |s| && c != CNot && rbp < Lbp(Sym(Op(c))) && At(lx, p, q, t)
    requires q <= |s| && Expression(s, lx, St(q, t), RightPower(c)) == Ok((right, st))
    ensures Loop(s, lx, left, St(p, Sym(Op(c))), rbp) == Loop(s, lx, NBin(c, left, right), st, rbp)
  {
  }

  /** A whole input: one expression, then the end marker (which must be readable past). */
  lemma Whole(s: string, lx: Lexed, p: nat, t: Token, n: Node, q: nat)
    requires Lexes(s, lx) && At(lx, 0, p, t) && t != Sym(End)
    requires p <= |s| && Expression(s, lx, St(p, t), 0) == Ok((n, St(q, Sym(End))))
    requires q < |lx| && lx[q].Ok?
    ensures ParseTokens(s, lx) == Ok(n)
  {
  }

  /** `a c b` for a binary connective `c`. */
  lemma OneOp(s: string, lx: Lexed, a: string, c: Connective, b: string, p1: nat, p2: nat, p3: nat, p4: nat)
    requires Lexes(s, lx) && c != CNot
    requires At(lx, 0, p1, AtomTok(a)) && At(lx, p1, p2, Sym(Op(c))) && At(lx, p2, p3, AtomTok(b))
    requires At(lx, p3, p4, Sym(End)) && p4 < |lx| && lx[p4].Ok?
    ensures ParseTokens(s, lx) == Ok(NBin(c, NAtom(a), NAtom(b)))
  {
    AtomOperand(s, lx, p3, b, p4, Sym(End), RightPower(c));
    LoopInfix(s, lx, NAtom(a), p2, c, p3, AtomTok(b), NAtom(b), St(p4, Sym(End)), 0);
    LoopStop(s, lx, NBin(c, NAtom(a), NAtom(b)), St(p4, Sym(End)), 0);
    ExprAtom(s, lx, p1, a, p2, Sym(Op(c)), 0);
    Whole(s, lx, p1, AtomTok(a), NBin(c, NAtom(a), NAtom(b)), p4);
  }

  /** The tree `a c1 b c2 d` parses to: `c2` takes `b` as its left operand exactly when it binds
      tighter than the power `c1` parses its right operand with. So `&` and `|` bind tighter than
      the implications and `<->`, `&`, `|` and `<->` group to the left, and `->` and `=)` group
      to the right. */
  function Shape(a: string, c1: Connective, b: string, c2: Connective, d: string): Node
  {
    if RightPower(c1) < Lbp(Sym(Op(c2))) then NBin(c1, NAtom(a), NBin(c2, NAtom(b), NAtom(d)))
    else NBin(c2, NBin(c1, NAtom(a), NAtom(b)), NAtom(d))
  }

  lemma TwoOps(s: string, lx: Lexed, a: string, c1: Connective, b: string, c2: Connective, d: string,
               p1: nat, p2: nat, p3: nat, p4: nat, p5: nat, p6: nat)
    requires Lexes(s, lx) && c1 != CNot && c2 != CNot
    requires At(lx, 0, p1, AtomTok(a)) && At(lx, p1, p2, Sym(Op(c1))) && At(lx, p2, p3, AtomTok(b))
    requires At(lx, p3, p4, Sym(Op(c2))) && At(lx, p4, p5, AtomTok(d))
    requires At(lx, p5, p6, Sym(End)) && p6 < |lx| && lx[p6].Ok?
    ensures ParseTokens(s, lx) == Ok(Shape(a, c1, b, c2, d))
  {
    ExprAtom(s, lx, p1, a, p2, Sym(Op(c1)), 0);
    if RightPower(c1) < Lbp(Sym(Op(c2))) {
      TwoOpsRight(s, lx, a, c1, b, c2, d, p1, p2, p3, p4, p5, p6);
    } else {
      TwoOpsLeft(s, lx, a, c1, b, c2, d, p1, p2, p3, p4, p5, p6);
    }
  }

  lemma TwoOpsRight(s: string, lx: Lexed, a: string, c1: Connective, b: string, c2: Connective, d: string,
                    p1: nat, p2: nat, p3: nat, p4: nat, p5: nat, p6: nat)
    requires Lexes(s, lx) && c1 != CNot && c2 != CNot && RightPower(c1) < Lbp(Sym(Op(c2)))
    requires At(lx, 0, p1, AtomTok(a)) && At(lx, p1, p2, Sym(Op(c1))) && At(lx, p2, p3, AtomTok(b))
    requires At(lx, p3, p4, Sym(Op(c2))) && At(lx, p4, p5, AtomTok(d))
    requires At(lx, p5, p6, Sym(End)) && p6 < |lx| && lx[p6].Ok?
    ensures Loop(s, lx, NAtom(a), St(p2, Sym(Op(c1))), 0) ==
      Ok((NBin(c1, NAtom(a), NBin(c2, NAtom(b), NAtom(d))), St(p6, Sym(End))))
  {
    var inner := NBin(c2, NAtom(b), NAtom(d));
    AtomOperand(s, lx, p5, d, p6, Sym(End), RightPower(c2));
    LoopInfix(s, lx, NAtom(b), p4, c2, p5, AtomTok(d), NAtom(d), St(p6, Sym(End)), RightPower(c1));
    LoopStop(s, lx, inner, St(p6, Sym(End)), RightPower(c1));
    ExprAtom(s, lx, p3, b, p4, Sym(Op(c2)), RightPower(c1));
    LoopInfix(s, lx, NAtom(a), p2, c1, p3, AtomTok(b), inner, St(p6, Sym(End)), 0);
    LoopStop(s, lx, NBin(c1, NAtom(a), inner), St(p6, Sym(End)), 0);
    Whole(s, lx, p1, AtomTok(a), NBin(c1, NAtom(a), inner), p6);
  }

  lemma TwoOpsLeft(s: string, lx: Lexed, a: string, c1: Connective, b: string, c2: Connective, d: string,
                   p1: nat, p2: nat, p3: nat, p4: nat, p5: nat, p6: nat)
    requires Lexes(s, lx) && c1 != CNot && c2 != CNot && Lbp(Sym(Op(c2))) <= RightPower(c1)
    requires At(lx, 0, p1, AtomTok(a)) && At(lx, p1, p2, Sym(Op(c1))) && At(lx, p2, p3, AtomTok(b))
    requires At(lx, p3, p4, Sym(Op(c2))) && At(lx, p4, p5, AtomTok(d))
    requires At(lx, p5, p6, Sym(End)) && p6 < |lx| && lx[p6].Ok?
    ensures Loop(s, lx, NAtom(a), St(p2, Sym(Op(c1))), 0) ==
      Ok((NBin(c2, NBin(c1, NAtom(a), NAtom(b)), NAtom(d)), St(p6, Sym(End))))
  {
    var first := NBin(c1, NAtom(a), NAtom(b));
    AtomOperand(s, lx, p3, b, p4, Sym(Op(c2)), RightPower(c1));
    LoopInfix(s, lx, NAtom(a), p2, c1, p3, AtomTok(b), NAtom(b), St(p4, Sym(Op(c2))), 0);
    AtomOperand(s, lx, p5, d, p6, Sym(End), RightPower(c2));
    LoopInfix(s, lx, first, p4, c2, p5, AtomTok(d), NAtom(d), St(p6, Sym(End)), 0);
    LoopStop(s, lx, NBin(c2, first, NAtom(d)), St(p6, Sym(End)), 0);
    Whole(s, lx, p1, AtomTok(a), NBin(c2, first, NAtom(d)), p6);
  }

  /** An expression starting with a token that has a prefix use: that use is its first operand. */
  lemma ExprPrefix(s: string, lx: Lexed, p: nat, t0: Token, q: nat, t1: Token, left: Node, st: St, rbp: nat)
    requires Lexes(s, lx) && p <= |s| && t0 != Sym(End) && At(lx, p, q, t1)
    requires q <= |s| && Prefix(s, lx, t0, St(q, t1)) == Ok((left, st))
    ensures Expression(s, lx, St(p, t0), rbp) == Loop(s, lx, left, st, rbp)
  {
  }

  /** A negated atom is an operand of its own: every infix connective binds more loosely than `!`. */
  lemma NotAtom(s: string, lx: Lexed, p: nat, q: nat, a: string, r: nat, t: Token)
    requires Lexes(s, lx) && p <= |s| && At(lx, p, q, AtomTok(a)) && At(lx, q, r, t)
    ensures Prefix(s, lx, Sym(Op(CNot)), St(q, AtomTok(a))) == Ok((NNot(NAtom(a)), St(r, t)))
  {
    AtomOperand(s, lx, q, a, r, t, 50);
  }

  /** A parenthesised expression is an operand, whatever it holds. */
  lemma Parenthesised(s: string, lx: Lexed, st: St, n: Node, q: nat, r: nat, t: Token)
    requires Lexes(s, lx) && Valid(s, st) && Expression(s, lx, st, 0) == Ok((n, St(q, Sym(RParen))))
    requires At(lx, q, r, t)
    ensures Prefix(s, lx, Sym(LParen), st) == Ok((n, St(r, t)))
  {
  }

  /** `! a c b`: the negation covers only `a`. */
  lemma NotFirst(s: string, lx: Lexed, a: string, c: Connective, b: string,
                 p1: nat, p2: nat, p3: nat, p4: nat, p5: nat, p6: nat)
    requires Lexes(s, lx) && c != CNot
    requires At(lx, 0, p1, Sym(Op(CNot))) && At(lx, p1, p2, AtomTok(a)) && At(lx, p2, p3, Sym(Op(c)))
    requires At(lx, p3, p4, AtomTok(b)) && At(lx, p4, p5, Sym(End)) && p5 < |lx| && lx[p5].Ok?
    ensures ParseTokens(s, lx) == Ok(NBin(c, NNot(NAtom(a)), NAtom(b)))
  {
    var na := NNot(NAtom(a));
    NotAtom(s, lx, p1, p2, a, p3, Sym(Op(c)));
    ExprPrefix(s, lx, p1, Sym(Op(CNot)), p2, AtomTok(a), na, St(p3, Sym(Op(c))), 0);
    AtomOperand(s, lx, p4, b, p5, Sym(End), RightPower(c));
    LoopInfix(s, lx, na, p3, c, p4, AtomTok(b), NAtom(b), St(p5, Sym(End)), 0);
    LoopStop(s, lx, NBin(c, na, NAtom(b)), St(p5, Sym(End)), 0);
    Whole(s, lx, p1, Sym(Op(CNot)), NBin(c, na, NAtom(b)), p5);
  }

  /** `a c1 ( b c2 d )`: parentheses group the right operand, whatever the two powers. */
  lemma Grouped(s: string, lx: Lexed, a: string, c1: Connective, b: string, c2: Connective, d: string,
                p1: nat, p2: nat, p3: nat, p4: nat, p5: nat, p6: nat, p7: nat, p8: nat)
    requires Lexes(s, lx) && c1 != CNot && c2 != CNot
    requires At(lx, 0, p1, AtomTok(a)) && At(lx, p1, p2, Sym(Op(c1))) && At(lx, p2, p3, Sym(LParen))
    requires At(lx, p3, p4, AtomTok(b)) && At(lx, p4, p5, Sym(Op(c2))) && At(lx, p5, p6, AtomTok(d))
    requires At(lx, p6, p7, Sym(RParen)) && At(lx, p7, p8, Sym(End)) && p8 < |lx| && lx[p8].Ok?
    ensures ParseTokens(s, lx) == Ok(NBin(c1, NAtom(a), NBin(c2, NAtom(b), NAtom(d))))
  {
    var inner := NBin(c2, NAtom(b), NAtom(d));
    GroupedInner(s, lx, b, c2, d, p3, p4, p5, p6, p7, p8);
    ExprPrefix(s, lx, p3, Sym(LParen), p4, AtomTok(b), inner, St(p8, Sym(End)), RightPower(c1));
    LoopStop(s, lx, inner, St(p8, Sym(End)), RightPower(c1));
    ExprAtom(s, lx, p1, a, p2, Sym(Op(c1)), 0);
    LoopInfix(s, lx, NAtom(a), p2, c1, p3, Sym(LParen), inner, St(p8, Sym(End)), 0);
    LoopStop(s, lx, NBin(c1, NAtom(a), inner), St(p8, Sym(End)), 0);
    Whole(s, lx, p1, AtomTok(a), NBin(c1, NAtom(a), inner), p8);
  }

  lemma GroupedInner(s: string, lx: Lexed, b: string, c2: Connective, d: string,
                     p3: nat, p4: nat, p5: nat, p6: nat, p7: nat, p8: nat)
    requires Lexes(s, lx) && c2 != CNot && p3 <= |s|
    requires At(lx, p3, p4, AtomTok(b)) && At(lx, p4, p5, Sym(Op(c2))) && At(lx, p5, p6, AtomTok(d))
    requires At(lx, p6, p7, Sym(RParen)) && At(lx, p7, p8, Sym(End))
    ensures Prefix(s, lx, Sym(LParen), St(p4, AtomTok(b))) == Ok((NBin(c2, NAtom(b), NAtom(d)), St(p8, Sym(End))))
  {
    var inner := NBin(c2, NAtom(b), NAtom(d));
    ExprAtom(s, lx, p4, b, p5, Sym(Op(c2)), 0);
    AtomOperand(s, lx, p6, d, p7, Sym(RParen), RightPower(c2));
    LoopInfix(s, lx, NAtom(b), p5, c2, p6, AtomTok(d), NAtom(d), St(p7, Sym(RParen)), 0);
    LoopStop(s, lx, inner, St(p7, Sym(RParen)), 0);
    Parenthesised(s, lx, St(p4, AtomTok(b)), inner, p7, p8, Sym(End));
  }

  /** `a : b / d`: a default rule. */
  lemma RuleOf(s: string, lx: Lexed, a: string, b: string, d: string,
               p1: nat, p2: nat, p3: nat, p4: nat, p5: nat, p6: nat)
    requires Lexes(s, lx)
    requires At(lx, 0, p1, AtomTok(a)) && At(lx, p1, p2, Sym(Colon)) && At(lx, p2, p3, AtomTok(b))
    requires At(lx, p3, p4, Sym(Slash)) && At(lx, p4, p5, AtomTok(d))
    requires At(lx, p5, p6, Sym(End)) && p6 < |lx| && lx[p6].Ok?
    ensures ParseTokens(s, lx) == Ok(NRule(NAtom(a), NAtom(b), NAtom(d)))
  {
    var rule := NRule(NAtom(a), NAtom(b), NAtom(d));
    ExprAtom(s, lx, p1, a, p2, Sym(Colon), 0);
    AtomOperand(s, lx, p3, b, p4, Sym(Slash), 0);
    AtomOperand(s, lx, p5, d, p6, Sym(End), 0);
    assert Infix(s, lx, Sym(Colon), NAtom(a), St(p3, AtomTok(b))) == Ok((rule, St(p6, Sym(End))));
    LoopStop(s, lx, rule, St(p6, Sym(End)), 0);
    Whole(s, lx, p1, AtomTok(a), rule, p6);
  }

  /** `a : b d`: the justification must be followed by `/`; the error points just past `d`. */
  lemma RuleWithoutSlash(s: string, lx: Lexed, a: string, b: string, d: string,
                         p1: nat, p2: nat, p3: nat, p4: nat)
    requires Lexes(s, lx)
    requires At(lx, 0, p1, AtomTok(a)) && At(lx, p1, p2, Sym(Colon)) && At(lx, p2, p3, AtomTok(b))
    requires At(lx, p3, p4, AtomTok(d))
    ensures ParseTokens(s, lx) == Err(SyntaxAt(p4, Excerpt(s, p4), "Expect symbol: /"))
  {
    ExprAtom(s, lx, p1, a, p2, Sym(Colon), 0);
    AtomOperand(s, lx, p3, b, p4, AtomTok(d), 0);
    assert "Expect symbol: " + KindName(Slash) == "Expect symbol: /";
    assert Infix(s, lx, Sym(Colon), NAtom(a), St(p3, AtomTok(b))) ==
      Err(SyntaxAt(p4, Excerpt(s, p4), "Expect symbol: /"));
  }

  /** `a b`: input left over after a whole expression; the error points just past `b`. */
  lemma Leftover(s: string, lx: Lexed, a: string, b: string, p1: nat, p2: nat)
    requires Lexes(s, lx) && At(lx, 0, p1, AtomTok(a)) && At(lx, p1, p2, AtomTok(b))
    ensures ParseTokens(s, lx) == Err(SyntaxAt(p2, Excerpt(s, p2), "Expect symbol: End"))
  {
    AtomOperand(s, lx, p1, a, p2, AtomTok(b), 0);
    assert "Expect symbol: " + KindName(End) == "Expect symbol: End";
  }

  /** `a c` with nothing after the connective: the right operand is missing. */
  lemma EndsEarly(s: string, lx: Lexed, a: string, c: Connective, p1: nat, p2: nat, p3: nat)
    requires Lexes(s, lx) && c != CNot
    requires At(lx, 0, p1, AtomTok(a)) && At(lx, p1, p2, Sym(Op(c))) && At(lx, p2, p3, Sym(End))
    requires p3 < |lx| && lx[p3].Ok?
    ensures ParseTokens(s, lx) == Err(EndsTooEarly)
  {
    ExprAtom(s, lx, p1, a, p2, Sym(Op(c)), 0);
    assert Expression(s, lx, St(p3, Sym(End)), RightPower(c)) == Err(EndsTooEarly);
  }

  /** A reading failure right after the first atom is the parse's failure. */
  lemma BadSecondToken(s: string, lx: Lexed, a: string, p1: nat, e: ParseError)
    requires Lexes(s, lx) && At(lx, 0, p1, AtomTok(a)) && p1 < |lx| && lx[p1] == Err(e)
    ensures ParseTokens(s, lx) == Err(e)
  {
  }

  /** `End` as the first token: the input counts as empty once reading past it succeeds, and
      whatever follows it is never parsed. */
  lemma LeadingEnd(s: string, lx: Lexed, p1: nat)
    requires Lexes(s, lx) && At(lx, 0, p1, Sym(End)) && p1 < |lx| && lx[p1].Ok?
    ensures ParseTokens(s, lx) == Err(EmptyString)
  {
  }

  /** `a End t`: the text `End` is the end marker wherever it stands, so whatever follows it is
      never parsed. */
  lemma EndKeyword(s: string, lx: Lexed, a: string, p1: nat, p2: nat, p3: nat, t: Token)
    requires Lexes(s, lx) && At(lx, 0, p1, AtomTok(a)) && At(lx, p1, p2, Sym(End)) && At(lx, p2, p3, t)
    ensures ParseTokens(s, lx) == Ok(NAtom(a))
  {
    AtomOperand(s, lx, p1, a, p2, Sym(End), 0);
    Whole(s, lx, p1, AtomTok(a), NAtom(a), p2);
  }
}
