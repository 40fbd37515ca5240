/** The tokenizer on plain text (parser.py:167-192), and the parser on concrete inputs: binding
    strength, grouping, default rules and each kind of error. */
module ParserExamples {
  import opened Wrappers
  import opened Symbols
  import opened Parser
  import opened ParserLaws

  /** The first characters of the plain-text symbols. */
  const Leads: string := "(:)E/!&|-=<"

  lemma TableStr()
    ensures Table(StrFormat) == [("(", LParen), (":", Colon), (")", RParen), ("End", End), ("/", Slash),
      ("!", Op(CNot)), ("&", Op(CAnd)), ("|", Op(COr)), ("->", Op(CImply)), ("=)", Op(CImplication)),
      ("<->", Op(CEquiv))]
  {
  }

  /** A plain-text symbol starts with its own lead character, and no two symbols share one. */
  lemma StartsWithLead(s: string, q: nat, k: nat)
    requires k < |Table(StrFormat)| && StartsAt(s, q, Table(StrFormat)[k].0)
    ensures q < |s| && s[q] == Table(StrFormat)[k].0[0] == Leads[k]
  {
    TableStr();
    var sym := Table(StrFormat)[k].0;
    assert s[q..q + |sym|][0] == s[q];
  }

  lemma SkipTo(s: string, p: nat, q: nat)
    requires p <= q <= |s| && (forall i :: p <= i < q ==> IsSpace(s[i])) && (q == |s| || !IsSpace(s[q]))
    ensures SkipSpace(s, p) == q
  {
    SkipSpaceStops(s, p);
  }

  /** After spaces, a plain-text symbol that is not cut out of a word is read as its token. */
  lemma SymbolRead(s: string, p: nat, q: nat, k: nat)
    requires p <= q < |s| && (forall i :: p <= i < q ==> IsSpace(s[i])) && !IsSpace(s[q])
    requires k < |Table(StrFormat)| && Matches(StrFormat, s, q, k)
    ensures At(Lex(StrFormat, s), p, q + |Table(StrFormat)[k].0|, Sym(Table(StrFormat)[k].1))
  {
    SkipTo(s, p, q);
    StartsWithLead(s, q, k);
    forall j | 0 <= j < k ensures !Matches(StrFormat, s, q, j) {
      if Matches(StrFormat, s, q, j) {
        StartsWithLead(s, q, j);
      }
    }
    ScanSymbol(StrFormat, s, q, k);
  }

  /** No plain-text symbol starts with a character that is not a lead character. */
  lemma NoSymbol(s: string, q: nat)
    requires q < |s| && s[q] !in Leads
    ensures MatchSymbol(StrFormat, s, q, 0) == None
  {
    MatchSymbolFirst(StrFormat, s, q, 0);
    var r := MatchSymbol(StrFormat, s, q, 0);
    if r.Some? {
      StartsWithLead(s, q, r.value);
    }
  }

  /** After spaces, a single letter that starts no symbol and is not followed by a letter or `_`
      is read as an atom. */
  lemma LetterRead(s: string, p: nat, q: nat)
    requires p <= q < |s| && (forall i :: p <= i < q ==> IsSpace(s[i])) && !IsSpace(s[q])
    requires IsLetter(s[q]) && s[q] != 'E' && (q + 1 == |s| || (!IsLetter(s[q + 1]) && s[q + 1] != '_'))
    ensures At(Lex(StrFormat, s), p, q + 1, AtomTok([s[q]]))
  {
    SkipTo(s, p, q);
    NoSymbol(s, q);
    OneLetterAtom(s, q);
  }

  /** A letter followed by neither a letter nor an underscore is an atom of its own. */
  lemma OneLetterAtom(s: string, q: nat)
    requires q < |s| && IsLetter(s[q]) && (q + 1 == |s| || (!IsLetter(s[q + 1]) && s[q + 1] != '_'))
    ensures ReadAtom(s, q) == Ok(St(q + 1, AtomTok([s[q]])))
  {
    assert LetterRun(s, q + 1) == 0;
    assert AtomLength(s, q) == 1;
    assert s[q..q + 1] == [s[q]];
  }

  /** A text opening with `p` and a space reads `p` first. */
  lemma LeadingP(s: string)
    requires |s| >= 2 && s[0] == 'p' && s[1] == ' '
    ensures At(Lex(StrFormat, s), 0, 1, AtomTok("p"))
  {
    LetterRead(s, 0, 0);
  }

  /** Only spaces left: the end marker, at the end of the text. */
  lemma EndRead(s: string, p: nat)
    requires p <= |s| && forall i :: p <= i < |s| ==> IsSpace(s[i])
    ensures At(Lex(StrFormat, s), p, |s|, Sym(End))
  {
    SkipTo(s, p, |s|);
  }

  /** After spaces, a character that starts neither a symbol nor an atom is an error there. */
  lemma UnknownRead(s: string, p: nat, q: nat)
    requires p <= q < |s| && (forall i :: p <= i < q ==> IsSpace(s[i])) && !IsSpace(s[q])
    requires s[q] !in Leads && !IsLetter(s[q]) && s[q] != '\\'
    ensures Lex(StrFormat, s)[p] == Err(SyntaxAt(q, Excerpt(s, q), "Unknown symbol!"))
  {
    SkipTo(s, p, q);
    NoSymbol(s, q);
    assert LetterRun(s, q) == 0;
  }

  /** The parse of a text whose tokens are `a c1 b c2 d`. */
  lemma TwoOpsParse(fmt: Format, s: string, a: string, c1: Connective, b: string, c2: Connective, d: string,
                    p1: nat, p2: nat, p3: nat, p4: nat, p5: nat, p6: nat)
    requires c1 != CNot && c2 != CNot
    requires At(Lex(fmt, s), 0, p1, AtomTok(a)) && At(Lex(fmt, s), p1, p2, Sym(Op(c1)))
    requires At(Lex(fmt, s), p2, p3, AtomTok(b)) && At(Lex(fmt, s), p3, p4, Sym(Op(c2)))
    requires At(Lex(fmt, s), p4, p5, AtomTok(d)) && At(Lex(fmt, s), p5, p6, Sym(End)) && Lex(fmt, s)[p6].Ok?
    ensures Parse(fmt, s) == Ok(Shape(a, c1, b, c2, d))
  {
    LexLexes(fmt, s);
    TwoOps(s, Lex(fmt, s), a, c1, b, c2, d, p1, p2, p3, p4, p5, p6);
  }

  // `p & q | r`

  lemma AndOrAnd(s: string)
    requires s == "p & q | r"
    ensures At(Lex(StrFormat, s), 1, 3, Sym(Op(CAnd)))
  {
    TableStr();
    SymbolRead(s, 1, 2, 6);
  }

  lemma AndOrQ(s: string)
    requires s == "p & q | r"
    ensures At(Lex(StrFormat, s), 3, 5, AtomTok("q"))
  {
    LetterRead(s, 3, 4);
  }

  lemma AndOrOr(s: string)
    requires s == "p & q | r"
    ensures At(Lex(StrFormat, s), 5, 7, Sym(Op(COr)))
  {
    TableStr();
    SymbolRead(s, 5, 6, 7);
  }

  lemma AndOrR(s: string)
    requires s == "p & q | r"
    ensures At(Lex(StrFormat, s), 7, 9, AtomTok("r"))
  {
    LetterRead(s, 7, 8);
  }

  lemma AndOrEnd(s: string)
    requires s == "p & q | r"
    ensures At(Lex(StrFormat, s), 9, 9, Sym(End))
  {
    EndRead(s, 9);
  }

  lemma AndOrTokens(s: string)
    requires At(Lex(StrFormat, s), 0, 1, AtomTok("p")) && At(Lex(StrFormat, s), 1, 3, Sym(Op(CAnd)))
    requires At(Lex(StrFormat, s), 3, 5, AtomTok("q")) && At(Lex(StrFormat, s), 5, 7, Sym(Op(COr)))
    requires At(Lex(StrFormat, s), 7, 9, AtomTok("r")) && At(Lex(StrFormat, s), 9, 9, Sym(End))
    ensures Parse(StrFormat, s) == Ok(NBin(COr, NBin(CAnd, NAtom("p"), NAtom("q")), NAtom("r")))
  {
    assert Shape("p", CAnd, "q", COr, "r") == NBin(COr, NBin(CAnd, NAtom("p"), NAtom("q")), NAtom("r"));
    TwoOpsParse(StrFormat, s, "p", CAnd, "q", COr, "r", 1, 3, 5, 7, 9, 9);
  }

  /** `&` and `|` have the same power, so they group to the left. */
  lemma AndThenOr(s: string)
    requires s == "p & q | r"
    ensures Parse(StrFormat, s) == Ok(NBin(COr, NBin(CAnd, NAtom("p"), NAtom("q")), NAtom("r")))
  {
    LeadingP(s); AndOrAnd(s); AndOrQ(s); AndOrOr(s); AndOrR(s); AndOrEnd(s);
    AndOrTokens(s);
  }

  // `p -> q -> r`

  lemma ImpFirst(s: string)
    requires s == "p -> q -> r"
    ensures At(Lex(StrFormat, s), 1, 4, Sym(Op(CImply)))
  {
    TableStr();
    SymbolRead(s, 1, 2, 8);
  }

  lemma ImpQ(s: string)
    requires s == "p -> q -> r"
    ensures At(Lex(StrFormat, s), 4, 6, AtomTok("q"))
  {
    LetterRead(s, 4, 5);
  }

  lemma ImpSecond(s: string)
    requires s == "p -> q -> r"
    ensures At(Lex(StrFormat, s), 6, 9, Sym(Op(CImply)))
  {
    TableStr();
    SymbolRead(s, 6, 7, 8);
  }

  lemma ImpR(s: string)
    requires s == "p -> q -> r"
    ensures At(Lex(StrFormat, s), 9, 11, AtomTok("r"))
  {
    LetterRead(s, 9, 10);
  }

  lemma ImpEnd(s: string)
    requires s == "p -> q -> r"
    ensures At(Lex(StrFormat, s), 11, 11, Sym(End))
  {
    EndRead(s, 11);
  }

  lemma ImpTokens(s: string)
    requires At(Lex(StrFormat, s), 0, 1, AtomTok("p")) && At(Lex(StrFormat, s), 1, 4, Sym(Op(CImply)))
    requires At(Lex(StrFormat, s), 4, 6, AtomTok("q")) && At(Lex(StrFormat, s), 6, 9, Sym(Op(CImply)))
    requires At(Lex(StrFormat, s), 9, 11, AtomTok("r")) && At(Lex(StrFormat, s), 11, 11, Sym(End))
    ensures Parse(StrFormat, s) == Ok(NBin(CImply, NAtom("p"), NBin(CImply, NAtom("q"), NAtom("r"))))
  {
    assert Shape("p", CImply, "q", CImply, "r") == NBin(CImply, NAtom("p"), NBin(CImply, NAtom("q"), NAtom("r")));
    TwoOpsParse(StrFormat, s, "p", CImply, "q", CImply, "r", 1, 4, 6, 9, 11, 11);
  }

  /** `->` groups to the right. */
  lemma ImplyChain(s: string)
    requires s == "p -> q -> r"
    ensures Parse(StrFormat, s) == Ok(NBin(CImply, NAtom("p"), NBin(CImply, NAtom("q"), NAtom("r"))))
  {
    LeadingP(s); ImpFirst(s); ImpQ(s); ImpSecond(s); ImpR(s); ImpEnd(s);
    ImpTokens(s);
  }

  // `p ? q`

  lemma UnknownMark(s: string)
    requires s == "p ? q"
    ensures Lex(StrFormat, s)[1] == Err(SyntaxAt(2, "? q", "Unknown symbol!"))
  {
    UnknownRead(s, 1, 2);
    assert Excerpt(s, 2) == "? q";
  }

  /** An unknown character is reported at its position, with the text from there. */
  lemma UnknownCharacter(s: string)
    requires s == "p ? q"
    ensures Parse(StrFormat, s) == Err(SyntaxAt(2, "? q", "Unknown symbol!"))
  {
    LeadingP(s); UnknownMark(s);
    LexLexes(StrFormat, s);
    BadSecondToken(s, Lex(StrFormat, s), "p", 1, SyntaxAt(2, "? q", "Unknown symbol!"));
  }

  // `p End q`

  lemma KeywordEnd(s: string)
    requires s == "p End q"
    ensures At(Lex(StrFormat, s), 1, 5, Sym(End))
  {
    TableStr();
    SymbolRead(s, 1, 2, 3);
  }

  lemma KeywordQ(s: string)
    requires s == "p End q"
    ensures At(Lex(StrFormat, s), 5, 7, AtomTok("q"))
  {
    LetterRead(s, 5, 6);
  }

  /** The word `End` ends the input: what follows it is ignored. */
  lemma EndWord(s: string)
    requires s == "p End q"
    ensures Parse(StrFormat, s) == Ok(NAtom("p"))
  {
    LeadingP(s); KeywordEnd(s); KeywordQ(s);
    LexLexes(StrFormat, s);
    EndKeyword(s, Lex(StrFormat, s), "p", 1, 5, 7, AtomTok("q"));
  }
}
