/** The Pratt parser of parser.py: a tokenizer driven by an ordered symbol table, and
    `expression(rbp)` with left binding powers. The parser object's mutable state (position and
    current token) becomes an explicit state value threaded through the functions.

    The tokenizer is lazy in the source: `next` reads one token when the parser asks for it, and a
    bad character after the point where parsing stops is never looked at. What `next` reads
    depends only on the position it starts from, so the parser here looks tokens up in `Lex`, the
    sequence of what `next` would read from every position; it consults only the positions it
    reaches, so the laziness is kept. */
module Parser {
  import opened Wrappers
  import opened Symbols
  import opened Rules

  /** The two symbol tables: plain text and markup. */
  datatype Format = StrFormat | LatexFormat

  /** The tokens of the symbol table. */
  datatype Kind = LParen | Colon | RParen | End | Slash | Op(c: Connective)

  datatype Token = Sym(kind: Kind) | AtomTok(name: string)

  /** What `parse` builds. A rule is an ordinary infix result, so nothing stops a rule from
      appearing under a connective; `AsFormula` and `AsRule` tell the cases apart. */
  datatype Node =
    | NAtom(name: string)
    | NNot(x: Node)
    | NBin(c: Connective, l: Node, r: Node)
    | NRule(pre: Node, jus: Node, cons: Node)

  datatype ParseError =
    | EmptyString
    | EndsTooEarly
      /** `Syntax Error at <pos> [...<excerpt>...]: <msg>` */
    | SyntaxAt(pos: nat, excerpt: string, msg: string)
      /** A token with no prefix (or infix) use: the source raises `NotImplementedError`. */
    | NoHandler(t: Token)

  function ConnectiveSymbol(fmt: Format, c: Connective): string
  {
    if fmt == StrFormat then StrSymbol(c) else LatexSymbol(c)
  }

  /** `SYMBOLS[format]` in registration order, which is the order the tokenizer tries them. */
  function Table(fmt: Format): seq<(string, Kind)>
  {
    [("(", LParen), (":", Colon), (")", RParen), ("End", End), ("/", Slash),
     (ConnectiveSymbol(fmt, CNot), Op(CNot)), (ConnectiveSymbol(fmt, CAnd), Op(CAnd)),
     (ConnectiveSymbol(fmt, COr), Op(COr)), (ConnectiveSymbol(fmt, CImply), Op(CImply)),
     (ConnectiveSymbol(fmt, CImplication), Op(CImplication)), (ConnectiveSymbol(fmt, CEquiv), Op(CEquiv))]
  }

  /** The name `advance` reports in "Expect symbol: ...". */
  function KindName(k: Kind): string
  {
    match k
    case LParen => "("
    case Colon => ":"
    case RParen => ")"
    case End => "End"
    case Slash => "/"
    case Op(c) => StrSymbol(c)
  }

  /** Left binding powers: `:` 10, implications and `<->` 20, `&` and `|` 30, everything else 0. */
  function Lbp(t: Token): nat
  {
    match t
    case Sym(Colon) => 10
    case Sym(Op(CAnd)) => 30
    case Sym(Op(COr)) => 30
    case Sym(Op(CImply)) => 20
    case Sym(Op(CImplication)) => 20
    case Sym(Op(CEquiv)) => 20
    case _ => 0
  }

  /** The power an infix connective parses its right operand with: one less than its own for the
      right-associative implications. */
  function RightPower(c: Connective): nat
  {
    if c == CImply || c == CImplication then Lbp(Sym(Op(c))) - 1 else Lbp(Sym(Op(c)))
  }

  const ErrorLength: nat := 7

  /** Whitespace as `str.isspace` sees it: tab to carriage return, the four separator controls,
      space, and the Unicode spaces and line separators. */
  predicate IsSpace(c: char)
  {
    9 <= c as int <= 13 || 28 <= c as int <= 32 || c as int == 0x85 || c as int == 0xA0 ||
    c as int == 0x1680 || 0x2000 <= c as int <= 0x200A || c as int == 0x2028 || c as int == 0x2029 ||
    c as int == 0x202F || c as int == 0x205F || c as int == 0x3000
  }

  predicate IsLetter(c: char)
  {
    'a' <= c <= 'z' || 'A' <= c <= 'Z'
  }

  predicate IsDigit(c: char)
  {
    '0' <= c <= '9'
  }

  predicate IsAlnum(c: char)
  {
    IsLetter(c) || IsDigit(c)
  }

  /** `skip_space`: the first position at or after `p` that is not whitespace. */
  function SkipSpace(s: string, p: nat): (r: nat)
    requires p <= |s|
    ensures p <= r <= |s|
    decreases |s| - p
  {
    if p < |s| && IsSpace(s[p]) then SkipSpace(s, p + 1) else p
  }

  /** `skip_space` passes only whitespace and stops at the end or at a character that is not. */
  lemma {:induction false} SkipSpaceStops(s: string, p: nat)
    requires p <= |s|
    ensures forall i :: p <= i < SkipSpace(s, p) ==> IsSpace(s[i])
    ensures SkipSpace(s, p) == |s| || !IsSpace(s[SkipSpace(s, p)])
    decreases |s| - p
  {
    if p < |s| && IsSpace(s[p]) {
      SkipSpaceStops(s, p + 1);
    }
  }

  predicate StartsAt(s: string, p: nat, sym: string)
  {
    p + |sym| <= |s| && s[p..p + |sym|] == sym
  }

  /** An alphanumeric-ended symbol does not match in the middle of a word. */
  predicate Blocked(s: string, p: nat, sym: string)
    requires StartsAt(s, p, sym)
  {
    |sym| > 0 && IsAlnum(sym[|sym| - 1]) && p + |sym| < |s| && IsAlnum(s[p + |sym|])
  }

  /** Table entry `k` is read at `p`: its symbol starts there and is not cut out of a word. */
  predicate Matches(fmt: Format, s: string, p: nat, k: nat)
    requires k < |Table(fmt)|
  {
    StartsAt(s, p, Table(fmt)[k].0) && !Blocked(s, p, Table(fmt)[k].0)
  }

  /** The first table entry, from index `k` on, that matches at `p`. */
  function MatchSymbol(fmt: Format, s: string, p: nat, k: nat): (r: Option<nat>)
    requires k <= |Table(fmt)|
    ensures r.Some? ==> k <= r.value < |Table(fmt)| && Matches(fmt, s, p, r.value)
    decreases |Table(fmt)| - k
  {
    if k == |Table(fmt)| then None
    else if Matches(fmt, s, p, k) then Some(k)
    else MatchSymbol(fmt, s, p, k + 1)
  }

  /** No entry before the one found (from `k` on) matches. */
  lemma {:induction false} MatchSymbolFirst(fmt: Format, s: string, p: nat, k: nat)
    requires k <= |Table(fmt)|
    ensures MatchSymbol(fmt, s, p, k).Some? ==>
      forall j :: k <= j < MatchSymbol(fmt, s, p, k).value ==> !Matches(fmt, s, p, j)
    decreases |Table(fmt)| - k
  {
    if k < |Table(fmt)| && !Matches(fmt, s, p, k) {
      MatchSymbolFirst(fmt, s, p, k + 1);
    }
  }

  /** No entry found means no entry from `k` on matches. */
  lemma {:induction false} MatchSymbolNone(fmt: Format, s: string, p: nat, k: nat)
    requires k <= |Table(fmt)|
    ensures MatchSymbol(fmt, s, p, k).None? ==> forall j :: k <= j < |Table(fmt)| ==> !Matches(fmt, s, p, j)
    decreases |Table(fmt)| - k
  {
    if k < |Table(fmt)| && !Matches(fmt, s, p, k) {
      MatchSymbolNone(fmt, s, p, k + 1);
    }
  }

  /** The search from `j` finds entry `k` when `k` matches and nothing between does. */
  lemma {:induction false} MatchSymbolIs(fmt: Format, s: string, p: nat, k: nat, j: nat)
    requires j <= k < |Table(fmt)| && Matches(fmt, s, p, k)
    requires forall i :: j <= i < k ==> !Matches(fmt, s, p, i)
    ensures MatchSymbol(fmt, s, p, j) == Some(k)
    decreases k - j
  {
    if j < k {
      MatchSymbolIs(fmt, s, p, k, j + 1);
    }
  }

  /** The number of letters from `i` on. */
  function LetterRun(s: string, i: nat): (r: nat)
    ensures i + r <= |s| || (i >= |s| && r == 0)
    decreases |s| - i
  {
    if i < |s| && IsLetter(s[i]) then 1 + LetterRun(s, i + 1) else 0
  }

  /** The run is maximal: letters up to its end, and no letter right after it. */
  lemma {:induction false} LetterRunMaximal(s: string, i: nat)
    ensures forall j :: i <= j < i + LetterRun(s, i) ==> IsLetter(s[j])
    ensures i + LetterRun(s, i) >= |s| || !IsLetter(s[i + LetterRun(s, i)])
    decreases |s| - i
  {
    if i < |s| && IsLetter(s[i]) {
      LetterRunMaximal(s, i + 1);
    }
  }

  /** A whole match of the atom pattern `\\?[a-zA-Z]+(_[0-9])?`: an optional backslash, letters,
      and an optional underscore and digit. */
  predicate AtomPattern(w: string)
  {
    var b := if |w| > 0 && w[0] == '\\' then 1 else 0;
    (|w| > b && forall i :: b <= i < |w| ==> IsLetter(w[i])) ||
    (|w| >= b + 3 && w[|w| - 2] == '_' && IsDigit(w[|w| - 1]) && forall i :: b <= i < |w| - 2 ==> IsLetter(w[i]))
  }

  /** The `m` characters from `p` are a whole match of the atom pattern. */
  predicate AtomAt(s: string, p: nat, m: nat)
  {
    p + m <= |s| && AtomPattern(s[p..p + m])
  }

  /** The length of the match of the atom pattern at `p`, 0 for none. */
  function AtomLength(s: string, p: nat): (r: nat)
    requires p <= |s|
    ensures p + r <= |s|
  {
    var b := if p < |s| && s[p] == '\\' then 1 else 0;
    var k := LetterRun(s, p + b);
    if k == 0 then 0
    else if p + b + k + 1 < |s| && s[p + b + k] == '_' && IsDigit(s[p + b + k + 1]) then b + k + 2
    else b + k
  }

  /** What the greedy match at `p` reads is the longest text from `p` that matches the pattern;
      a length of 0 means no text from `p` matches. */
  lemma AtomLengthLongest(s: string, p: nat)
    requires p <= |s|
    ensures AtomLength(s, p) > 0 ==> AtomAt(s, p, AtomLength(s, p))
    ensures forall m :: AtomLength(s, p) < m ==> !AtomAt(s, p, m)
  {
    var b := if p < |s| && s[p] == '\\' then 1 else 0;
    var k := LetterRun(s, p + b);
    var n := AtomLength(s, p);
    LetterRunMaximal(s, p + b);
    if n > 0 {
      var w := s[p..p + n];
      assert w[0] == s[p];
      assert forall i :: b <= i < b + k ==> w[i] == s[p + i];
      if n == b + k + 2 {
        assert w[|w| - 2] == s[p + b + k] && w[|w| - 1] == s[p + b + k + 1];
      }
    }
    forall m | n < m ensures !AtomAt(s, p, m) {
      if p + m <= |s| {
        AtomLonger(s, p, m);
      }
    }
  }

  lemma AtomLonger(s: string, p: nat, m: nat)
    requires 0 < m && p + m <= |s| && AtomLength(s, p) < m
    ensures !AtomPattern(s[p..p + m])
  {
    var b := if p < |s| && s[p] == '\\' then 1 else 0;
    var k := LetterRun(s, p + b);
    LetterRunMaximal(s, p + b);
    var w := s[p..p + m];
    assert forall i :: 0 <= i < m ==> w[i] == s[p + i];
  }

  /** At most `ErrorLength` characters of the input, from `p` on. */
  function Excerpt(s: string, p: nat): (r: string)
    requires p <= |s|
    ensures |r| == if |s| - p < ErrorLength then |s| - p else ErrorLength
    ensures r <= s[p..]
  {
    if p + ErrorLength <= |s| then s[p..p + ErrorLength] else s[p..]
  }

  /** A syntax error points into the input and quotes it from there. */
  predicate Located(s: string, e: ParseError)
  {
    e.SyntaxAt? ==> e.pos <= |s| && e.excerpt == Excerpt(s, e.pos)
  }

  /** The parser's state: the current (not yet consumed) token and the position just after it. */
  datatype St = St(pos: nat, tok: Token)

  /** `next`: skip spaces, then read the token there. */
  function Next(fmt: Format, s: string, p: nat): (r: Result<St, ParseError>)
    requires p <= |s|
    ensures r.Ok? ==> p <= r.value.pos <= |s|
    ensures r.Ok? && r.value.tok != Sym(End) ==> p < r.value.pos
    ensures r.Err? ==> r.error.SyntaxAt? && Located(s, r.error)
  {
    Scan(fmt, s, SkipSpace(s, p))
  }

  /** The token at `q`: `End` at the end of the string; otherwise the first table symbol that
      matches (and is not cut out of a word), otherwise an atom, otherwise an error. */
  function Scan(fmt: Format, s: string, q: nat): (r: Result<St, ParseError>)
    requires q <= |s|
    ensures r.Ok? ==> q <= r.value.pos <= |s|
    ensures r.Ok? && r.value.tok != Sym(End) ==> q < r.value.pos
    ensures r.Ok? && r.value.tok.AtomTok? ==> r.value.tok.name == s[q..r.value.pos]
    ensures r.Err? ==> r.error.SyntaxAt? && Located(s, r.error)
  {
    if q >= |s| then Ok(St(q, Sym(End)))
    else
      match MatchSymbol(fmt, s, q, 0)
      case Some(k) =>
        SymbolsNonEmpty(fmt, k);
        Ok(St(q + |Table(fmt)[k].0|, Sym(Table(fmt)[k].1)))
      case None => ReadAtom(s, q)
  }

  /** The atom at `q`, or the error for a character that starts nothing. */
  function ReadAtom(s: string, q: nat): (r: Result<St, ParseError>)
    requires q < |s|
    ensures r.Ok? ==> q < r.value.pos <= |s| && r.value.tok.AtomTok? && r.value.tok.name == s[q..r.value.pos]
    ensures r.Err? ==> r.error.SyntaxAt? && Located(s, r.error)
  {
    var n := AtomLength(s, q);
    if n > 0 then Ok(St(q + n, AtomTok(s[q..q + n])))
    else Err(SyntaxAt(q, Excerpt(s, q), "Unknown symbol!"))
  }

  /** Every symbol of either table has at least one character. */
  lemma SymbolsNonEmpty(fmt: Format, k: nat)
    requires k < |Table(fmt)|
    ensures |Table(fmt)[k].0| > 0
  {
  }

  /** Where a table symbol is read at `q`, the token is the first such symbol. */
  lemma ScanSymbol(fmt: Format, s: string, q: nat, k: nat)
    requires q < |s| && k < |Table(fmt)| && Matches(fmt, s, q, k)
    requires forall j :: 0 <= j < k ==> !Matches(fmt, s, q, j)
    ensures Scan(fmt, s, q) == Ok(St(q + |Table(fmt)[k].0|, Sym(Table(fmt)[k].1)))
  {
    MatchSymbolIs(fmt, s, q, k, 0);
    ScanFound(fmt, s, q, k);
  }

  lemma ScanFound(fmt: Format, s: string, q: nat, k: nat)
    requires q < |s| && k < |Table(fmt)| && MatchSymbol(fmt, s, q, 0) == Some(k)
    ensures Scan(fmt, s, q) == Ok(St(q + |Table(fmt)[k].0|, Sym(Table(fmt)[k].1)))
  {
  }

  /** Where no table symbol is read at `q`, the token is the longest atom there; with none,
      reading fails at `q`. */
  lemma ScanAtom(fmt: Format, s: string, q: nat)
    requires q < |s| && forall j :: 0 <= j < |Table(fmt)| ==> !Matches(fmt, s, q, j)
    ensures Scan(fmt, s, q).Ok? ==>
      var st := Scan(fmt, s, q).value;
      st.tok.AtomTok? && AtomAt(s, q, st.pos - q) && forall m :: st.pos - q < m ==> !AtomAt(s, q, m)
    ensures Scan(fmt, s, q).Err? ==>
      Scan(fmt, s, q).error == SyntaxAt(q, Excerpt(s, q), "Unknown symbol!") && forall m :: 0 < m ==> !AtomAt(s, q, m)
  {
    MatchSymbolFirst(fmt, s, q, 0);
    AtomLengthLongest(s, q);
  }

  /** What `next` reads from every position of the text. */
  type Lexed = seq<Result<St, ParseError>>

  function Lex(fmt: Format, s: string): (lx: Lexed)
    ensures |lx| == |s| + 1
    ensures forall p :: 0 <= p <= |s| ==> lx[p] == Next(fmt, s, p)
  {
    seq(|s| + 1, p requires 0 <= p <= |s| => Next(fmt, s, p))
  }

  /** What the parser relies on about reading at `p`: the position never moves back, it moves
      forward past every token but the end marker, and a failure is located in the text. */
  predicate LexedAt(s: string, r: Result<St, ParseError>, p: nat)
  {
    (r.Ok? ==> p <= r.value.pos <= |s| && (r.value.tok != Sym(End) ==> p < r.value.pos)) &&
    (r.Err? ==> Located(s, r.error))
  }

  predicate Lexes(s: string, lx: Lexed)
  {
    |lx| == |s| + 1 && forall p :: 0 <= p < |lx| ==> LexedAt(s, lx[p], p)
  }

  lemma LexLexes(fmt: Format, s: string)
    ensures Lexes(s, Lex(fmt, s))
  {
    var lx := Lex(fmt, s);
    forall p | 0 <= p < |lx| ensures LexedAt(s, lx[p], p) {
      assert lx[p] == Next(fmt, s, p);
    }
  }

  /** A termination measure: the characters not yet read, plus one while a real token is pending. */
  function Measure(s: string, st: St): nat
    requires st.pos <= |s|
  {
    |s| - st.pos + (if st.tok == Sym(End) then 0 else 1)
  }

  predicate Valid(s: string, st: St)
  {
    st.pos <= |s|
  }

  /** `advance(name)`: consume the expected token or report where the parser stands. */
  function Advance(s: string, lx: Lexed, st: St, k: Kind): (r: Result<St, ParseError>)
    requires Lexes(s, lx) && Valid(s, st)
    ensures r.Ok? ==> st.tok == Sym(k) && Valid(s, r.value) && Measure(s, r.value) <= Measure(s, st)
    ensures st.tok != Sym(k) ==> r.Err? && r.error.SyntaxAt? && r.error.pos == st.pos
    ensures r.Err? ==> Located(s, r.error)
  {
    if st.tok == Sym(k) then lx[st.pos]
    else Err(SyntaxAt(st.pos, Excerpt(s, st.pos), "Expect symbol: " + KindName(k)))
  }

  /** `expression(rbp)`: a prefix use of the current token, then infix uses while the next token
      binds tighter than `rbp`. An `End` token is consumed first (reading past it may fail), then
      reported as the input ending too early. */
  function Expression(s: string, lx: Lexed, st: St, rbp: nat): (r: Result<(Node, St), ParseError>)
    requires Lexes(s, lx) && Valid(s, st)
    ensures r.Ok? ==> Valid(s, r.value.1) && Measure(s, r.value.1) < Measure(s, st)
    ensures r.Ok? ==> Lbp(r.value.1.tok) <= rbp
    ensures r.Err? ==> Located(s, r.error)
    decreases Measure(s, st), 0
  {
    if st.tok == Sym(End) then
      (match lx[st.pos]
       case Err(e) => Err(e)
       case Ok(_) => Err(EndsTooEarly))
    else
      match lx[st.pos]
      case Err(e) => Err(e)
      case Ok(st1) =>
        match Prefix(s, lx, st.tok, st1)
        case Err(e) => Err(e)
        case Ok((left, st2)) => Loop(s, lx, left, st2, rbp)
  }

  /** `as_prefix`: an atom, a parenthesised expression, or a negation binding with power 50. */
  function Prefix(s: string, lx: Lexed, t: Token, st: St): (r: Result<(Node, St), ParseError>)
    requires Lexes(s, lx) && Valid(s, st)
    ensures r.Ok? ==> Valid(s, r.value.1) && Measure(s, r.value.1) <= Measure(s, st)
    ensures r.Err? ==> Located(s, r.error)
    decreases Measure(s, st), 1
  {
    match t
    case AtomTok(n) => Ok((NAtom(n), st))
    case Sym(LParen) =>
      (match Expression(s, lx, st, 0)
       case Err(e) => Err(e)
       case Ok((e, st1)) =>
         match Advance(s, lx, st1, RParen)
         case Err(err) => Err(err)
         case Ok(st2) => Ok((e, st2)))
    case Sym(Op(CNot)) =>
      (match Expression(s, lx, st, 50)
       case Err(e) => Err(e)
       case Ok((x, st1)) => Ok((NNot(x), st1)))
    case _ => Err(NoHandler(t))
  }

  /** The `while rbp < cur_token.lbp` loop of `expression`. */
  function Loop(s: string, lx: Lexed, left: Node, st: St, rbp: nat): (r: Result<(Node, St), ParseError>)
    requires Lexes(s, lx) && Valid(s, st)
    ensures r.Ok? ==> Valid(s, r.value.1) && Measure(s, r.value.1) <= Measure(s, st)
    ensures r.Ok? ==> Lbp(r.value.1.tok) <= rbp
    ensures r.Err? ==> Located(s, r.error)
    decreases Measure(s, st), 1
  {
    if Lbp(st.tok) <= rbp then Ok((left, st))
    else
      match lx[st.pos]
      case Err(e) => Err(e)
      case Ok(st1) =>
        match Infix(s, lx, st.tok, left, st1)
        case Err(e) => Err(e)
        case Ok((left1, st2)) => Loop(s, lx, left1, st2, rbp)
  }

  /** `as_infix`: a connective with its right operand, or a default rule `pre : jus / cons`. */
  function Infix(s: string, lx: Lexed, t: Token, left: Node, st: St): (r: Result<(Node, St), ParseError>)
    requires Lexes(s, lx) && Valid(s, st)
    ensures r.Ok? ==> Valid(s, r.value.1) && Measure(s, r.value.1) <= Measure(s, st)
    ensures r.Err? ==> Located(s, r.error)
    decreases Measure(s, st), 1
  {
    match t
    case Sym(Colon) =>
      (match Expression(s, lx, st, 0)
       case Err(e) => Err(e)
       case Ok((jus, st1)) =>
         match Advance(s, lx, st1, Slash)
         case Err(e) => Err(e)
         case Ok(st2) =>
           match Expression(s, lx, st2, 0)
           case Err(e) => Err(e)
           case Ok((cons, st3)) => Ok((NRule(left, jus, cons), st3)))
    case Sym(Op(c)) =>
      if c == CNot then Err(NoHandler(t))
      else
        (match Expression(s, lx, st, RightPower(c))
         case Err(e) => Err(e)
         case Ok((right, st1)) => Ok((NBin(c, left, right), st1)))
    case _ => Err(NoHandler(t))
  }

  /** `parse` over the tokens: an input that starts with `End` is empty (once reading past it
      succeeds); otherwise the whole input must be one expression followed by `End`. */
  function ParseTokens(s: string, lx: Lexed): (r: Result<Node, ParseError>)
    requires Lexes(s, lx)
    ensures r.Err? ==> Located(s, r.error)
  {
    match lx[0]
    case Err(e) => Err(e)
    case Ok(st0) =>
      if st0.tok == Sym(End) then
        (match lx[st0.pos]
         case Err(e) => Err(e)
         case Ok(_) => Err(EmptyString))
      else
        match Expression(s, lx, st0, 0)
        case Err(e) => Err(e)
        case Ok((n, st1)) =>
          match Advance(s, lx, st1, End)
          case Err(e) => Err(e)
          case Ok(_) => Ok(n)
  }

  /** `parse(string, format)`. */
  function Parse(fmt: Format, s: string): (r: Result<Node, ParseError>)
    ensures r.Err? ==> Located(s, r.error)
  {
    LexLexes(fmt, s);
    ParseTokens(s, Lex(fmt, s))
  }

  /** Input of nothing but whitespace is the empty string. */
  lemma ParseBlank(fmt: Format, s: string)
    requires forall i :: 0 <= i < |s| ==> IsSpace(s[i])
    ensures Parse(fmt, s) == Err(EmptyString)
  {
    var lx := Lex(fmt, s);
    LexLexes(fmt, s);
    SkipSpaceStops(s, 0);
    SkipSpaceStops(s, |s|);
    assert lx[0] == Next(fmt, s, 0) == Ok(St(|s|, Sym(End)));
    assert lx[|s|] == Next(fmt, s, |s|);
  }

  /** The node contains a default rule somewhere. */
  predicate HasRule(n: Node)
  {
    match n
    case NAtom(_) => false
    case NNot(x) => HasRule(x)
    case NBin(_, l, r) => HasRule(l) || HasRule(r)
    case NRule(_, _, _) => true
  }

  /** The formula a parse result denotes, if it holds no rule; binary `&` and `|` nodes become
      two-child `And` and `Or`. */
  function AsFormula(n: Node): (r: Option<Formula>)
    ensures r.Some? <==> !HasRule(n)
    ensures r.Some? ==> Proper(r.value)
  {
    match n
    case NAtom(a) => Some(Atom(a))
    case NNot(x) =>
      (match AsFormula(x)
       case None => None
       case Some(f) => Some(Not(f)))
    case NBin(c, l, r) =>
      (match (AsFormula(l), AsFormula(r))
       case (Some(a), Some(b)) => Some(Build(c, a, b))
       case _ => None)
    case NRule(_, _, _) => None
  }

  /** The default rule a parse result denotes: a rule node whose three parts are formulas. */
  function AsRule(n: Node): (r: Option<DefaultRule>)
    ensures r.Some? <==> n.NRule? && !HasRule(n.pre) && !HasRule(n.jus) && !HasRule(n.cons)
    ensures r.Some? ==>
      Some(r.value.pre) == AsFormula(n.pre) && Some(r.value.jus) == AsFormula(n.jus) &&
      Some(r.value.cons) == AsFormula(n.cons)
  {
    match n
    case NRule(p, j, c) =>
      (match (AsFormula(p), AsFormula(j), AsFormula(c))
       case (Some(a), Some(b), Some(d)) => Some(DefaultRule(a, b, d))
       case _ => None)
    case _ => None
  }

  /** The formula a binary node builds: `&` and `|` as two-operand `And` and `Or`. A negation
      never reaches here, since `!` has no infix use. */
  function Build(c: Connective, a: Formula, b: Formula): (r: Formula)
    ensures !r.Atom? && ConnectiveOf(r) == c
    ensures Operands(r) == if c == CNot then [a] else [a, b]
  {
    match c
    case CNot => Not(a)
    case CAnd => And([a, b])
    case COr => Or([a, b])
    case CImply => Imply(a, b)
    case CImplication => Implication(a, b)
    case CEquiv => Equiv(a, b)
  }
}
