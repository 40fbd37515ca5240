/** `CPLogic` (plogic.py:8-125): a classical theory kept as a list of formulas, an atom table
    numbering the atom names 1..n, and the integer clauses handed to the solver. Python mutates one
    object; here every operation takes a `Store` and returns the next one, and `copy()` is the
    identity. */
module PLogic {
  import opened Wrappers
  import opened Utils
  import opened Symbols
  import opened Visitor
  import opened Cnf
  import Solver

  /** `self.atoms`: atom name to solver variable. */
  type AtomMap = map<string, int>

  /** The atom table numbers its names exactly 1..n, one name per number. */
  predicate Dense(m: AtomMap)
  {
    (forall n :: n in m ==> 1 <= m[n] <= |m|) &&
    (forall a, b :: a in m && b in m && m[a] == m[b] ==> a == b)
  }

  /** `big` keeps every entry of `small`. */
  predicate Extends(big: AtomMap, small: AtomMap)
  {
    forall n :: n in small ==> n in big && big[n] == small[n]
  }

  function Names(ns: seq<string>): set<string>
  {
    set n | n in ns
  }

  /** `_add_atom`: whether the name is new, and its number. */
  function AddAtom(m: AtomMap, name: string): (r: (bool, int, AtomMap))
    ensures r.0 <==> name !in m
    ensures name in r.2 && r.2[name] == r.1
    ensures Extends(r.2, m) && forall n :: n in r.2 ==> n in m || n == name
    ensures r.0 ==> r.1 == |m| + 1
    ensures Dense(m) ==> Dense(r.2)
  {
    if name in m then (false, m[name], m)
    else
      var m' := m[name := |m| + 1];
      assert |m'| == |m| + 1;
      (true, |m| + 1, m')
  }

  /** `add_atoms`: register each name in turn. */
  function AddAtoms(m: AtomMap, names: seq<string>): (r: AtomMap)
    ensures Extends(r, m) && forall n :: n in r <==> n in m || n in names
    decreases |names|
  {
    if |names| == 0 then m
    else
      var m1 := AddAtom(m, names[0]).2;
      var r := AddAtoms(m1, names[1..]);
      ExtendsTrans(r, m1, m);
      r
  }

  /** Registering names keeps the numbering dense. */
  lemma {:induction false} AddAtomsDense(m: AtomMap, names: seq<string>)
    requires Dense(m)
    ensures Dense(AddAtoms(m, names))
    decreases |names|
  {
    if |names| > 0 {
      AddAtomsDense(AddAtom(m, names[0]).2, names[1..]);
    }
  }

  lemma ExtendsTrans(a: AtomMap, b: AtomMap, c: AtomMap)
    requires Extends(a, b) && Extends(b, c)
    ensures Extends(a, c)
  {
  }

  lemma NamesCons(names: seq<string>)
    requires |names| > 0
    ensures Names(names) == {names[0]} + Names(names[1..])
  {
    assert forall n :: n in names <==> n == names[0] || n in names[1..];
  }

  datatype Store = Store(formulas: seq<Formula>, atoms: AtomMap, cnfs: seq<Solver.Clause>)

  /** A fresh `CPLogic()`. */
  const Empty: Store := Store([], map[], [])

  /** Python's `s[:-k]` for `k >= 0`. `-0` is `0`, so `s[:-0]` is the EMPTY list. */
  function DropLast<T>(s: seq<T>, k: nat): (r: seq<T>)
    ensures k > 0 && k <= |s| ==> s == r + s[|s| - k..]
    ensures k == 0 ==> r == []
  {
    if k == 0 || k >= |s| then [] else s[..|s| - k]
  }

  /** `_roll_back`: forget the last `added` clauses and the given atom names. */
  function RollBack(s: Store, added: nat, names: seq<string>): (r: Store)
    ensures r.formulas == s.formulas
    ensures r.atoms == s.atoms - Names(names)
    ensures added == 0 ==> r.cnfs == s.cnfs
  {
    var cnfs := if added > 0 then DropLast(s.cnfs, added) else s.cnfs;
    s.(cnfs := cnfs, atoms := s.atoms - Names(names))
  }

  /** Without the guard on line 73, rolling back no clauses would empty the clause list. */
  lemma GuardNeeded(s: Store)
    requires |s.cnfs| > 0
    ensures DropLast(s.cnfs, 0) != s.cnfs
    ensures RollBack(s, 0, []).cnfs == s.cnfs
  {
  }

  predicate Literals(c: seq<Formula>)
  {
    forall i :: 0 <= i < |c| ==> IsLiteral(c[i])
  }

  function AtomName(lit: Formula): string
    requires IsLiteral(lit)
  {
    if lit.Not? then lit.sub.name else lit.name
  }

  /** The solver literal standing for a formula literal. */
  function Code(m: AtomMap, lit: Formula): int
    requires IsLiteral(lit) && AtomName(lit) in m
  {
    if lit.Not? then -m[lit.sub.name] else m[lit.name]
  }

  /** The result of `_translate_clause_to_numbers`, with the store it leaves behind. */
  datatype Translation = Translation(clause: seq<int>, news: seq<string>, store: Store)

  /** One pass of the loop of `_translate_clause_to_numbers`: the literal's number (negated for a
      negated atom), whether its complement is already in the clause, and the state after it. */
  datatype Step = Step(tautology: bool, store: Store, acc: seq<int>, news: seq<string>)

  function LiteralStep(s: Store, lit: Formula, acc: seq<int>, news: seq<string>): Step
    requires IsLiteral(lit)
  {
    var name := AtomName(lit);
    var added := AddAtom(s.atoms, name);
    var news' := if added.0 then news + [name] else news;
    var num := if lit.Not? then -added.1 else added.1;
    Step(-num in acc, s.(atoms := added.2), if num in acc then acc else acc + [num], news')
  }

  /** `_translate_clause_to_numbers` from the literal `lits[0]` on, having built `acc` and
      registered the names `news`. A literal whose complement is already in the clause makes it a
      tautology: the new names are rolled back and the clause comes out empty. */
  function Translate(s: Store, lits: seq<Formula>, acc: seq<int>, news: seq<string>): Translation
    requires Literals(lits)
    decreases |lits|
  {
    if |lits| == 0 then Translation(acc, news, s)
    else
      var st := LiteralStep(s, lits[0], acc, news);
      if st.tautology then Translation([], [], RollBack(st.store, 0, st.news))
      else Translate(st.store, lits[1..], st.acc, st.news)
  }

  /** One pass of the loop of `_add`: a non-empty translation is appended and counted. */
  function AddClause(s: Store, c: Cnf.Clause): (Store, nat, seq<string>)
    requires Literals(c)
  {
    var t := Translate(s, c, [], []);
    if |t.clause| > 0 then (t.store.(cnfs := t.store.cnfs + [t.clause]), 1, t.news)
    else (t.store, 0, [])
  }

  /** `_add` over the clause list, counting the kept clauses and merging their new names. */
  function AddClauses(s: Store, cs: seq<Cnf.Clause>, count: nat, news: seq<string>): (Store, nat, seq<string>)
    requires forall k :: 0 <= k < |cs| ==> Literals(cs[k])
    decreases |cs|
  {
    if |cs| == 0 then (s, count, news)
    else
      var a := AddClause(s, cs[0]);
      AddClauses(a.0, cs[1..], count + a.1, news + a.2)
  }

  /** One step of `_add`'s loop over the clause list. */
  lemma AddClausesStep(s: Store, cs: seq<Cnf.Clause>, count: nat, news: seq<string>)
    requires |cs| > 0 && forall k :: 0 <= k < |cs| ==> Literals(cs[k])
    ensures forall k :: 0 <= k < |cs[1..]| ==> Literals(cs[1..][k])
    ensures var a := AddClause(s, cs[0]);
      AddClauses(s, cs, count, news) == AddClauses(a.0, cs[1..], count + a.1, news + a.2)
  {
    forall k | 0 <= k < |cs[1..]| ensures cs[1..][k] == cs[k + 1] {}
  }

  lemma LiteralsOf(f: Formula)
    ensures forall k :: 0 <= k < |Clauses(f)| ==> Literals(Clauses(f)[k])
  {
    ClausesShape(f);
  }

  /** `_add(formula)`: the store with the clauses of `to_CNF(formula)` appended, how many were
      kept, and the atom names they registered. */
  function AddCnf(s: Store, f: Formula): (Store, nat, seq<string>)
  {
    LiteralsOf(f);
    AddClauses(s, Clauses(f), 0, [])
  }

  lemma ExtendsSameKeys(a: AtomMap, b: AtomMap)
    requires Extends(a, b) && forall n :: n in a ==> n in b
    ensures a == b
  {
  }

  /** The atom table after registering `news` on top of `base`. */
  predicate Grown(m: AtomMap, base: AtomMap, news: seq<string>)
  {
    Extends(m, base) && (forall n :: n in m ==> n in base || n in news) &&
    (forall n :: n in news ==> n in m && n !in base)
  }

  lemma AddAtomGrown(m: AtomMap, base: AtomMap, news: seq<string>, name: string)
    requires Grown(m, base, news)
    ensures var added := AddAtom(m, name);
      Grown(added.2, base, if added.0 then news + [name] else news)
  {
  }

  /** Rolling back the new names gives the table they were registered on. */
  lemma RollBackGrown(m: AtomMap, base: AtomMap, news: seq<string>)
    requires Grown(m, base, news)
    ensures m - Names(news) == base
  {
    ExtendsSameKeys(m - Names(news), base);
  }

  lemma StepFrame(s: Store, lit: Formula, acc: seq<int>, news: seq<string>, base: AtomMap)
    requires IsLiteral(lit) && Grown(s.atoms, base, news)
    ensures var st := LiteralStep(s, lit, acc, news);
      st.store.formulas == s.formulas && st.store.cnfs == s.cnfs && Grown(st.store.atoms, base, st.news) &&
      |st.acc| > 0
  {
    AddAtomGrown(s.atoms, base, news, AtomName(lit));
  }

  /** Translating a clause touches only the atom table; a tautology leaves the table as it found
      it, and otherwise the table grows by exactly the names reported as new. */
  lemma {:induction false} TranslateFrame(s: Store, lits: seq<Formula>, acc: seq<int>, news: seq<string>, base: AtomMap)
    requires Literals(lits) && Grown(s.atoms, base, news)
    ensures var r := Translate(s, lits, acc, news);
      r.store.formulas == s.formulas && r.store.cnfs == s.cnfs && Grown(r.store.atoms, base, r.news) &&
      (r.clause == [] ==> r.news == [] || (acc == [] && lits == []))
    decreases |lits|
  {
    if |lits| > 0 {
      var st := LiteralStep(s, lits[0], acc, news);
      StepFrame(s, lits[0], acc, news, base);
      if st.tautology {
        RollBackGrown(st.store.atoms, base, st.news);
      } else {
        TranslateFrame(st.store, lits[1..], st.acc, st.news, base);
      }
    }
  }

  lemma NamesAppend(ns: seq<string>, n: string)
    ensures Names(ns + [n]) == Names(ns) + {n}
  {
    assert forall x :: x in ns + [n] <==> x in ns || x == n;
  }

  lemma NamesConcat(a: seq<string>, b: seq<string>)
    ensures Names(a + b) == Names(a) + Names(b)
  {
    assert forall x :: x in a + b <==> x in a || x in b;
  }

  lemma AddClauseFrame(s: Store, c: Cnf.Clause, news: seq<string>, base: AtomMap)
    requires Literals(c) && Grown(s.atoms, base, news)
    ensures var a := AddClause(s, c);
      a.0.formulas == s.formulas && s.cnfs <= a.0.cnfs &&
      |a.0.cnfs| == |s.cnfs| + a.1 && Grown(a.0.atoms, base, news + a.2)
  {
    var t := Translate(s, c, [], []);
    TranslateFrame(s, c, [], [], s.atoms);
    if |t.clause| > 0 {
      ExtendsTrans(t.store.atoms, s.atoms, base);
    } else {
      ExtendsSameKeys(t.store.atoms, s.atoms);
      assert news + [] == news;
    }
  }

  /** A run of `_add` from `s` that started at `count` ended in `r`: the recorded formulas are
      untouched, the kept clauses follow the old ones and are counted, and the atom table grew
      from `base` by exactly the reported names. */
  predicate Framed(s: Store, r: (Store, nat, seq<string>), count: nat, base: AtomMap)
  {
    r.0.formulas == s.formulas && s.cnfs <= r.0.cnfs && r.1 >= count &&
    |r.0.cnfs| - |s.cnfs| == r.1 - count && Grown(r.0.atoms, base, r.2)
  }

  /** `_add` appends the kept clauses after the old ones and grows the atom table by exactly the
      names it reports. */
  lemma {:induction false} AddClausesFrame(s: Store, cs: seq<Cnf.Clause>, count: nat, news: seq<string>, base: AtomMap)
    requires forall k :: 0 <= k < |cs| ==> Literals(cs[k])
    requires Grown(s.atoms, base, news)
    ensures Framed(s, AddClauses(s, cs, count, news), count, base)
    decreases |cs|
  {
    if |cs| > 0 {
      var a := FrameStep(s, cs, count, news, base);
      var rest := cs[1..];
      var r := AddClauses(a.0, rest, count + a.1, news + a.2);
      AddClausesFrame(a.0, rest, count + a.1, news + a.2, base);
      FrameCons(s, a, r, count, base);
    }
  }

  /** The first pass of `_add`'s loop, `a`, keeps the frame, and the run goes on from it. */
  lemma FrameStep(s: Store, cs: seq<Cnf.Clause>, count: nat, news: seq<string>, base: AtomMap)
      returns (a: (Store, nat, seq<string>))
    requires |cs| > 0 && forall k :: 0 <= k < |cs| ==> Literals(cs[k])
    requires Grown(s.atoms, base, news)
    ensures forall k :: 0 <= k < |cs[1..]| ==> Literals(cs[1..][k])
    ensures AddClauses(s, cs, count, news) == AddClauses(a.0, cs[1..], count + a.1, news + a.2)
    ensures a.0.formulas == s.formulas && s.cnfs <= a.0.cnfs && |a.0.cnfs| == |s.cnfs| + a.1
    ensures Grown(a.0.atoms, base, news + a.2)
  {
    a := AddClause(s, cs[0]);
    AddClauseFrame(s, cs[0], news, base);
    AddClausesStep(s, cs, count, news);
  }

  /** The frame of one `_add` step followed by the frame of the rest is the frame of the run. */
  lemma FrameCons(s: Store, a: (Store, nat, seq<string>), r: (Store, nat, seq<string>), count: nat, base: AtomMap)
    requires a.0.formulas == s.formulas && s.cnfs <= a.0.cnfs && |a.0.cnfs| == |s.cnfs| + a.1
    requires Framed(a.0, r, count + a.1, base)
    ensures Framed(s, r, count, base)
  {
    assert r.0.cnfs[..|s.cnfs|] == a.0.cnfs[..|s.cnfs|];
  }

  lemma AddCnfFrame(s: Store, f: Formula)
    ensures var r := AddCnf(s, f);
      r.0.formulas == s.formulas && s.cnfs <= r.0.cnfs && |r.0.cnfs| - |s.cnfs| == r.1 &&
      Grown(r.0.atoms, s.atoms, r.2)
  {
    LiteralsOf(f);
    AddClausesFrame(s, Clauses(f), 0, [], s.atoms);
  }

  // ---------------------------------------------------------------------------------------
  // What the clauses mean

  /** `val` gives each registered atom's number the value `v` gives the atom. */
  ghost predicate Agree(m: AtomMap, val: int -> bool, v: string -> bool)
  {
    forall n :: n in m ==> v(n) == val(m[n])
  }

  /** The atom valuation read off a variable valuation through the table. */
  function Lift(m: AtomMap, val: int -> bool): string -> bool
  {
    n => n in m && val(m[n])
  }

  /** The variable valuation read off an atom valuation through the table. */
  ghost function Lower(m: AtomMap, v: string -> bool): int -> bool
  {
    i => if exists n :: n in m && m[n] == i then v(NameOf(m, i)) else false
  }

  ghost function NameOf(m: AtomMap, i: int): string
    requires exists n :: n in m && m[n] == i
  {
    var n :| n in m && m[n] == i; n
  }

  lemma LiftAgrees(m: AtomMap, val: int -> bool)
    ensures Agree(m, val, Lift(m, val))
  {
  }

  lemma LowerAgrees(m: AtomMap, v: string -> bool)
    requires Dense(m)
    ensures Agree(m, Lower(m, v), v)
  {
    forall n | n in m ensures v(n) == Lower(m, v)(m[n]) {
      assert NameOf(m, m[n]) == n;
    }
  }

  lemma AgreeSmaller(big: AtomMap, small: AtomMap, val: int -> bool, v: string -> bool)
    requires Extends(big, small) && Agree(big, val, v)
    ensures Agree(small, val, v)
  {
  }

  /** No literal twice and no literal together with its complement (so no `0` either). */
  predicate Clean(c: seq<int>)
  {
    NoDuplicates(c) && forall i, j :: 0 <= i < |c| && 0 <= j < |c| ==> c[i] != -c[j]
  }

  predicate AllClean(cs: seq<Solver.Clause>)
  {
    forall k :: 0 <= k < |cs| ==> Clean(cs[k])
  }

  /** Every literal of `done` has its atom in the table. */
  predicate Registered(m: AtomMap, done: seq<Formula>)
  {
    Literals(done) && forall i :: 0 <= i < |done| ==> AtomName(done[i]) in m
  }

  /** The numbers of the literals of `done`. */
  function CodeSet(m: AtomMap, done: seq<Formula>): set<int>
    requires Registered(m, done)
  {
    if |done| == 0 then {}
    else CodeSet(m, done[..|done| - 1]) + {Code(m, done[|done| - 1])}
  }

  lemma {:induction false} CodeSetMembership(m: AtomMap, done: seq<Formula>, x: int)
    requires Registered(m, done)
    ensures x in CodeSet(m, done) <==> exists i :: 0 <= i < |done| && Code(m, done[i]) == x
  {
    if |done| > 0 {
      var init := done[..|done| - 1];
      CodeSetMembership(m, init, x);
      if x in CodeSet(m, init) {
        var i :| 0 <= i < |init| && Code(m, init[i]) == x;
        assert init[i] == done[i];
      }
      if exists i :: 0 <= i < |done| && Code(m, done[i]) == x {
        var i :| 0 <= i < |done| && Code(m, done[i]) == x;
        if i < |done| - 1 {
          assert init[i] == done[i];
        }
      }
    }
  }

  lemma {:induction false} CodeSetExtends(big: AtomMap, small: AtomMap, done: seq<Formula>)
    requires Extends(big, small) && Registered(small, done)
    ensures Registered(big, done) && CodeSet(big, done) == CodeSet(small, done)
  {
    if |done| > 0 {
      CodeSetExtends(big, small, done[..|done| - 1]);
      CodeExtends(big, small, done[|done| - 1]);
    }
  }

  /** `acc` holds exactly the numbers of the literals of `done`. */
  ghost predicate Encodes(m: AtomMap, acc: seq<int>, done: seq<Formula>)
  {
    Registered(m, done) && forall x :: x in acc <==> x in CodeSet(m, done)
  }

  /** Some literal occurs together with its negation. */
  predicate Complementary(c: seq<Formula>)
  {
    exists i, j :: 0 <= i < |c| && 0 <= j < |c| && c[j] == Not(c[i])
  }

  lemma ComplementaryTrue(v: string -> bool, c: seq<Formula>)
    requires Complementary(c)
    ensures ClauseTrue(v, c)
  {
    var i, j :| 0 <= i < |c| && 0 <= j < |c| && c[j] == Not(c[i]);
    assert Eval(v, c[i]) || Eval(v, c[j]);
  }

  lemma CodeExtends(big: AtomMap, small: AtomMap, lit: Formula)
    requires Extends(big, small) && IsLiteral(lit) && AtomName(lit) in small
    ensures Code(big, lit) == Code(small, lit)
  {
  }

  /** A literal's number is true under `val` exactly when the literal is true under `v`. */
  lemma LitCode(m: AtomMap, val: int -> bool, v: string -> bool, lit: Formula)
    requires Dense(m) && Agree(m, val, v) && IsLiteral(lit) && AtomName(lit) in m
    ensures Solver.LitTrue(val, Code(m, lit)) == Eval(v, lit)
  {
  }

  /** Two literals with opposite numbers are an atom and its negation. */
  lemma OppositeCodes(m: AtomMap, a: Formula, b: Formula)
    requires Dense(m) && IsLiteral(a) && IsLiteral(b) && AtomName(a) in m && AtomName(b) in m
    requires Code(m, a) == -Code(m, b)
    ensures a == Not(b) || b == Not(a)
  {
    assert m[AtomName(a)] == m[AtomName(b)];
  }

  lemma EncodesExtends(big: AtomMap, small: AtomMap, acc: seq<int>, done: seq<Formula>)
    requires Extends(big, small) && Encodes(small, acc, done)
    ensures Encodes(big, acc, done)
  {
    CodeSetExtends(big, small, done);
  }

  /** A literal whose complement's number is already in the clause makes the clause a
      tautology. */
  lemma StepTautology(s: Store, lit: Formula, acc: seq<int>, news: seq<string>, done: seq<Formula>)
    requires IsLiteral(lit) && Dense(s.atoms) && Encodes(s.atoms, acc, done)
    requires LiteralStep(s, lit, acc, news).tautology
    ensures Complementary(done + [lit])
  {
    var m := LiteralStep(s, lit, acc, news).store.atoms;
    EncodesExtends(m, s.atoms, acc, done);
    var num := Code(m, lit);
    CodeSetMembership(m, done, -num);
    var i :| 0 <= i < |done| && Code(m, done[i]) == -num;
    OppositeCodes(m, done[i], lit);
    var c := done + [lit];
    assert c[i] == done[i] && c[|done|] == lit;
  }

  /** Otherwise the clause encodes one literal more ... */
  lemma StepEncodes(s: Store, lit: Formula, acc: seq<int>, news: seq<string>, done: seq<Formula>)
    requires IsLiteral(lit) && Encodes(s.atoms, acc, done)
    ensures var st := LiteralStep(s, lit, acc, news);
      Encodes(st.store.atoms, st.acc, done + [lit])
  {
    var st := LiteralStep(s, lit, acc, news);
    var m := st.store.atoms;
    EncodesExtends(m, s.atoms, acc, done);
    CodeSetSnoc(m, done, lit);
  }

  lemma CodeSetSnoc(m: AtomMap, done: seq<Formula>, lit: Formula)
    requires Registered(m, done) && IsLiteral(lit) && AtomName(lit) in m
    ensures Registered(m, done + [lit]) && CodeSet(m, done + [lit]) == CodeSet(m, done) + {Code(m, lit)}
  {
    var c := done + [lit];
    assert c[..|c| - 1] == done && c[|c| - 1] == lit;
  }

  /** ... and stays clean. */
  lemma StepClean(s: Store, lit: Formula, acc: seq<int>, news: seq<string>)
    requires IsLiteral(lit) && Dense(s.atoms) && Clean(acc)
    requires !LiteralStep(s, lit, acc, news).tautology
    ensures Clean(LiteralStep(s, lit, acc, news).acc)
  {
    var m := LiteralStep(s, lit, acc, news).store.atoms;
    if Code(m, lit) !in acc {
      CleanAppend(acc, Code(m, lit));
    }
  }

  lemma CleanAppend(acc: seq<int>, x: int)
    requires Clean(acc) && x !in acc && -x !in acc && x != 0
    ensures Clean(acc + [x])
  {
    var c := acc + [x];
    forall i, j | 0 <= i < |c| && 0 <= j < |c| ensures c[i] != -c[j] && (i < j ==> c[i] != c[j]) {
      if i < |acc| {
        assert c[i] == acc[i] && c[i] in acc;
      }
      if j < |acc| {
        assert c[j] == acc[j] && c[j] in acc;
      }
    }
  }

  /** `_translate_clause_to_numbers` yields either an empty clause, for a tautology, or a clean
      clause holding exactly the numbers of the literals. */
  lemma {:induction false} TranslateMeaning(s: Store, lits: seq<Formula>, acc: seq<int>, news: seq<string>, done: seq<Formula>)
    requires Literals(lits) && Dense(s.atoms) && Encodes(s.atoms, acc, done) && Clean(acc)
    ensures var r := Translate(s, lits, acc, news);
      (r.clause != [] ==> Encodes(r.store.atoms, r.clause, done + lits) && Clean(r.clause) && Dense(r.store.atoms)) &&
      (r.clause == [] ==> |done + lits| == 0 || Complementary(done + lits))
    decreases |lits|
  {
    if |lits| == 0 {
      assert done + lits == done;
      if |done| > 0 {
        CodeSetMembership(s.atoms, done, Code(s.atoms, done[0]));
      }
    } else {
      var st := LiteralStep(s, lits[0], acc, news);
      assert Dense(st.store.atoms);
      assert (done + [lits[0]]) + lits[1..] == done + lits;
      if st.tautology {
        StepTautology(s, lits[0], acc, news, done);
        var c := done + [lits[0]];
        var i, j :| 0 <= i < |c| && 0 <= j < |c| && c[j] == Not(c[i]);
        assert (done + lits)[i] == c[i] && (done + lits)[j] == c[j];
      } else {
        StepEncodes(s, lits[0], acc, news, done);
        StepClean(s, lits[0], acc, news);
        TranslateMeaning(st.store, lits[1..], st.acc, st.news, done + [lits[0]]);
      }
    }
  }

  /** A clause that encodes `c` is true under `val` exactly when `c` is true under `v`. */
  lemma ClauseMeaning(m: AtomMap, nc: seq<int>, c: seq<Formula>, val: int -> bool, v: string -> bool)
    requires Dense(m) && Encodes(m, nc, c) && Agree(m, val, v)
    ensures Solver.ClauseSat(val, nc) <==> ClauseTrue(v, c)
  {
    if Solver.ClauseSat(val, nc) {
      var i :| 0 <= i < |nc| && Solver.LitTrue(val, nc[i]);
      assert nc[i] in nc;
      CodeSetMembership(m, c, nc[i]);
      var j :| 0 <= j < |c| && Code(m, c[j]) == nc[i];
      LitCode(m, val, v, c[j]);
    }
    if ClauseTrue(v, c) {
      var j :| 0 <= j < |c| && Eval(v, c[j]);
      LitCode(m, val, v, c[j]);
      CodeSetMembership(m, c, Code(m, c[j]));
      var i :| 0 <= i < |nc| && nc[i] == Code(m, c[j]);
    }
  }

  /** Under every pair of agreeing valuations, the solver clauses `ncs` hold exactly when the
      formula clauses `cs` do. */
  ghost predicate Means(m: AtomMap, ncs: seq<Solver.Clause>, cs: seq<Cnf.Clause>)
  {
    forall val, v :: Agree(m, val, v) ==> (Solver.AllSat(val, ncs) <==> ClausesTrue(v, cs))
  }

  lemma MeansExtends(big: AtomMap, small: AtomMap, ncs: seq<Solver.Clause>, cs: seq<Cnf.Clause>)
    requires Extends(big, small) && Means(small, ncs, cs)
    ensures Means(big, ncs, cs)
  {
    forall val, v | Agree(big, val, v) ensures Solver.AllSat(val, ncs) <==> ClausesTrue(v, cs) {
      AgreeSmaller(big, small, val, v);
    }
  }

  lemma MeansAppend(m: AtomMap, a: seq<Solver.Clause>, b: seq<Solver.Clause>, x: seq<Cnf.Clause>, y: seq<Cnf.Clause>)
    requires Means(m, a, x) && Means(m, b, y)
    ensures Means(m, a + b, x + y)
  {
    forall val, v | Agree(m, val, v) ensures Solver.AllSat(val, a + b) <==> ClausesTrue(v, x + y) {
      Solver.AllSatAppend(val, a, b);
      ClausesTrueAppend(v, x, y);
    }
  }

  lemma AllCleanAppend(a: seq<Solver.Clause>, b: seq<Solver.Clause>)
    requires AllClean(a) && AllClean(b)
    ensures AllClean(a + b)
  {
    forall k | |a| <= k < |a + b| ensures (a + b)[k] == b[k - |a|] { }
  }

  /** A clean clause never holds `0`, the solver's clause terminator. */
  lemma CleanNonZero(cs: seq<Solver.Clause>)
    requires AllClean(cs)
    ensures Solver.NonZero(cs)
  {
    forall k, i | 0 <= k < |cs| && 0 <= i < |cs[k]| ensures cs[k][i] != 0 {
      assert cs[k][i] != -cs[k][i];
    }
  }

  /** One encoded clause means the formula clause it encodes. */
  lemma EncodedMeans(m: AtomMap, nc: Solver.Clause, c: Cnf.Clause)
    requires Dense(m) && Encodes(m, nc, c)
    ensures Means(m, [nc], [c])
  {
    forall val, v | Agree(m, val, v) ensures Solver.AllSat(val, [nc]) <==> ClausesTrue(v, [c]) {
      ClauseMeaning(m, nc, c, val, v);
      assert [nc][0] == nc && [c][0] == c;
    }
  }

  /** A dropped tautology asks nothing of the valuation. */
  lemma TautologyMeans(m: AtomMap, c: Cnf.Clause)
    requires Complementary(c)
    ensures Means(m, [], [c])
  {
    forall val, v | Agree(m, val, v) ensures ClausesTrue(v, [c]) {
      ComplementaryTrue(v, c);
    }
  }

  /** `after` extends `before` with clean clauses meaning `cs`, over a dense table. */
  ghost predicate Faithful(before: Store, after: Store, cs: seq<Cnf.Clause>)
  {
    Dense(after.atoms) && before.cnfs <= after.cnfs &&
    Means(after.atoms, after.cnfs[|before.cnfs|..], cs) && AllClean(after.cnfs[|before.cnfs|..])
  }

  /** Two faithful extensions in a row make one. */
  lemma FaithfulTrans(s: Store, a: Store, r: Store, x: seq<Cnf.Clause>, y: seq<Cnf.Clause>)
    requires Faithful(s, a, x) && Faithful(a, r, y) && Extends(r.atoms, a.atoms)
    ensures Faithful(s, r, x + y)
  {
    var lo, mid := |s.cnfs|, |a.cnfs|;
    MeansExtends(r.atoms, a.atoms, a.cnfs[lo..], x);
    assert r.cnfs[lo..mid] == a.cnfs[lo..];
    assert r.cnfs[lo..] == r.cnfs[lo..mid] + r.cnfs[mid..];
    MeansAppend(r.atoms, r.cnfs[lo..mid], r.cnfs[mid..], x, y);
    AllCleanAppend(r.cnfs[lo..mid], r.cnfs[mid..]);
  }

  /** A non-empty clause of literals is stored as a clean solver clause with the same meaning, or,
      being a tautology, is dropped; the table stays dense either way. */
  lemma AddClauseMeaning(s: Store, c: Cnf.Clause)
    requires Literals(c) && |c| > 0 && Dense(s.atoms)
    ensures Faithful(s, AddClause(s, c).0, [c])
  {
    var a := AddClause(s, c);
    var t := Translate(s, c, [], []);
    TranslateFrame(s, c, [], [], s.atoms);
    TranslateMeaning(s, c, [], [], []);
    assert [] + c == c;
    if |t.clause| > 0 {
      FaithfulOne(s, a.0, t.clause, c);
    } else {
      ExtendsSameKeys(t.store.atoms, s.atoms);
      FaithfulNone(s, a.0, c);
    }
  }

  lemma FaithfulOne(s: Store, after: Store, nc: Solver.Clause, c: Cnf.Clause)
    requires Dense(after.atoms) && after.cnfs == s.cnfs + [nc] && Encodes(after.atoms, nc, c) && Clean(nc)
    ensures Faithful(s, after, [c])
  {
    assert after.cnfs[|s.cnfs|..] == [nc];
    EncodedMeans(after.atoms, nc, c);
  }

  lemma FaithfulNone(s: Store, after: Store, c: Cnf.Clause)
    requires Dense(after.atoms) && after.cnfs == s.cnfs && Complementary(c)
    ensures Faithful(s, after, [c])
  {
    assert after.cnfs[|s.cnfs|..] == [];
    TautologyMeans(after.atoms, c);
  }

  lemma {:induction false} AddClausesExtends(s: Store, cs: seq<Cnf.Clause>, count: nat, news: seq<string>)
    requires forall k :: 0 <= k < |cs| ==> Literals(cs[k])
    ensures Extends(AddClauses(s, cs, count, news).0.atoms, s.atoms)
    decreases |cs|
  {
    if |cs| > 0 {
      var a := AddClause(s, cs[0]);
      var rest := cs[1..];
      var r := AddClauses(a.0, rest, count + a.1, news + a.2);
      assert AddClauses(s, cs, count, news) == r;
      AddClauseFrame(s, cs[0], [], s.atoms);
      AddClausesExtends(a.0, rest, count + a.1, news + a.2);
      ExtendsTrans(r.0.atoms, a.0.atoms, s.atoms);
    }
  }

  /** `_add` over non-empty clauses of literals: the appended clauses are clean and mean exactly
      the given clauses. */
  lemma {:induction false} AddClausesMeaning(s: Store, cs: seq<Cnf.Clause>, count: nat, news: seq<string>)
    requires LiteralClauses(cs, true) && Dense(s.atoms)
    ensures Faithful(s, AddClauses(s, cs, count, news).0, cs)
    decreases |cs|
  {
    if |cs| == 0 {
      assert s.cnfs[|s.cnfs|..] == [];
    } else {
      assert Literals(cs[0]) && |cs[0]| > 0;
      var a := AddClause(s, cs[0]);
      var rest := cs[1..];
      AddClauseMeaning(s, cs[0]);
      assert LiteralClauses(rest, true) by {
        forall i | 0 <= i < |rest| ensures rest[i] == cs[i + 1] {}
      }
      var r := AddClauses(a.0, rest, count + a.1, news + a.2);
      assert AddClauses(s, cs, count, news) == r;
      AddClausesMeaning(a.0, rest, count + a.1, news + a.2);
      AddClausesExtends(a.0, rest, count + a.1, news + a.2);
      FaithfulCons(s, a.0, r.0, cs);
    }
  }

  /** A faithful step for the first clause followed by a faithful run for the rest is faithful
      for the whole list. */
  lemma FaithfulCons(s: Store, a: Store, r: Store, cs: seq<Cnf.Clause>)
    requires |cs| > 0 && Faithful(s, a, [cs[0]]) && Faithful(a, r, cs[1..]) && Extends(r.atoms, a.atoms)
    ensures Faithful(s, r, cs)
  {
    FaithfulTrans(s, a, r, [cs[0]], cs[1..]);
    assert [cs[0]] + cs[1..] == cs;
  }

  // ---------------------------------------------------------------------------------------
  // The theory

  /** `v` makes every formula of the theory true. */
  ghost predicate Models(v: string -> bool, fs: seq<Formula>)
  {
    forall i :: 0 <= i < |fs| ==> Eval(v, fs[i])
  }

  lemma ModelsAppend(v: string -> bool, fs: seq<Formula>, f: Formula)
    ensures Models(v, fs + [f]) <==> Models(v, fs) && Eval(v, f)
  {
    if Models(v, fs) && Eval(v, f) {
      forall i | 0 <= i < |fs + [f]| ensures Eval(v, (fs + [f])[i]) {
        if i < |fs| {
          assert (fs + [f])[i] == fs[i];
        }
      }
    }
    if Models(v, fs + [f]) {
      assert (fs + [f])[|fs|] == f;
      forall i | 0 <= i < |fs| ensures Eval(v, fs[i]) {
        assert (fs + [f])[i] == fs[i];
      }
    }
  }

  /** The store's invariant: a dense table, clean clauses, and clauses that hold under a variable
      valuation exactly when the formulas hold under the agreeing atom valuation. */
  ghost predicate Represents(s: Store)
  {
    Dense(s.atoms) && AllClean(s.cnfs) &&
    forall val, v :: Agree(s.atoms, val, v) ==> (Solver.AllSat(val, s.cnfs) <==> Models(v, s.formulas))
  }

  /** `add(formula)`: record the formula, register its atoms left to right, then store its clauses. */
  function Add(s: Store, f: Formula): (r: Store)
    ensures r.formulas == s.formulas + [f]
    ensures Extends(r.atoms, s.atoms) && forall n :: n in CollectAtoms(f) ==> n in r.atoms
    ensures s.cnfs <= r.cnfs
  {
    var s1 := s.(formulas := s.formulas + [f], atoms := AddAtoms(s.atoms, CollectAtoms(f)));
    AddCnfFrame(s1, f);
    ExtendsTrans(AddCnf(s1, f).0.atoms, s1.atoms, s.atoms);
    AddCnf(s1, f).0
  }

  /** Appending clauses faithful to `f` to a store that represents its theory gives a store that
      represents the theory with `f`. */
  lemma RepresentsStep(s: Store, r: Store, f: Formula)
    requires Represents(s) && Faithful(s, r, Clauses(f))
    requires Extends(r.atoms, s.atoms) && r.formulas == s.formulas + [f]
    ensures Represents(r)
  {
    var added := r.cnfs[|s.cnfs|..];
    assert r.cnfs == s.cnfs + added;
    AllCleanAppend(s.cnfs, added);
    forall val, v | Agree(r.atoms, val, v) ensures Solver.AllSat(val, r.cnfs) <==> Models(v, r.formulas) {
      AgreeSmaller(r.atoms, s.atoms, val, v);
      Solver.AllSatAppend(val, s.cnfs, added);
      ClausesSound(v, f);
      ModelsAppend(v, s.formulas, f);
    }
  }

  /** Adding a formula keeps the invariant: the clauses stay equivalent to the formulas. */
  lemma AddRepresents(s: Store, f: Formula)
    requires Represents(s) && Proper(f)
    ensures Represents(Add(s, f))
  {
    var s1 := s.(formulas := s.formulas + [f], atoms := AddAtoms(s.atoms, CollectAtoms(f)));
    AddAtomsDense(s.atoms, CollectAtoms(f));
    ClausesShape(f);
    LiteralsOf(f);
    AddClausesMeaning(s1, Clauses(f), 0, []);
    RepresentsStep(s, Add(s, f), f);
  }

  /** `CPLogic(formulas)`: the empty store with each formula added in turn. */
  function FromFormulas(fs: seq<Formula>): (r: Store)
    ensures r.formulas == fs
  {
    if |fs| == 0 then Empty
    else Add(FromFormulas(fs[..|fs| - 1]), fs[|fs| - 1])
  }

  lemma {:induction false} FromFormulasRepresents(fs: seq<Formula>)
    requires forall i :: 0 <= i < |fs| ==> Proper(fs[i])
    ensures Represents(FromFormulas(fs))
  {
    if |fs| == 0 {
      forall val, v ensures Solver.AllSat(val, Empty.cnfs) && Models(v, Empty.formulas) { }
    } else {
      FromFormulasRepresents(fs[..|fs| - 1]);
      AddRepresents(FromFormulas(fs[..|fs| - 1]), fs[|fs| - 1]);
    }
  }

  /** The recorded formulas play no part in translating a clause. */
  lemma {:induction false} TranslateFormulas(s: Store, lits: seq<Formula>, acc: seq<int>, news: seq<string>, fs: seq<Formula>)
    requires Literals(lits)
    ensures var t := Translate(s, lits, acc, news);
      Translate(s.(formulas := fs), lits, acc, news) == t.(store := t.store.(formulas := fs))
    decreases |lits|
  {
    if |lits| > 0 {
      var st := LiteralStep(s, lits[0], acc, news);
      StepFormulas(s, lits[0], acc, news, fs);
      if st.tautology {
        assert RollBack(st.store.(formulas := fs), 0, st.news) == RollBack(st.store, 0, st.news).(formulas := fs);
      } else {
        TranslateFormulas(st.store, lits[1..], st.acc, st.news, fs);
      }
    }
  }

  lemma StepFormulas(s: Store, lit: Formula, acc: seq<int>, news: seq<string>, fs: seq<Formula>)
    requires IsLiteral(lit)
    ensures var st := LiteralStep(s, lit, acc, news);
      LiteralStep(s.(formulas := fs), lit, acc, news) == st.(store := st.store.(formulas := fs))
  {
  }

  /** The recorded formulas play no part in storing clauses. */
  lemma {:induction false} AddClausesFormulas(s: Store, cs: seq<Cnf.Clause>, count: nat, news: seq<string>, fs: seq<Formula>)
    requires forall k :: 0 <= k < |cs| ==> Literals(cs[k])
    ensures var a := AddClauses(s, cs, count, news);
      AddClauses(s.(formulas := fs), cs, count, news) == (a.0.(formulas := fs), a.1, a.2)
    decreases |cs|
  {
    if |cs| > 0 {
      var a := FormulasStep(s, cs, count, news, fs);
      AddClausesFormulas(a.0, cs[1..], count + a.1, news + a.2, fs);
    }
  }

  /** The first pass of `_add`'s loop, `a`, is the same whatever formulas the store records. */
  lemma FormulasStep(s: Store, cs: seq<Cnf.Clause>, count: nat, news: seq<string>, fs: seq<Formula>)
      returns (a: (Store, nat, seq<string>))
    requires |cs| > 0 && forall k :: 0 <= k < |cs| ==> Literals(cs[k])
    ensures forall k :: 0 <= k < |cs[1..]| ==> Literals(cs[1..][k])
    ensures AddClauses(s, cs, count, news) == AddClauses(a.0, cs[1..], count + a.1, news + a.2)
    ensures AddClauses(s.(formulas := fs), cs, count, news) ==
      AddClauses(a.0.(formulas := fs), cs[1..], count + a.1, news + a.2)
  {
    a := AddClause(s, cs[0]);
    AddClauseFormulas(s, cs[0], fs);
    AddClausesStep(s, cs, count, news);
    AddClausesStep(s.(formulas := fs), cs, count, news);
  }

  lemma AddClauseFormulas(s: Store, c: Cnf.Clause, fs: seq<Formula>)
    requires Literals(c)
    ensures var a := AddClause(s, c);
      AddClause(s.(formulas := fs), c) == (a.0.(formulas := fs), a.1, a.2)
  {
    TranslateFormulas(s, c, [], [], fs);
  }

  /** Two lists of formulas with the same clauses and atoms, one for one, build stores that differ
      only in the formulas they record. */
  lemma {:induction false} SameClausesStore(fs: seq<Formula>, gs: seq<Formula>)
    requires |fs| == |gs|
    requires forall i :: 0 <= i < |fs| ==> Clauses(gs[i]) == Clauses(fs[i]) && CollectAtoms(gs[i]) == CollectAtoms(fs[i])
    ensures FromFormulas(gs) == FromFormulas(fs).(formulas := gs)
  {
    if |fs| > 0 {
      var fs', gs' := fs[..|fs| - 1], gs[..|gs| - 1];
      SameClausesStore(fs', gs');
      AddSameClauses(FromFormulas(fs'), gs', fs[|fs| - 1], gs[|gs| - 1]);
      assert FromFormulas(fs) == Add(FromFormulas(fs'), fs[|fs| - 1]);
      assert FromFormulas(gs) == Add(FromFormulas(fs').(formulas := gs'), gs[|gs| - 1]);
      assert gs' + [gs[|gs| - 1]] == gs;
    }
  }

  /** Adding a formula with the same clauses and atoms to a store that records other formulas
      gives the same store, but for the formulas recorded. */
  lemma AddSameClauses(s: Store, fs: seq<Formula>, f: Formula, g: Formula)
    requires Clauses(g) == Clauses(f) && CollectAtoms(g) == CollectAtoms(f)
    ensures Add(s.(formulas := fs), g) == Add(s, f).(formulas := fs + [g])
  {
    var s1 := s.(formulas := s.formulas + [f], atoms := AddAtoms(s.atoms, CollectAtoms(f)));
    LiteralsOf(f);
    AddClausesFormulas(s1, Clauses(f), 0, [], fs + [g]);
    assert s.(formulas := fs).(formulas := fs + [g], atoms := AddAtoms(s.atoms, CollectAtoms(g))) == s1.(formulas := fs + [g]);
  }

  /** `sat` reads a query only through its clauses, and the store not at all through its recorded
      formulas. */
  lemma SatSameClauses(s: Store, fs: seq<Formula>, f: Formula, g: Formula)
    requires Clauses(g) == Clauses(f)
    ensures Sat(s.(formulas := fs), Some(g)).0 == Sat(s, Some(f)).0
  {
    LiteralsOf(f);
    AddClausesFormulas(s, Clauses(f), 0, [], fs);
  }

  /** `sat(formula)`: the query's clauses, if a query is given, are added for the solver call and
      then rolled back. Returns the answer and the store left behind, which is the one given. */
  function Sat(s: Store, q: Option<Formula>): (r: (bool, Store))
    ensures r.1 == s
  {
    match q
    case None => (Solver.Solve(s.cnfs), s)
    case Some(f) =>
      var a := AddCnf(s, f);
      AddCnfFrame(s, f);
      RollBackGrown(a.0.atoms, s.atoms, a.2);
      assert a.1 > 0 ==> DropLast(a.0.cnfs, a.1) == s.cnfs;
      (Solver.Solve(a.0.cnfs), RollBack(a.0, a.1, a.2))
  }

  /** The solver call decides whether the prior clauses and the added ones have a common model, read
      as formulas. */
  lemma Decides(m: AtomMap, small: AtomMap, prior: seq<Solver.Clause>, added: seq<Solver.Clause>, fs: seq<Formula>, cs: seq<Cnf.Clause>)
    requires Dense(m) && Extends(m, small) && AllClean(prior + added)
    requires forall val, v :: Agree(small, val, v) ==> (Solver.AllSat(val, prior) <==> Models(v, fs))
    requires Means(m, added, cs)
    ensures Solver.Solve(prior + added) <==> exists v :: Models(v, fs) && ClausesTrue(v, cs)
  {
    CleanNonZero(prior + added);
    Solver.SolveCorrect(prior + added);
    if Solver.Satisfiable(prior + added) {
      var val :| Solver.AllSat(val, prior + added);
      var v := Lift(m, val);
      LiftAgrees(m, val);
      AgreeSmaller(m, small, val, v);
      Solver.AllSatAppend(val, prior, added);
      assert Models(v, fs) && ClausesTrue(v, cs);
    }
    if exists v :: Models(v, fs) && ClausesTrue(v, cs) {
      var v :| Models(v, fs) && ClausesTrue(v, cs);
      var val := Lower(m, v);
      LowerAgrees(m, v);
      AgreeSmaller(m, small, val, v);
      Solver.AllSatAppend(val, prior, added);
      assert Solver.AllSat(val, prior + added);
    }
  }

  /** `sat` answers whether the theory and the query (when given) have a common model. */
  lemma SatMeaning(s: Store, q: Option<Formula>)
    requires Represents(s) && (q.Some? ==> Proper(q.value))
    ensures Sat(s, q).0 <==> exists v :: Models(v, s.formulas) && (q.Some? ==> Eval(v, q.value))
  {
    match q
    case None =>
      assert s.cnfs + [] == s.cnfs;
      forall val, v | Agree(s.atoms, val, v) ensures Solver.AllSat(val, []) <==> ClausesTrue(v, []) { }
      Decides(s.atoms, s.atoms, s.cnfs, [], s.formulas, []);
    case Some(f) =>
      var a := AddCnf(s, f);
      AddCnfFrame(s, f);
      ClausesShape(f);
      AddClausesMeaning(s, Clauses(f), 0, []);
      assert a.0.cnfs == s.cnfs + a.0.cnfs[|s.cnfs|..];
      Decides(a.0.atoms, s.atoms, s.cnfs, a.0.cnfs[|s.cnfs|..], s.formulas, Clauses(f));
      forall v ensures ClausesTrue(v, Clauses(f)) == Eval(v, f) {
        ClausesSound(v, f);
      }
  }

  /** `entail(formula)`: the theory entails a formula when it has no model with the formula false. */
  function Entail(s: Store, f: Formula): bool
  {
    !Sat(s, Some(Not(f))).0
  }

  /** `entail` reads a query only through the clauses of its negation. */
  lemma EntailSameClauses(s: Store, fs: seq<Formula>, f: Formula, g: Formula)
    requires NegClauses(g) == NegClauses(f)
    ensures Entail(s.(formulas := fs), g) == Entail(s, f)
  {
    SatSameClauses(s, fs, Not(f), Not(g));
  }

  lemma EntailMeaning(s: Store, f: Formula)
    requires Represents(s) && Proper(f)
    ensures Entail(s, f) <==> forall v :: Models(v, s.formulas) ==> Eval(v, f)
  {
    SatMeaning(s, Some(Not(f)));
  }
}
