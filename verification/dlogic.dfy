/** Reiter's default logic over a ground logic (dlogic.py): a default theory is a list `d` of
    default rules and a ground-logic instance `w` holding the facts. `CPDLogic` finds the
    extensions by trying every subset of the rules, smallest first, as a candidate set of
    generating defaults. Rules are objects compared by identity in the source, so the model
    names a rule by its position in `d` and a candidate by an increasing sequence of positions.
    The meaning of the search is Reiter's: a candidate passes `is_extension` exactly when it is
    the least set of rules, among those whose justification is consistent with the candidate's
    extension, that is closed under "the prerequisite follows from `w` and the consequents of the
    set" (`Generates`). */
module DLogic {
  import opened Wrappers
  import opened Symbols
  import opened Utils
  import opened Subsets
  import opened Rules
  import opened Grounds
  import Closures

  datatype DefaultLogic = DefaultLogic(d: seq<DefaultRule>, w: Ground)

  /** `reset`: no rules and a fresh instance of the same ground logic. */
  function Reset(t: DefaultLogic): (r: DefaultLogic)
    ensures r.d == [] && Formulas(r.w) == [] && r.w.Classic? == t.w.Classic?
  {
    DefaultLogic([], if t.w.Classic? then FreshClassical else FreshParaconsistent)
  }

  /** `add_fact`: the fact goes to the ground logic. */
  function AddFact(t: DefaultLogic, f: Formula): (r: DefaultLogic)
    ensures r.d == t.d && Formulas(r.w) == Formulas(t.w) + [f]
    ensures ReadingOf(r.w) == ReadingOf(t.w) && r.w.Classic? == t.w.Classic?
  {
    t.(w := Grounds.Add(t.w, f))
  }

  /** `add_rule`: the rule is appended to `d`. */
  function AddRule(t: DefaultLogic, rule: DefaultRule): (r: DefaultLogic)
    ensures r.d == t.d + [rule] && r.w == t.w
  {
    t.(d := t.d + [rule])
  }

  /** What `CPDLogic` needs to run without the ground logic raising: every prerequisite and
      consequent can be added and entailed, every justification can be tested with `sat`. */
  predicate Admissible(t: DefaultLogic)
  {
    Usable(t.w) &&
    forall i :: 0 <= i < |t.d| ==>
      Accepts(t.w, t.d[i].pre) && SatAccepts(t.w, Some(t.d[i].jus)) && Accepts(t.w, t.d[i].cons)
  }

  /** What the meaning lemmas need on top: a healthy ground and well-formed formulas. */
  ghost predicate WellFormed(t: DefaultLogic)
  {
    Healthy(t.w) &&
    forall i :: 0 <= i < |t.d| ==> Proper(t.d[i].pre) && Proper(t.d[i].jus) && Proper(t.d[i].cons)
  }

  /** The consequents of the chosen rules, in the order chosen. */
  function Conses(t: DefaultLogic, c: seq<nat>): (r: seq<Formula>)
    requires Within(c, 0, |t.d|)
    ensures |r| == |c| && forall k :: 0 <= k < |c| ==> r[k] == t.d[c[k]].cons
  {
    seq(|c|, k requires 0 <= k < |c| => t.d[c[k]].cons)
  }

  lemma ConsesAppend(t: DefaultLogic, c: seq<nat>, x: nat)
    requires Within(c, 0, |t.d|) && x < |t.d|
    ensures Within(c + [x], 0, |t.d|) && Conses(t, c + [x]) == Conses(t, c) + [t.d[x].cons]
  {
    assert Conses(t, c + [x])[|c|] == t.d[x].cons;
  }

  /** `_build_extension`: a copy of `w` with the consequent of every chosen rule added, in order. */
  function BuildExtension(t: DefaultLogic, c: seq<nat>): (r: Ground)
    requires Within(c, 0, |t.d|)
    ensures Formulas(r) == Formulas(t.w) + Conses(t, c)
    ensures ReadingOf(r) == ReadingOf(t.w) && r.Classic? == t.w.Classic?
    ensures Admissible(t) ==> Usable(r)
  {
    if |c| == 0 then t.w
    else
      var prefix := c[..|c| - 1];
      var x := c[|c| - 1];
      assert c == prefix + [x];
      ConsesAppend(t, prefix, x);
      Grounds.Add(BuildExtension(t, prefix), t.d[x].cons)
  }

  /** `ds` of `is_extension`: the positions of the rules whose justification is consistent with
      the extension the candidate builds (`_test_rule`, i.e. `extension.sat(rule.jus)`), in rule
      order. */
  function Applicable(t: DefaultLogic, cand: seq<nat>): seq<nat>
    requires Admissible(t) && Within(cand, 0, |t.d|)
  {
    var ext := BuildExtension(t, cand);
    Positions((x: nat) => x < |t.d| && Grounds.Sat(ext, Some(t.d[x].jus)), |t.d|)
  }

  /** The question the closure loop asks: `iter_ext.entail(d.pre)` with `iter_ext` built from the
      rules applied so far. */
  function Fires(t: DefaultLogic): Closures.Oracle
    requires Admissible(t)
  {
    (a: seq<nat>, x: nat) => Within(a, 0, |t.d|) && x < |t.d| && Grounds.Entail(BuildExtension(t, a), t.d[x].pre)
  }

  /** `is_extension(rules)`: the candidate's rules must all be justified in the extension they
      build, and closing `w` under the justified rules must apply exactly the candidate's rules. */
  function IsExtension(t: DefaultLogic, cand: seq<nat>): bool
    requires Admissible(t) && Within(cand, 0, |t.d|)
  {
    var ds := Applicable(t, cand);
    if !Subseteq(cand, ds) then false
    else
      match Closures.Close(Fires(t), cand, ds, [])
      case Rejected => false
      case Closed(applied) => Subseteq(cand, applied)
  }

  /** The test `all_extensions` applies to each candidate. */
  function Passes(t: DefaultLogic): seq<nat> -> bool
    requires Admissible(t)
  {
    (c: seq<nat>) => Within(c, 0, |t.d|) && IsExtension(t, c)
  }

  /** The candidates `all_extensions` keeps, smallest first: `combinations(self.d, r)` for
      `r = 0 .. len(d)`, filtered by `is_extension`. */
  function Generating(t: DefaultLogic): (r: seq<seq<nat>>)
    requires Admissible(t)
    ensures forall c :: c in r ==> Within(c, 0, |t.d|)
    ensures forall k :: 0 <= k < |r| ==> Within(r[k], 0, |t.d|)
  {
    var r := Filter(Passes(t), BySize(|t.d|));
    assert forall k :: 0 <= k < |r| ==> r[k] in r;
    r
  }

  /** `all_extensions`: the extension built from each generating candidate, in the same order. */
  function AllExtensions(t: DefaultLogic): (r: seq<Ground>)
    requires Admissible(t)
    ensures |r| == |Generating(t)|
    ensures forall k :: 0 <= k < |r| ==> Formulas(r[k]) == Formulas(t.w) + Conses(t, Generating(t)[k])
    ensures forall k :: 0 <= k < |r| ==>
      Usable(r[k]) && ReadingOf(r[k]) == ReadingOf(t.w) && r[k].Classic? == t.w.Classic?
  {
    var gen := Generating(t);
    seq(|gen|, k requires 0 <= k < |gen| => BuildExtension(t, gen[k]))
  }

  /** `has_extension`: the search yields something. */
  function HasExtension(t: DefaultLogic): bool
    requires Admissible(t)
  {
    |AllExtensions(t)| > 0
  }

  /** Whether the extension built from candidate `c` entails `f`. */
  function ExtensionEntails(t: DefaultLogic, c: seq<nat>, f: Formula): bool
    requires Admissible(t) && Accepts(t.w, f) && Within(c, 0, |t.d|)
  {
    Grounds.Entail(BuildExtension(t, c), f)
  }

  /** Whether some extension built from `gen` entails `f`, trying them in order. */
  function SomeEntails(t: DefaultLogic, gen: seq<seq<nat>>, f: Formula): (r: bool)
    requires Admissible(t) && Accepts(t.w, f) && forall c :: c in gen ==> Within(c, 0, |t.d|)
    ensures r <==> exists c :: c in gen && ExtensionEntails(t, c, f)
  {
    if |gen| == 0 then false
    else ExtensionEntails(t, gen[0], f) || SomeEntails(t, gen[1..], f)
  }

  /** Whether every extension built from `gen` entails `f`, stopping at the first that does not. */
  function EveryEntails(t: DefaultLogic, gen: seq<seq<nat>>, f: Formula): (r: bool)
    requires Admissible(t) && Accepts(t.w, f) && forall c :: c in gen ==> Within(c, 0, |t.d|)
    ensures r <==> forall c :: c in gen ==> ExtensionEntails(t, c, f)
  {
    if |gen| == 0 then true
    else ExtensionEntails(t, gen[0], f) && EveryEntails(t, gen[1..], f)
  }

  /** `credulous_entail`: some extension entails `f`. */
  function CredulousEntail(t: DefaultLogic, f: Formula): bool
    requires Admissible(t) && Accepts(t.w, f)
  {
    SomeEntails(t, Generating(t), f)
  }

  /** `skeptical_entail`: every extension entails `f` (so does everything when there is none). */
  function SkepticalEntail(t: DefaultLogic, f: Formula): bool
    requires Admissible(t) && Accepts(t.w, f)
  {
    EveryEntails(t, Generating(t), f)
  }

  // ---------------------------------------------------------------------------------------------
  // Reiter's semantics over sets of rule positions

  /** `v` is a model of `w` and of the consequents of the rules in `a`. */
  ghost predicate RulesModel(t: DefaultLogic, v: string -> bool, a: set<nat>)
  {
    ModelOf(ReadingOf(t.w), v, Formulas(t.w)) &&
    forall i :: i in a && i < |t.d| ==> Holds(ReadingOf(t.w), v, t.d[i].cons)
  }

  ghost predicate FollowsFrom(t: DefaultLogic, a: set<nat>, f: Formula)
  {
    forall v :: RulesModel(t, v, a) ==> Holds(ReadingOf(t.w), v, f)
  }

  ghost predicate ConsistentWith(t: DefaultLogic, a: set<nat>, f: Formula)
  {
    exists v :: RulesModel(t, v, a) && Holds(ReadingOf(t.w), v, f)
  }

  /** Rule `i` may be used beside the rules `c`: its justification is consistent with them. */
  ghost predicate Admitted(t: DefaultLogic, c: set<nat>, i: nat)
  {
    i < |t.d| && ConsistentWith(t, c, t.d[i].jus)
  }

  /** `a` is closed under the rules admitted beside `c`: each whose prerequisite follows from `a`
      is in `a`. */
  ghost predicate ClosedUnder(t: DefaultLogic, c: set<nat>, a: set<nat>)
  {
    forall i: nat :: Admitted(t, c, i) && FollowsFrom(t, a, t.d[i].pre) ==> i in a
  }

  /** `c` generates an extension: its rules are admitted beside it, and it is the least set closed
      under the rules admitted beside it. */
  ghost predicate Generates(t: DefaultLogic, c: set<nat>)
  {
    (forall i :: i in c ==> Admitted(t, c, i)) &&
    ClosedUnder(t, c, c) &&
    forall a :: ClosedUnder(t, c, a) ==> c <= a
  }

  /** The formulas of the extension built from `c` have exactly the models of `w` and the
      consequents of `c`. */
  lemma ModelLink(t: DefaultLogic, c: seq<nat>, v: string -> bool)
    requires Within(c, 0, |t.d|)
    ensures ModelOf(ReadingOf(t.w), v, Formulas(t.w) + Conses(t, c)) <==> RulesModel(t, v, Elems(c))
  {
    var rd := ReadingOf(t.w);
    var w := Formulas(t.w);
    var fs := w + Conses(t, c);
    if ModelOf(rd, v, fs) {
      forall i | 0 <= i < |w| ensures Holds(rd, v, w[i]) {
        assert fs[i] == w[i];
      }
      forall i | i in Elems(c) && i < |t.d| ensures Holds(rd, v, t.d[i].cons) {
        var k :| 0 <= k < |c| && c[k] == i;
        assert fs[|w| + k] == t.d[i].cons;
      }
    }
    if RulesModel(t, v, Elems(c)) {
      forall i | 0 <= i < |fs| ensures Holds(rd, v, fs[i]) {
        if i >= |w| {
          assert c[i - |w|] in Elems(c);
        }
      }
    }
  }

  /** Every extension built by the search is healthy when the theory is well formed. */
  lemma {:induction false} BuildHealthy(t: DefaultLogic, c: seq<nat>)
    requires Admissible(t) && WellFormed(t) && Within(c, 0, |t.d|)
    ensures Healthy(BuildExtension(t, c))
    decreases |c|
  {
    if |c| > 0 {
      BuildHealthy(t, c[..|c| - 1]);
      BuildStepHealthy(t, c);
    }
  }

  /** Adding the last chosen consequent keeps the extension healthy. */
  lemma BuildStepHealthy(t: DefaultLogic, c: seq<nat>)
    requires Admissible(t) && WellFormed(t) && Within(c, 0, |t.d|) && |c| > 0
    requires Healthy(BuildExtension(t, c[..|c| - 1]))
    ensures Healthy(BuildExtension(t, c))
  {
    var ext := BuildExtension(t, c[..|c| - 1]);
    var x := c[|c| - 1];
    assert BuildExtension(t, c) == Grounds.Add(ext, t.d[x].cons);
    assert Accepts(t.w, t.d[x].cons) && Proper(t.d[x].cons);
    AddHealthy(ext, t.d[x].cons);
  }

  /** `entail` on a built extension is consequence from `w` and the chosen consequents. */
  lemma BuildFollows(t: DefaultLogic, c: seq<nat>, f: Formula)
    requires Admissible(t) && WellFormed(t) && Within(c, 0, |t.d|) && Accepts(t.w, f) && Proper(f)
    ensures Grounds.Entail(BuildExtension(t, c), f) == FollowsFrom(t, Elems(c), f)
  {
    var ext := BuildExtension(t, c);
    BuildHealthy(t, c);
    EntailMeaning(ext, f);
    forall v ensures ModelOf(ReadingOf(t.w), v, Formulas(ext)) <==> RulesModel(t, v, Elems(c)) {
      ModelLink(t, c, v);
    }
  }

  /** `sat` on a built extension is consistency with `w` and the chosen consequents. */
  lemma BuildConsistent(t: DefaultLogic, c: seq<nat>, f: Formula)
    requires Admissible(t) && WellFormed(t) && Within(c, 0, |t.d|) && SatAccepts(t.w, Some(f)) && Proper(f)
    ensures Grounds.Sat(BuildExtension(t, c), Some(f)) == ConsistentWith(t, Elems(c), f)
  {
    var ext := BuildExtension(t, c);
    BuildHealthy(t, c);
    SatMeaning(ext, Some(f));
    forall v ensures ModelOf(ReadingOf(t.w), v, Formulas(ext)) <==> RulesModel(t, v, Elems(c)) {
      ModelLink(t, c, v);
    }
  }

  /** `ds` holds exactly the rules admitted beside the candidate. */
  lemma ApplicableMeaning(t: DefaultLogic, cand: seq<nat>, x: nat)
    requires Admissible(t) && WellFormed(t) && Within(cand, 0, |t.d|)
    ensures x in Applicable(t, cand) <==> Admitted(t, Elems(cand), x)
  {
    if x < |t.d| {
      BuildConsistent(t, cand, t.d[x].jus);
    }
  }

  /** The loop's question is consequence from `w` and the consequents of the rules applied. */
  lemma FiresMeaning(t: DefaultLogic, a: seq<nat>, x: nat)
    requires Admissible(t) && WellFormed(t) && Within(a, 0, |t.d|) && x < |t.d|
    ensures Fires(t)(a, x) == FollowsFrom(t, Elems(a), t.d[x].pre)
  {
    BuildFollows(t, a, t.d[x].pre);
  }

  /** Consequence grows with the set of rules. */
  lemma FollowsMonotone(t: DefaultLogic, a: set<nat>, b: set<nat>, f: Formula)
    requires a <= b && FollowsFrom(t, a, f)
    ensures FollowsFrom(t, b, f)
  {
    forall v | RulesModel(t, v, b) ensures Holds(ReadingOf(t.w), v, f) {
      assert RulesModel(t, v, a);
    }
  }

  lemma FiresMonotone(t: DefaultLogic)
    requires Admissible(t) && WellFormed(t)
    ensures Closures.Monotone(Fires(t), |t.d|)
  {
    var fires := Fires(t);
    forall a: seq<nat>, b: seq<nat>, x: nat | fires(a, x) && Within(b, 0, |t.d|) && (forall y :: y in a ==> y in b)
      ensures fires(b, x)
    {
      FiresMeaning(t, a, x);
      FiresMeaning(t, b, x);
      FollowsMonotone(t, Elems(a), Elems(b), t.d[x].pre);
    }
  }

  /** Closedness as the loop sees it is closedness in Reiter's sense. */
  lemma ClosedLink(t: DefaultLogic, cand: seq<nat>, a: seq<nat>)
    requires Admissible(t) && WellFormed(t) && Within(cand, 0, |t.d|) && Within(a, 0, |t.d|)
    ensures Closures.ClosedUnder(Fires(t), Applicable(t, cand), a) <==> ClosedUnder(t, Elems(cand), Elems(a))
  {
    var ds := Applicable(t, cand);
    var fires := Fires(t);
    forall x: nat ensures (x in ds && fires(a, x)) <==> (Admitted(t, Elems(cand), x) && FollowsFrom(t, Elems(a), t.d[x].pre)) {
      ApplicableMeaning(t, cand, x);
      if x < |t.d| {
        FiresMeaning(t, a, x);
      }
    }
  }

  /** The members of `a` below `n`, in increasing order. */
  function Listing(a: set<nat>, n: nat): (r: seq<nat>)
    ensures Increasing(r) && Within(r, 0, n)
    ensures Elems(r) == set x | x in a && x < n
  {
    Positions((x: nat) => x in a, n)
  }

  /** Dropping the positions past the last rule keeps a set closed. */
  lemma ListingClosed(t: DefaultLogic, c: set<nat>, a: set<nat>)
    requires ClosedUnder(t, c, a)
    ensures ClosedUnder(t, c, Elems(Listing(a, |t.d|)))
  {
    var l := Elems(Listing(a, |t.d|));
    forall i: nat | Admitted(t, c, i) && FollowsFrom(t, l, t.d[i].pre) ensures i in l {
      FollowsMonotone(t, l, a, t.d[i].pre);
    }
  }

  /** The facts about the loop run by `is_extension` that both directions below use. */
  lemma LoopFacts(t: DefaultLogic, cand: seq<nat>)
    requires Admissible(t) && WellFormed(t) && Within(cand, 0, |t.d|)
    ensures var ds := Applicable(t, cand);
      var r := Closures.Close(Fires(t), cand, ds, []);
      (forall x: nat :: x in ds <==> Admitted(t, Elems(cand), x)) &&
      (r.Closed? ==>
        Within(r.applied, 0, |t.d|) &&
        (forall x :: x in r.applied ==> x in cand) &&
        ClosedUnder(t, Elems(cand), Elems(r.applied)) &&
        forall a :: ClosedUnder(t, Elems(cand), a) ==> Elems(r.applied) <= a) &&
      (ClosedUnder(t, Elems(cand), Elems(cand)) ==> r.Closed?)
  {
    var n := |t.d|;
    var c := Elems(cand);
    var ds := Applicable(t, cand);
    var fires := Fires(t);
    FiresMonotone(t);
    Closures.CloseLeast(fires, n, cand, ds);
    forall x: nat ensures x in ds <==> Admitted(t, c, x) {
      ApplicableMeaning(t, cand, x);
    }
    var r := Closures.Close(fires, cand, ds, []);
    if r.Closed? {
      var ap := r.applied;
      assert Within(ap, 0, n) by {
        forall i | 0 <= i < |ap| ensures ap[i] < n {
          assert ap[i] in ds;
        }
      }
      ClosedLink(t, cand, ap);
      forall a | ClosedUnder(t, c, a) ensures Elems(ap) <= a {
        ListingClosed(t, c, a);
        ClosedLink(t, cand, Listing(a, n));
      }
    }
    ClosedLink(t, cand, cand);
  }

  /** `is_extension` decides Reiter's condition: the candidate passes exactly when it generates an
      extension. */
  lemma IsExtensionMeaning(t: DefaultLogic, cand: seq<nat>)
    requires Admissible(t) && WellFormed(t) && Within(cand, 0, |t.d|)
    ensures IsExtension(t, cand) <==> Generates(t, Elems(cand))
  {
    if IsExtension(t, cand) {
      ExtensionGenerates(t, cand);
    }
    if Generates(t, Elems(cand)) {
      GeneratesExtension(t, cand);
    }
  }

  lemma ExtensionGenerates(t: DefaultLogic, cand: seq<nat>)
    requires Admissible(t) && WellFormed(t) && Within(cand, 0, |t.d|) && IsExtension(t, cand)
    ensures Generates(t, Elems(cand))
  {
    var c := Elems(cand);
    var ds := Applicable(t, cand);
    var r := Closures.Close(Fires(t), cand, ds, []);
    LoopFacts(t, cand);
    assert Subseteq(cand, ds) && r.Closed? && Subseteq(cand, r.applied);
    assert Elems(r.applied) == c;
    forall i | i in c ensures Admitted(t, c, i) {
      assert i in ds;
    }
  }

  lemma GeneratesExtension(t: DefaultLogic, cand: seq<nat>)
    requires Admissible(t) && WellFormed(t) && Within(cand, 0, |t.d|) && Generates(t, Elems(cand))
    ensures IsExtension(t, cand)
  {
    var c := Elems(cand);
    var ds := Applicable(t, cand);
    var r := Closures.Close(Fires(t), cand, ds, []);
    LoopFacts(t, cand);
    assert Subseteq(cand, ds) by {
      forall x | x in cand ensures x in ds {
        assert x in c;
      }
    }
    assert r.Closed?;
    assert Subseteq(cand, r.applied) by {
      forall x | x in cand ensures x in r.applied {
        assert x in c;
        assert x in Elems(r.applied);
      }
    }
  }

  /** A generating set only holds positions of rules. */
  lemma GeneratesListed(t: DefaultLogic, a: set<nat>)
    requires Generates(t, a)
    ensures Elems(Listing(a, |t.d|)) == a
  {
  }

  /** The search keeps exactly the generating sets, each once, as increasing position lists. */
  lemma GeneratingMeaning(t: DefaultLogic, c: seq<nat>)
    requires Admissible(t) && WellFormed(t)
    ensures c in Generating(t) <==> Increasing(c) && Within(c, 0, |t.d|) && Generates(t, Elems(c))
  {
    BySizeMembership(|t.d|, c);
    if Within(c, 0, |t.d|) {
      IsExtensionMeaning(t, c);
    }
  }

  /** The search yields the generating sets smallest first, and never the same one twice. */
  lemma GeneratingOrdered(t: DefaultLogic)
    requires Admissible(t)
    ensures forall i, j :: 0 <= i < j < |Generating(t)| ==> |Generating(t)[i]| <= |Generating(t)[j]|
    ensures NoDuplicates(Generating(t))
  {
    var size := (c: seq<nat>) => |c|;
    BySizeOrdered(|t.d|);
    FilterOrdered(Passes(t), BySize(|t.d|), size);
  }

  /** `has_extension` holds exactly when some set of rules generates an extension. */
  lemma HasExtensionMeaning(t: DefaultLogic)
    requires Admissible(t) && WellFormed(t)
    ensures HasExtension(t) <==> exists a :: Generates(t, a)
  {
    var gen := Generating(t);
    if HasExtension(t) {
      GeneratingMeaning(t, gen[0]);
      assert Generates(t, Elems(gen[0]));
    }
    if exists a :: Generates(t, a) {
      var a :| Generates(t, a);
      var l := Listing(a, |t.d|);
      GeneratesListed(t, a);
      GeneratingMeaning(t, l);
    }
  }

  /** Every generating set is found by the search, at some position. */
  lemma GeneratingFinds(t: DefaultLogic, a: set<nat>) returns (k: nat)
    requires Admissible(t) && WellFormed(t) && Generates(t, a)
    ensures k < |Generating(t)| && Elems(Generating(t)[k]) == a
  {
    var l := Listing(a, |t.d|);
    GeneratesListed(t, a);
    GeneratingMeaning(t, l);
    k :| 0 <= k < |Generating(t)| && Generating(t)[k] == l;
  }

  /** `credulous_entail(f)`: `f` follows in some extension. */
  lemma CredulousMeaning(t: DefaultLogic, f: Formula)
    requires Admissible(t) && WellFormed(t) && Accepts(t.w, f) && Proper(f)
    ensures CredulousEntail(t, f) <==> exists a :: Generates(t, a) && FollowsFrom(t, a, f)
  {
    var gen := Generating(t);
    if CredulousEntail(t, f) {
      var c :| c in gen && ExtensionEntails(t, c, f);
      FoundFollows(t, c, f);
      assert Generates(t, Elems(c)) && FollowsFrom(t, Elems(c), f);
    }
    if exists a :: Generates(t, a) && FollowsFrom(t, a, f) {
      var a :| Generates(t, a) && FollowsFrom(t, a, f);
      var c := FoundFor(t, a, f);
      assert c in gen && ExtensionEntails(t, c, f);
    }
  }

  /** `skeptical_entail(f)`: `f` follows in every extension. */
  lemma SkepticalMeaning(t: DefaultLogic, f: Formula)
    requires Admissible(t) && WellFormed(t) && Accepts(t.w, f) && Proper(f)
    ensures SkepticalEntail(t, f) <==> forall a :: Generates(t, a) ==> FollowsFrom(t, a, f)
  {
    var gen := Generating(t);
    if SkepticalEntail(t, f) {
      forall a | Generates(t, a) ensures FollowsFrom(t, a, f) {
        var c := FoundFor(t, a, f);
        assert c in gen;
      }
    } else {
      var c :| c in gen && !ExtensionEntails(t, c, f);
      FoundFollows(t, c, f);
      assert Generates(t, Elems(c)) && !FollowsFrom(t, Elems(c), f);
    }
  }

  /** A set the search yields generates an extension, in which `entail` is consequence. */
  lemma FoundFollows(t: DefaultLogic, c: seq<nat>, f: Formula)
    requires Admissible(t) && WellFormed(t) && Accepts(t.w, f) && Proper(f) && c in Generating(t)
    ensures Generates(t, Elems(c))
    ensures ExtensionEntails(t, c, f) == FollowsFrom(t, Elems(c), f)
  {
    GeneratingMeaning(t, c);
    BuildFollows(t, c, f);
  }

  /** A generating set is yielded by the search, listed as some `c`. */
  lemma FoundFor(t: DefaultLogic, a: set<nat>, f: Formula) returns (c: seq<nat>)
    requires Admissible(t) && WellFormed(t) && Accepts(t.w, f) && Proper(f) && Generates(t, a)
    ensures c in Generating(t) && Elems(c) == a
    ensures ExtensionEntails(t, c, f) == FollowsFrom(t, a, f)
  {
    var k := GeneratingFinds(t, a);
    c := Generating(t)[k];
    BuildFollows(t, c, f);
  }
}
