/** The worked default theories at the end of dlogic.py (lines 133-170), over the classical
    ground. Each scenario is stated for any classical theory holding its facts and rules, in
    order; `EmptyTheory`, `FactTheory`, `RuleTheory` and `ResetEmpty` show that `CPDLogic()`,
    `reset`, `add_fact` and `add_rule` build exactly such a theory. The answers are derived from
    Reiter's semantics through the meaning lemmas of `DLogic`: first which sets of rules generate
    an extension, then what follows in them. */
module DLogicExamples {
  import opened Symbols
  import opened Utils
  import opened Subsets
  import opened Rules
  import opened Grounds
  import opened DLogic
  import PLogic

  /** The atoms of the bird scenarios, as the parser reads them; `a->b` is `Imply(a, b)`. */
  const Tweety: Formula := Atom("tweety")
  const Bird: Formula := Atom("bird")
  const Fly: Formula := Atom("fly")
  const Penguin: Formula := Atom("penguin")

  /** `tweety`, `tweety->bird` and `penguin->!fly`, the facts each bird scenario starts with. */
  const BirdFacts: seq<Formula> := [Tweety, Imply(Tweety, Bird), Imply(Penguin, Not(Fly))]

  /** `bird:fly/fly` and `tweety:fly/!fly`. */
  const FlyRule: DefaultRule := DefaultRule(Bird, Fly, Fly)
  const DenyRule: DefaultRule := DefaultRule(Tweety, Fly, Not(Fly))

  /** `T:!p/q` and `T:!q/p`. */
  const PRule: DefaultRule := DefaultRule(Atom("T"), Not(Atom("p")), Atom("q"))
  const QRule: DefaultRule := DefaultRule(Atom("T"), Not(Atom("q")), Atom("p"))

  // ---------------------------------------------------------------------------------------------
  // What the calls build

  /** The classical theory with facts `fs`, added in that order, and rules `d`. */
  function Theory(fs: seq<Formula>, d: seq<DefaultRule>): DefaultLogic
  {
    DefaultLogic(d, Classic(PLogic.FromFormulas(fs)))
  }

  /** `CPDLogic()`: no facts and no rules. */
  lemma EmptyTheory()
    ensures DefaultLogic([], FreshClassical) == Theory([], [])
  {
  }

  /** `reset` on a classical theory starts it over. */
  lemma ResetEmpty(t: DefaultLogic)
    requires t.w.Classic?
    ensures Reset(t) == Theory([], [])
  {
  }

  /** `add_fact` appends to the facts. */
  lemma FactTheory(fs: seq<Formula>, d: seq<DefaultRule>, f: Formula)
    ensures AddFact(Theory(fs, d), f) == Theory(fs + [f], d)
  {
    assert (fs + [f])[..|fs|] == fs;
  }

  /** `add_rule` appends to the rules. */
  lemma RuleTheory(fs: seq<Formula>, d: seq<DefaultRule>, r: DefaultRule)
    ensures AddRule(Theory(fs, d), r) == Theory(fs, d + [r])
  {
  }

  /** A classical theory with facts `fs`, in that order, rules `d`, and a store that represents
      its facts. */
  ghost predicate Built(t: DefaultLogic, fs: seq<Formula>, d: seq<DefaultRule>)
  {
    t.w.Classic? && Healthy(t.w) && Formulas(t.w) == fs && t.d == d
  }

  lemma TheoryBuilt(fs: seq<Formula>, d: seq<DefaultRule>)
    requires forall i :: 0 <= i < |fs| ==> Proper(fs[i])
    ensures Built(Theory(fs, d), fs, d)
  {
    PLogic.FromFormulasRepresents(fs);
  }

  /** A built theory of proper formulas is one the meaning lemmas apply to. */
  lemma Ready(t: DefaultLogic, fs: seq<Formula>, d: seq<DefaultRule>)
    requires Built(t, fs, d)
    requires forall i :: 0 <= i < |d| ==> Proper(d[i].pre) && Proper(d[i].jus) && Proper(d[i].cons)
    ensures Admissible(t) && WellFormed(t) && ReadingOf(t.w) == Plain
  {
  }

  /** The models of a built theory beside the rules `a` are the valuations making its facts and
      the consequents of `a` true. */
  lemma ModelsOf(t: DefaultLogic, fs: seq<Formula>, d: seq<DefaultRule>, v: string -> bool, a: set<nat>)
    requires Built(t, fs, d)
    ensures RulesModel(t, v, a) <==>
      (forall i :: 0 <= i < |fs| ==> Eval(v, fs[i])) && (forall i :: i in a && i < |d| ==> Eval(v, d[i].cons))
  {
  }

  /** A formula following from some generating set is credulously entailed. */
  lemma CredulousBy(t: DefaultLogic, f: Formula, a: set<nat>)
    requires Admissible(t) && WellFormed(t) && t.w.Classic? && Proper(f)
    requires Generates(t, a) && FollowsFrom(t, a, f)
    ensures CredulousEntail(t, f)
  {
    CredulousMeaning(t, f);
  }

  /** A formula failing to follow from some generating set is not skeptically entailed. */
  lemma NotSkepticalBy(t: DefaultLogic, f: Formula, a: set<nat>)
    requires Admissible(t) && WellFormed(t) && t.w.Classic? && Proper(f)
    requires Generates(t, a) && !FollowsFrom(t, a, f)
    ensures !SkepticalEntail(t, f)
  {
    SkepticalMeaning(t, f);
  }

  /** A single rule that generates an extension is a list the search yields. */
  lemma ListedBy(t: DefaultLogic, k: nat)
    requires Admissible(t) && WellFormed(t) && k < |t.d| && Generates(t, {k})
    ensures [k] in Generating(t)
  {
    assert Elems([k]) == {k};
    GeneratingMeaning(t, [k]);
  }

  /** When the generating lists are exactly `[0]` and `[1]`, there are two extensions. */
  lemma TwoExtensions(t: DefaultLogic)
    requires Admissible(t) && [0] in Generating(t) && [1] in Generating(t)
    requires forall c :: c in Generating(t) ==> c == [0] || c == [1]
    ensures |AllExtensions(t)| == 2
  {
    var gen := Generating(t);
    assert forall k :: 0 <= k < |gen| ==> gen[k] in gen;
    GeneratingOrdered(t);
    TwoValues(gen, [0], [1]);
  }

  // ---------------------------------------------------------------------------------------------
  // dlogic.py:133-139: tweety flies

  /** The fly rule is admitted beside any set, and `bird` follows from any set. */
  lemma FlierFacts(t: DefaultLogic, b: set<nat>)
    requires Built(t, BirdFacts, [FlyRule])
    ensures Admitted(t, b, 0) && FollowsFrom(t, b, Bird)
  {
    var v := (n: string) => n == "tweety" || n == "bird" || n == "fly";
    ModelsOf(t, BirdFacts, [FlyRule], v, b);
    assert RulesModel(t, v, b);
    forall u | RulesModel(t, u, b) ensures Eval(u, Bird) {
      ModelsOf(t, BirdFacts, [FlyRule], u, b);
      assert Eval(u, BirdFacts[0]) && Eval(u, BirdFacts[1]);
    }
  }

  /** The only generating set is the fly rule. */
  lemma FlierGenerates(t: DefaultLogic, a: set<nat>)
    requires Built(t, BirdFacts, [FlyRule])
    ensures Generates(t, a) <==> a == {0}
  {
    FlierFacts(t, a);
    if Generates(t, a) {
      assert a <= {0} by {
        forall i | i in a ensures i == 0 {
          assert Admitted(t, a, i);
        }
      }
      assert 0 in a;
    }
    if a == {0} {
      assert ClosedUnder(t, a, a);
      forall b | ClosedUnder(t, a, b) ensures a <= b {
        FlierFacts(t, b);
      }
    }
  }

  /** The theory has an extension, and in every extension tweety flies. */
  lemma FlierScenario(t: DefaultLogic)
    requires Built(t, BirdFacts, [FlyRule])
    ensures Admissible(t) && HasExtension(t) && SkepticalEntail(t, Fly)
  {
    Ready(t, BirdFacts, [FlyRule]);
    FlierGenerates(t, {0});
    HasExtensionMeaning(t);
    SkepticalMeaning(t, Fly);
    forall a | Generates(t, a) ensures FollowsFrom(t, a, Fly) {
      FlierGenerates(t, a);
      forall u | RulesModel(t, u, a) ensures Eval(u, Fly) {
        ModelsOf(t, BirdFacts, [FlyRule], u, a);
      }
    }
  }

  // ---------------------------------------------------------------------------------------------
  // dlogic.py:140-141: a penguin does not fly

  const CaughtFacts: seq<Formula> := BirdFacts + [Imply(Tweety, Penguin)]

  /** Every model of the facts has tweety a penguin that does not fly. */
  lemma CaughtModels(t: DefaultLogic, v: string -> bool, a: set<nat>)
    requires Built(t, CaughtFacts, [FlyRule]) && RulesModel(t, v, a)
    ensures !Eval(v, Fly)
  {
    ModelsOf(t, CaughtFacts, [FlyRule], v, a);
    assert Eval(v, CaughtFacts[0]) && Eval(v, CaughtFacts[2]) && Eval(v, CaughtFacts[3]);
  }

  /** The fly rule is admitted beside no set. */
  lemma CaughtBlocked(t: DefaultLogic, b: set<nat>, i: nat)
    requires Built(t, CaughtFacts, [FlyRule])
    ensures !Admitted(t, b, i)
  {
    forall u | RulesModel(t, u, b) ensures !Eval(u, Fly) {
      CaughtModels(t, u, b);
    }
  }

  /** The fly rule is never justified, so the empty set is the only generating one. */
  lemma CaughtGenerates(t: DefaultLogic, a: set<nat>)
    requires Built(t, CaughtFacts, [FlyRule])
    ensures Generates(t, a) <==> a == {}
  {
    forall b: set<nat>, i: nat ensures !Admitted(t, b, i) {
      CaughtBlocked(t, b, i);
    }
  }

  /** With tweety a penguin, no extension has it fly. */
  lemma CaughtScenario(t: DefaultLogic)
    requires Built(t, CaughtFacts, [FlyRule])
    ensures Admissible(t) && !CredulousEntail(t, Fly)
  {
    Ready(t, CaughtFacts, [FlyRule]);
    forall a | Generates(t, a) ensures !FollowsFrom(t, a, Fly) {
      CaughtGenerates(t, a);
      CaughtGrounded(t);
    }
    CredulousMeaning(t, Fly);
  }

  /** The facts alone have a model in which tweety does not fly. */
  lemma CaughtGrounded(t: DefaultLogic)
    requires Built(t, CaughtFacts, [FlyRule])
    ensures !FollowsFrom(t, {}, Fly)
  {
    var v := (n: string) => n == "tweety" || n == "bird" || n == "penguin";
    ModelsOf(t, CaughtFacts, [FlyRule], v, {});
    assert Eval(v, CaughtFacts[2]);
    assert RulesModel(t, v, {});
  }

  // ---------------------------------------------------------------------------------------------
  // dlogic.py:143-150: contradictory facts

  const WinglessFacts: seq<Formula> := BirdFacts + [Not(Bird)]

  /** `tweety`, `tweety->bird` and `!bird` have no model. */
  lemma WinglessModels(t: DefaultLogic, v: string -> bool, a: set<nat>)
    requires Built(t, WinglessFacts, [FlyRule])
    ensures !RulesModel(t, v, a)
  {
    ModelsOf(t, WinglessFacts, [FlyRule], v, a);
    assert RulesModel(t, v, a) ==>
      Eval(v, WinglessFacts[0]) && Eval(v, WinglessFacts[1]) && Eval(v, WinglessFacts[3]);
  }

  /** With no model, no rule is justified, and the empty set is the only generating one. */
  lemma WinglessGenerates(t: DefaultLogic, a: set<nat>)
    requires Built(t, WinglessFacts, [FlyRule])
    ensures Generates(t, a) <==> a == {}
  {
    forall b: set<nat>, i: nat ensures !Admitted(t, b, i) {
      forall u ensures !RulesModel(t, u, b) {
        WinglessModels(t, u, b);
      }
    }
  }

  /** The theory has an extension, and it entails anything. */
  lemma WinglessScenario(t: DefaultLogic)
    requires Built(t, WinglessFacts, [FlyRule])
    ensures Admissible(t) && HasExtension(t) && SkepticalEntail(t, Atom("hahaha"))
  {
    Ready(t, WinglessFacts, [FlyRule]);
    WinglessGenerates(t, {});
    HasExtensionMeaning(t);
    SkepticalMeaning(t, Atom("hahaha"));
    forall a ensures FollowsFrom(t, a, Atom("hahaha")) {
      forall v ensures !RulesModel(t, v, a) {
        WinglessModels(t, v, a);
      }
    }
  }

  // ---------------------------------------------------------------------------------------------
  // dlogic.py:152-160: two rules that defeat each other

  /** `tweety` and `bird` follow from any set; the rule denying flight blocks the fly rule, and
      without it both rules are admitted. */
  lemma ConflictFacts(t: DefaultLogic, a: set<nat>)
    requires Built(t, BirdFacts, [FlyRule, DenyRule])
    ensures FollowsFrom(t, a, Tweety) && FollowsFrom(t, a, Bird)
    ensures 1 in a ==> !Admitted(t, a, 0) && !Admitted(t, a, 1)
    ensures 1 !in a ==> Admitted(t, a, 0) && Admitted(t, a, 1)
  {
    forall u | RulesModel(t, u, a) ensures Eval(u, Tweety) && Eval(u, Bird) {
      ModelsOf(t, BirdFacts, [FlyRule, DenyRule], u, a);
      assert Eval(u, BirdFacts[0]) && Eval(u, BirdFacts[1]);
    }
    if 1 in a {
      forall u | RulesModel(t, u, a) ensures !Eval(u, Fly) {
        ModelsOf(t, BirdFacts, [FlyRule, DenyRule], u, a);
        assert Eval(u, t.d[1].cons);
      }
    } else {
      var v := (n: string) => n == "tweety" || n == "bird" || n == "fly";
      ModelsOf(t, BirdFacts, [FlyRule, DenyRule], v, a);
      assert RulesModel(t, v, a);
    }
  }

  /** No set generates: without the rule denying flight the theory is not closed, and with it
      the fly rule is blocked. */
  lemma ConflictGenerates(t: DefaultLogic, a: set<nat>)
    requires Built(t, BirdFacts, [FlyRule, DenyRule])
    ensures !Generates(t, a)
  {
    ConflictFacts(t, a);
    assert Admitted(t, a, 1) ==> ClosedUnder(t, a, a) ==> 0 in a && 1 in a;
  }

  /** The theory has no extension: nothing is credulously entailed, everything skeptically. */
  lemma ConflictScenario(t: DefaultLogic)
    requires Built(t, BirdFacts, [FlyRule, DenyRule])
    ensures Admissible(t) && !HasExtension(t)
    ensures Admissible(t) && !CredulousEntail(t, Bird) && SkepticalEntail(t, Atom("hahaha"))
  {
    Ready(t, BirdFacts, [FlyRule, DenyRule]);
    forall a ensures !Generates(t, a) {
      ConflictGenerates(t, a);
    }
    HasExtensionMeaning(t);
    CredulousMeaning(t, Bird);
    SkepticalMeaning(t, Atom("hahaha"));
  }

  // ---------------------------------------------------------------------------------------------
  // dlogic.py:162-170: two rules each blocking the other

  /** `T` follows from any set. */
  lemma ChoicesPremise(t: DefaultLogic, b: set<nat>)
    requires Built(t, [Atom("T")], [PRule, QRule])
    ensures FollowsFrom(t, b, Atom("T"))
  {
    forall u | RulesModel(t, u, b) ensures Eval(u, Atom("T")) {
      ModelsOf(t, [Atom("T")], [PRule, QRule], u, b);
      assert Eval(u, [Atom("T")][0]);
    }
  }

  /** Each rule blocks the other, and is admitted unless the other is chosen. */
  lemma ChoicesFacts(t: DefaultLogic, a: set<nat>)
    requires Built(t, [Atom("T")], [PRule, QRule])
    ensures 0 in a ==> !Admitted(t, a, 1)
    ensures 1 in a ==> !Admitted(t, a, 0)
    ensures 1 !in a ==> Admitted(t, a, 0)
    ensures 0 !in a ==> Admitted(t, a, 1)
  {
    if 0 in a {
      forall u | RulesModel(t, u, a) ensures Eval(u, Atom("q")) {
        ModelsOf(t, [Atom("T")], [PRule, QRule], u, a);
        assert Eval(u, t.d[0].cons);
      }
    } else {
      var vp := (n: string) => n == "T" || n == "p";
      ModelsOf(t, [Atom("T")], [PRule, QRule], vp, a);
      assert RulesModel(t, vp, a);
    }
    if 1 in a {
      forall u | RulesModel(t, u, a) ensures Eval(u, Atom("p")) {
        ModelsOf(t, [Atom("T")], [PRule, QRule], u, a);
        assert Eval(u, t.d[1].cons);
      }
    } else {
      var vq := (n: string) => n == "T" || n == "q";
      ModelsOf(t, [Atom("T")], [PRule, QRule], vq, a);
      assert RulesModel(t, vq, a);
    }
  }

  /** Each rule alone generates an extension. */
  lemma ChoicesGenerator(t: DefaultLogic, k: nat)
    requires Built(t, [Atom("T")], [PRule, QRule]) && k < 2
    ensures Generates(t, {k})
  {
    ChoicesFacts(t, {k});
    ChoicesPremise(t, {k});
    assert ClosedUnder(t, {k}, {k});
    forall b | ClosedUnder(t, {k}, b) ensures {k} <= b {
      ChoicesPremise(t, b);
    }
  }

  /** Each rule alone generates an extension, and nothing else does. */
  lemma ChoicesGenerates(t: DefaultLogic, a: set<nat>)
    requires Built(t, [Atom("T")], [PRule, QRule])
    ensures Generates(t, a) <==> a == {0} || a == {1}
  {
    if a == {0} || a == {1} {
      ChoicesGenerator(t, if a == {0} then 0 else 1);
    }
    if Generates(t, a) {
      ChoicesFacts(t, a);
      ChoicesPremise(t, a);
      assert a <= {0, 1} by {
        forall i | i in a ensures i < 2 {
          assert Admitted(t, a, i);
        }
      }
      if 0 in a {
        assert a == {0};
      } else if 1 in a {
        assert a == {1};
      } else {
        assert false;
      }
    }
  }

  /** An increasing list holding one position is that position alone. */
  lemma SingleListing(c: seq<nat>, x: nat)
    requires Increasing(c) && Elems(c) == {x}
    ensures c == [x]
  {
    assert x in Elems(c);
    if |c| > 1 {
      FirstTwoListed(c);
    }
  }

  lemma FirstTwoListed(c: seq<nat>)
    requires Increasing(c) && |c| > 1
    ensures c[0] < c[1] && c[0] in Elems(c) && c[1] in Elems(c)
  {
  }

  /** A list without duplicates holding exactly two distinct values has length two. */
  lemma TwoValues<T>(s: seq<T>, x: T, y: T)
    requires NoDuplicates(s) && x != y && x in s && y in s
    requires forall k :: 0 <= k < |s| ==> s[k] == x || s[k] == y
    ensures |s| == 2
  {
    var i :| 0 <= i < |s| && s[i] == x;
    var j :| 0 <= j < |s| && s[j] == y;
    assert i != j;
    if |s| > 2 {
      FirstThreeDistinct(s);
    }
  }

  lemma FirstThreeDistinct<T>(s: seq<T>)
    requires NoDuplicates(s) && |s| > 2
    ensures s[0] != s[1] && s[0] != s[2] && s[1] != s[2]
  {
  }

  /** `p` and `q` are each credulously entailed. */
  lemma ChoicesCredulous(t: DefaultLogic)
    requires Built(t, [Atom("T")], [PRule, QRule])
    ensures Admissible(t) && CredulousEntail(t, Atom("p")) && CredulousEntail(t, Atom("q"))
  {
    Ready(t, [Atom("T")], [PRule, QRule]);
    ChoicesGenerator(t, 0);
    ChoicesGenerator(t, 1);
    ChoicesEntail(t);
    CredulousBy(t, Atom("p"), {1});
    CredulousBy(t, Atom("q"), {0});
  }

  /** Neither `p` nor `q` is skeptically entailed. */
  lemma ChoicesSkeptical(t: DefaultLogic)
    requires Built(t, [Atom("T")], [PRule, QRule])
    ensures Admissible(t) && !SkepticalEntail(t, Atom("p")) && !SkepticalEntail(t, Atom("q"))
  {
    Ready(t, [Atom("T")], [PRule, QRule]);
    ChoicesGenerator(t, 0);
    ChoicesGenerator(t, 1);
    ChoicesEntail(t);
    NotSkepticalBy(t, Atom("p"), {0});
    NotSkepticalBy(t, Atom("q"), {1});
  }

  /** Choosing the rule for `q` yields `q` and not `p`, and the other way round. */
  lemma ChoicesEntail(t: DefaultLogic)
    requires Built(t, [Atom("T")], [PRule, QRule])
    ensures FollowsFrom(t, {1}, Atom("p")) && FollowsFrom(t, {0}, Atom("q"))
    ensures !FollowsFrom(t, {0}, Atom("p")) && !FollowsFrom(t, {1}, Atom("q"))
  {
    forall u | RulesModel(t, u, {1}) ensures Eval(u, Atom("p")) {
      ModelsOf(t, [Atom("T")], [PRule, QRule], u, {1});
    }
    forall u | RulesModel(t, u, {0}) ensures Eval(u, Atom("q")) {
      ModelsOf(t, [Atom("T")], [PRule, QRule], u, {0});
    }
    var vq := (n: string) => n == "T" || n == "q";
    var vp := (n: string) => n == "T" || n == "p";
    ModelsOf(t, [Atom("T")], [PRule, QRule], vq, {0});
    ModelsOf(t, [Atom("T")], [PRule, QRule], vp, {1});
    assert RulesModel(t, vq, {0}) && RulesModel(t, vp, {1});
  }

  /** The search yields exactly two extensions, from `[0]` and from `[1]`. */
  lemma ChoicesCount(t: DefaultLogic)
    requires Built(t, [Atom("T")], [PRule, QRule])
    ensures Admissible(t) && |AllExtensions(t)| == 2
  {
    Ready(t, [Atom("T")], [PRule, QRule]);
    ChoicesListed(t);
    TwoExtensions(t);
  }

  /** The generating lists are `[0]` and `[1]`. */
  lemma ChoicesListed(t: DefaultLogic)
    requires Built(t, [Atom("T")], [PRule, QRule])
    ensures Admissible(t) && [0] in Generating(t) && [1] in Generating(t)
    ensures Admissible(t) && forall c :: c in Generating(t) ==> c == [0] || c == [1]
  {
    Ready(t, [Atom("T")], [PRule, QRule]);
    ChoicesGenerator(t, 0);
    ChoicesGenerator(t, 1);
    ListedBy(t, 0);
    ListedBy(t, 1);
    forall c | c in Generating(t) ensures c == [0] || c == [1] {
      ChoicesListing(t, c);
    }
  }

  /** A list the search yields is `[0]` or `[1]`. */
  lemma ChoicesListing(t: DefaultLogic, c: seq<nat>)
    requires Built(t, [Atom("T")], [PRule, QRule]) && c in Generating(t)
    ensures c == [0] || c == [1]
  {
    Ready(t, [Atom("T")], [PRule, QRule]);
    GeneratingMeaning(t, c);
    ChoicesGenerates(t, Elems(c));
    if Elems(c) == {0} {
      SingleListing(c, 0);
    } else {
      SingleListing(c, 1);
    }
  }
}
