/** The closure loop of `CPDLogic.is_extension` (dlogic.py:102-116), over positions of rules.
    The loop asks the ground logic a single question: does the extension built from the rules
    applied so far entail the prerequisite of rule `x`? Here that question is the oracle `fires`,
    so the loop and its properties are stated once, apart from the ground logic; the default-logic
    layer supplies the oracle. The extension the loop grows (`iter_ext`) is always `w` with the
    consequents of the applied rules added in order, so it is determined by `applied`. */
module Closures {
  import opened Utils
  import opened Subsets

  /** `fires(applied, x)`: the extension built from the rules `applied` entails the prerequisite of
      rule `x`. */
  type Oracle = (seq<nat>, nat) -> bool

  datatype Pass = Reject | Passed(applied: seq<nat>, kept: seq<nat>)

  /** One pass of the `while ds` loop over `todo`: in list order, a rule whose prerequisite the
      current extension entails is applied at once (it joins `applied`, which grows the extension
      for the rules after it); the others are kept for the next pass. Applying a rule outside the
      candidate rejects the candidate. */
  function RunPass(fires: Oracle, cand: seq<nat>, todo: seq<nat>, applied: seq<nat>, kept: seq<nat>): (r: Pass)
    ensures r.Passed? ==> |applied| <= |r.applied| && |r.kept| + |r.applied| == |kept| + |applied| + |todo|
    decreases |todo|
  {
    if |todo| == 0 then Passed(applied, kept)
    else
      var x := todo[0];
      if fires(applied, x) then
        if x !in cand then Reject
        else RunPass(fires, cand, todo[1..], applied + [x], kept)
      else RunPass(fires, cand, todo[1..], applied, kept + [x])
  }

  datatype Closure = Rejected | Closed(applied: seq<nat>)

  /** The `while ds` loop: passes until the list is empty or a pass applies nothing. */
  function Close(fires: Oracle, cand: seq<nat>, ds: seq<nat>, applied: seq<nat>): Closure
    decreases |ds|
  {
    if |ds| == 0 then Closed(applied)
    else
      match RunPass(fires, cand, ds, applied, [])
      case Reject => Rejected
      case Passed(ap, kept) =>
        if |kept| == |ds| then Closed(ap) else Close(fires, cand, kept, ap)
  }

  /** `a` is closed under the rules of `ds`: every one of them that fires at `a` is in `a`. */
  ghost predicate ClosedUnder(fires: Oracle, ds: seq<nat>, a: seq<nat>)
  {
    forall x :: x in ds && fires(a, x) ==> x in a
  }

  /** Applying more rules (positions below `n`) never stops a rule from firing. */
  ghost predicate Monotone(fires: Oracle, n: nat)
  {
    forall a, b, x :: fires(a, x) && Within(b, 0, n) && (forall y :: y in a ==> y in b) ==> fires(b, x)
  }

  /** A pass only appends to `applied` and `kept`, applies only rules of `todo` that are in the
      candidate, and leaves every rule of `todo` applied or kept. */
  lemma {:induction false} RunPassGrows(fires: Oracle, cand: seq<nat>, todo: seq<nat>, applied: seq<nat>, kept: seq<nat>)
    ensures var r := RunPass(fires, cand, todo, applied, kept);
      r.Passed? ==>
        applied <= r.applied && kept <= r.kept &&
        (forall x :: x in r.applied ==> x in applied || (x in todo && x in cand)) &&
        (forall x :: x in r.kept ==> x in kept || x in todo) &&
        (forall x :: x in todo ==> x in r.applied || x in r.kept)
    decreases |todo|
  {
    if |todo| > 0 {
      var x := todo[0];
      assert forall y :: y in todo ==> y == x || y in todo[1..];
      if fires(applied, x) {
        if x in cand {
          RunPassGrows(fires, cand, todo[1..], applied + [x], kept);
          assert x in applied + [x];
        }
      } else {
        RunPassGrows(fires, cand, todo[1..], applied, kept + [x]);
        assert x in kept + [x];
      }
    }
  }

  /** A pass that applies nothing found no rule of `todo` firing. */
  lemma {:induction false} RunPassIdle(fires: Oracle, cand: seq<nat>, todo: seq<nat>, applied: seq<nat>, kept: seq<nat>)
    ensures var r := RunPass(fires, cand, todo, applied, kept);
      r.Passed? && |r.applied| == |applied| ==>
        r.applied == applied && forall x :: x in todo ==> !fires(applied, x)
    decreases |todo|
  {
    if |todo| > 0 {
      var x := todo[0];
      assert forall y :: y in todo ==> y == x || y in todo[1..];
      if fires(applied, x) {
        if x in cand {
          RunPassGrows(fires, cand, todo[1..], applied + [x], kept);
        }
      } else {
        RunPassIdle(fires, cand, todo[1..], applied, kept + [x]);
      }
    }
  }

  /** Every rule a pass applies lies in every closed set that holds the rules applied before it;
      a rejection names such a rule outside the candidate. */
  lemma {:induction false} RunPassForced(fires: Oracle, n: nat, cand: seq<nat>, ds: seq<nat>, a: seq<nat>,
                                          todo: seq<nat>, applied: seq<nat>, kept: seq<nat>)
    requires Monotone(fires, n) && Within(a, 0, n) && ClosedUnder(fires, ds, a)
    requires (forall x :: x in todo ==> x in ds) && (forall x :: x in applied ==> x in a)
    ensures var r := RunPass(fires, cand, todo, applied, kept);
      (r.Passed? ==> forall x :: x in r.applied ==> x in a) &&
      (r.Reject? ==> exists x :: x in a && x !in cand)
    decreases |todo|
  {
    if |todo| > 0 {
      var x := todo[0];
      if fires(applied, x) {
        assert fires(a, x);
        assert x in a;
        if x in cand {
          RunPassForced(fires, n, cand, ds, a, todo[1..], applied + [x], kept);
        }
      } else {
        RunPassForced(fires, n, cand, ds, a, todo[1..], applied, kept + [x]);
      }
    }
  }

  /** The loop only appends to `applied`, and applies only rules of the list that are in the
      candidate. */
  lemma {:induction false} CloseGrows(fires: Oracle, cand: seq<nat>, ds: seq<nat>, applied: seq<nat>)
    ensures var r := Close(fires, cand, ds, applied);
      r.Closed? ==>
        applied <= r.applied && forall x :: x in r.applied ==> x in applied || (x in ds && x in cand)
    decreases |ds|
  {
    if |ds| > 0 {
      var p := RunPass(fires, cand, ds, applied, []);
      RunPassGrows(fires, cand, ds, applied, []);
      if p.Passed? && |p.kept| != |ds| {
        CloseGrows(fires, cand, p.kept, p.applied);
      }
    }
  }

  /** When the loop ends, no rule of the list left unapplied fires at the rules it applied. */
  lemma {:induction false} CloseSaturates(fires: Oracle, cand: seq<nat>, ds: seq<nat>, applied: seq<nat>)
    ensures var r := Close(fires, cand, ds, applied);
      r.Closed? ==> forall x :: x in ds && x !in r.applied ==> !fires(r.applied, x)
    decreases |ds|
  {
    if |ds| > 0 {
      var p := RunPass(fires, cand, ds, applied, []);
      RunPassGrows(fires, cand, ds, applied, []);
      RunPassIdle(fires, cand, ds, applied, []);
      if p.Passed? && |p.kept| != |ds| {
        var r := Close(fires, cand, p.kept, p.applied);
        CloseGrows(fires, cand, p.kept, p.applied);
        CloseSaturates(fires, cand, p.kept, p.applied);
        if r.Closed? {
          forall x | x in ds && x !in r.applied ensures !fires(r.applied, x) {
            assert x !in p.applied;
            assert x in p.kept;
          }
        }
      }
    }
  }

  /** Every rule the loop applies lies in every closed set holding the rules applied before; a
      rejection names such a rule outside the candidate. */
  lemma {:induction false} CloseForced(fires: Oracle, n: nat, cand: seq<nat>, ds0: seq<nat>, a: seq<nat>,
                                        ds: seq<nat>, applied: seq<nat>)
    requires Monotone(fires, n) && Within(a, 0, n) && ClosedUnder(fires, ds0, a)
    requires (forall x :: x in ds ==> x in ds0) && (forall x :: x in applied ==> x in a)
    ensures var r := Close(fires, cand, ds, applied);
      (r.Closed? ==> forall x :: x in r.applied ==> x in a) &&
      (r.Rejected? ==> exists x :: x in a && x !in cand)
    decreases |ds|
  {
    if |ds| > 0 {
      var p := RunPass(fires, cand, ds, applied, []);
      RunPassForced(fires, n, cand, ds0, a, ds, applied, []);
      RunPassGrows(fires, cand, ds, applied, []);
      if p.Passed? && |p.kept| != |ds| {
        CloseForced(fires, n, cand, ds0, a, p.kept, p.applied);
      }
    }
  }

  /** The loop run from no applied rule computes the least set closed under the rules of `ds`:
      when it ends, what it applied is closed, lies in the candidate and in every closed set; and
      it rejects only when the candidate is not closed. */
  lemma CloseLeast(fires: Oracle, n: nat, cand: seq<nat>, ds: seq<nat>)
    requires Monotone(fires, n) && Within(cand, 0, n)
    ensures var r := Close(fires, cand, ds, []);
      (r.Closed? ==>
        ClosedUnder(fires, ds, r.applied) &&
        (forall x :: x in r.applied ==> x in cand && x in ds) &&
        forall a :: Within(a, 0, n) && ClosedUnder(fires, ds, a) ==> forall x :: x in r.applied ==> x in a) &&
      (ClosedUnder(fires, ds, cand) ==> r.Closed?)
  {
    var r := Close(fires, cand, ds, []);
    CloseGrows(fires, cand, ds, []);
    CloseSaturates(fires, cand, ds, []);
    forall a | Within(a, 0, n) && ClosedUnder(fires, ds, a)
      ensures r.Closed? ==> forall x :: x in r.applied ==> x in a
    {
      CloseForced(fires, n, cand, ds, a, ds, []);
    }
    if ClosedUnder(fires, ds, cand) {
      CloseForced(fires, n, cand, ds, cand, ds, []);
    }
  }
}
