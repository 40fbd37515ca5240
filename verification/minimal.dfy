/** The outer search of `SPDLogicSkeleton.all_extensions` (spdl.py:71-94). Candidate lists of
    inconsistent atoms are tried by size, in `combinations` order over `atoms`. A candidate that
    contains a list that already yielded is skipped. Each remaining candidate yields what the inner
    loop lets through, written `qual(incs)` here. The search stops as soon as the empty candidate
    yields. The module is generic in `qual`, so the search is proved once: it yields exactly the
    output of the candidates that are minimal among those that yield anything. */
module MinimalSets {
  import opened Utils
  import opened Subsets

  /** A yielded item together with the candidate it was found for. */
  datatype Found<T> = Found(incs: seq<string>, item: T)

  /** `for min_incs in min_incs_set: if subseteq(min_incs, incs): break`. */
  predicate Pruned(minIncs: seq<seq<string>>, incs: seq<string>)
  {
    exists i :: 0 <= i < |minIncs| && Subseteq(minIncs[i], incs)
  }

  /** The items one candidate yields, each tagged with the candidate. */
  function Tag<T>(incs: seq<string>, ys: seq<T>): (r: seq<Found<T>>)
    ensures |r| == |ys| && forall k :: 0 <= k < |ys| ==> r[k] == Found(incs, ys[k])
  {
    seq(|ys|, k requires 0 <= k < |ys| => Found(incs, ys[k]))
  }

  /** The loop from candidate `i` on, with `minIncs` the candidates that yielded so far. */
  function Search<T>(atoms: seq<string>, qual: seq<string> -> seq<T>, cands: seq<seq<nat>>, i: nat,
                     minIncs: seq<seq<string>>): seq<Found<T>>
    requires forall k :: 0 <= k < |cands| ==> Within(cands[k], 0, |atoms|)
    decreases |cands| - i
  {
    if i >= |cands| then []
    else
      var incs := Pick(atoms, cands[i]);
      if Pruned(minIncs, incs) then Search(atoms, qual, cands, i + 1, minIncs)
      else
        var ys := qual(incs);
        if |ys| == 0 then Search(atoms, qual, cands, i + 1, minIncs)
        else if |cands[i]| == 0 then Tag(incs, ys)
        else Tag(incs, ys) + Search(atoms, qual, cands, i + 1, minIncs + [incs])
  }

  /** `for inc_count in range(len(atoms) + 1): for incs in combinations(atoms, inc_count)`, as
      positions into `atoms`. */
  function Cands(n: nat): (r: seq<seq<nat>>)
    ensures forall k :: 0 <= k < |r| ==> Within(r[k], 0, n)
  {
    BySizeWithin(n);
    BySize(n)
  }

  /** The whole search over every subset of `atoms`. */
  function Run<T>(atoms: seq<string>, qual: seq<string> -> seq<T>): seq<Found<T>>
  {
    Search(atoms, qual, Cands(|atoms|), 0, [])
  }

  ghost predicate Candidate(n: nat, c: seq<nat>)
  {
    Increasing(c) && Within(c, 0, n)
  }

  /** The candidate at positions `c` yields something. */
  ghost predicate Succeeds<T>(atoms: seq<string>, qual: seq<string> -> seq<T>, c: seq<nat>)
  {
    Within(c, 0, |atoms|) && |qual(Pick(atoms, c))| > 0
  }

  /** The candidate yields something and no candidate with strictly fewer of its atoms does. */
  ghost predicate Minimal<T>(atoms: seq<string>, qual: seq<string> -> seq<T>, c: seq<nat>)
  {
    Candidate(|atoms|, c) && Succeeds(atoms, qual, c) &&
    forall d :: Candidate(|atoms|, d) && Elems(d) < Elems(c) ==> !Succeeds(atoms, qual, d)
  }

  /** The reference: every minimal candidate from `i` on, in order, with everything it yields. */
  ghost function Reference<T>(atoms: seq<string>, qual: seq<string> -> seq<T>, cands: seq<seq<nat>>, i: nat): seq<Found<T>>
    requires forall k :: 0 <= k < |cands| ==> Within(cands[k], 0, |atoms|)
    decreases |cands| - i
  {
    if i >= |cands| then []
    else
      var incs := Pick(atoms, cands[i]);
      (if Minimal(atoms, qual, cands[i]) then Tag(incs, qual(incs)) else []) + Reference(atoms, qual, cands, i + 1)
  }

  /** An increasing sequence holds as many positions as it is long. */
  lemma {:induction false} ElemsCard(c: seq<nat>)
    requires Increasing(c)
    ensures |Elems(c)| == |c|
  {
    if |c| > 0 {
      var p := c[..|c| - 1];
      ElemsCard(p);
      assert Elems(c) == Elems(p) + {c[|c| - 1]};
      assert c[|c| - 1] !in Elems(p);
    }
  }

  /** An increasing sequence is determined by its positions. */
  lemma {:induction false} IncreasingUnique(c: seq<nat>, d: seq<nat>)
    requires Increasing(c) && Increasing(d) && Elems(c) == Elems(d)
    ensures c == d
  {
    ElemsCard(c);
    ElemsCard(d);
    if |c| > 0 {
      assert c[0] in Elems(d) && d[0] in Elems(c);
      assert c[0] == d[0];
      assert Elems(c[1..]) == Elems(c) - {c[0]};
      assert Elems(d[1..]) == Elems(d) - {d[0]};
      IncreasingUnique(c[1..], d[1..]);
      assert c == [c[0]] + c[1..] && d == [d[0]] + d[1..];
    }
  }

  lemma {:induction false} SubsetCard(a: set<nat>, b: set<nat>)
    requires a <= b
    ensures |a| <= |b|
    decreases b
  {
    if a != {} {
      var y :| y in a;
      SubsetCard(a - {y}, b - {y});
    }
  }

  /** A strictly smaller set of positions is a shorter increasing sequence. */
  lemma ProperShorter(d: seq<nat>, c: seq<nat>)
    requires Increasing(c) && Increasing(d) && Elems(d) < Elems(c)
    ensures |d| < |c|
  {
    ElemsCard(c);
    ElemsCard(d);
    var x :| x in Elems(c) && x !in Elems(d);
    SubsetCard(Elems(d), Elems(c) - {x});
  }

  /** On an atom list without repeats, the pruning test compares the chosen positions. */
  lemma PickSubset(atoms: seq<string>, d: seq<nat>, c: seq<nat>)
    requires NoDuplicates(atoms) && Within(d, 0, |atoms|) && Within(c, 0, |atoms|)
    ensures Subseteq(Pick(atoms, d), Pick(atoms, c)) <==> Elems(d) <= Elems(c)
  {
    var pd, pc := Pick(atoms, d), Pick(atoms, c);
    if Subseteq(pd, pc) {
      forall y | y in Elems(d) ensures y in Elems(c) {
        var k :| 0 <= k < |d| && d[k] == y;
        assert pd[k] in pc;
        var l :| 0 <= l < |c| && pc[l] == pd[k];
        assert atoms[c[l]] == atoms[y];
      }
    }
    if Elems(d) <= Elems(c) {
      forall k | 0 <= k < |pd| ensures pd[k] in pc {
        assert d[k] in Elems(c);
        var l :| 0 <= l < |c| && c[l] == d[k];
        assert pc[l] == pd[k];
      }
    }
  }

  /** Below every candidate that yields lies a minimal one. */
  lemma {:induction false} MinimalBelow<T>(atoms: seq<string>, qual: seq<string> -> seq<T>, d: seq<nat>)
      returns (m: seq<nat>)
    requires Candidate(|atoms|, d) && Succeeds(atoms, qual, d)
    ensures Minimal(atoms, qual, m) && Elems(m) <= Elems(d)
    decreases |d|
  {
    if Minimal(atoms, qual, d) {
      m := d;
    } else {
      var e :| Candidate(|atoms|, e) && Elems(e) < Elems(d) && Succeeds(atoms, qual, e);
      ProperShorter(e, d);
      m := MinimalBelow(atoms, qual, e);
    }
  }

  /** In the enumeration, a shorter candidate comes earlier. */
  lemma ShorterEarlier(n: nat, i: nat, d: seq<nat>) returns (j: nat)
    requires i < |Cands(n)| && Candidate(n, d) && |d| < |Cands(n)[i]|
    ensures j < i && Cands(n)[j] == d
  {
    BySizeMembership(n, d);
    BySizeOrdered(n);
    var k :| 0 <= k < |Cands(n)| && Cands(n)[k] == d;
    j := k;
  }

  /** What `minIncs` holds after the candidates before `i`: the minimal ones among them. */
  ghost predicate Recorded<T>(atoms: seq<string>, qual: seq<string> -> seq<T>, i: nat, minIncs: seq<seq<string>>)
    requires i <= |Cands(|atoms|)|
  {
    var cs := Cands(|atoms|);
    forall m :: m in minIncs <==> exists j :: 0 <= j < i && Minimal(atoms, qual, cs[j]) && m == Pick(atoms, cs[j])
  }

  /** A candidate is tried and yields exactly when it is minimal. */
  lemma Key<T>(atoms: seq<string>, qual: seq<string> -> seq<T>, i: nat, minIncs: seq<seq<string>>)
    requires NoDuplicates(atoms) && i < |Cands(|atoms|)| && Recorded(atoms, qual, i, minIncs)
    ensures var cs := Cands(|atoms|);
      (!Pruned(minIncs, Pick(atoms, cs[i])) && |qual(Pick(atoms, cs[i]))| > 0) <==> Minimal(atoms, qual, cs[i])
  {
    var n := |atoms|;
    var cs := Cands(n);
    BySizeOrdered(n);
    var c := cs[i];
    BySizeMembership(n, c);
    var incs := Pick(atoms, c);
    forall d | Candidate(n, d) && Elems(d) < Elems(c) && Succeeds(atoms, qual, d)
      ensures Pruned(minIncs, incs)
    {
      var m := MinimalBelow(atoms, qual, d);
      ProperShorter(m, c);
      var j := ShorterEarlier(n, i, m);
      PickSubset(atoms, m, c);
      assert Pick(atoms, m) in minIncs;
      var k :| 0 <= k < |minIncs| && minIncs[k] == Pick(atoms, m);
    }
    if Pruned(minIncs, incs) {
      var k :| 0 <= k < |minIncs| && Subseteq(minIncs[k], incs);
      assert minIncs[k] in minIncs;
      var j :| 0 <= j < i && Minimal(atoms, qual, cs[j]) && minIncs[k] == Pick(atoms, cs[j]);
      PickSubset(atoms, cs[j], c);
      if Elems(cs[j]) == Elems(c) {
        IncreasingUnique(cs[j], c);
        assert false;
      }
      assert Elems(cs[j]) < Elems(c);
    }
  }

  /** Once the empty candidate yields, no later candidate is minimal. */
  lemma {:induction false} NothingAfterEmpty<T>(atoms: seq<string>, qual: seq<string> -> seq<T>, i: nat, j: nat)
    requires i < j && j <= |Cands(|atoms|)| && Cands(|atoms|)[i] == [] && |qual(Pick(atoms, []))| > 0
    ensures Reference(atoms, qual, Cands(|atoms|), j) == []
    decreases |Cands(|atoms|)| - j
  {
    var cs := Cands(|atoms|);
    BySizeOrdered(|atoms|);
    if j < |cs| {
      NothingAfterEmpty(atoms, qual, i, j + 1);
      assert cs[j] != [];
      assert cs[j][0] in Elems(cs[j]);
      assert Candidate(|atoms|, []) && Succeeds(atoms, qual, []);
      assert !Minimal(atoms, qual, cs[j]);
    }
  }

  /** The loop from candidate `i` on computes the reference. */
  lemma {:induction false} SearchReference<T>(atoms: seq<string>, qual: seq<string> -> seq<T>, i: nat, minIncs: seq<seq<string>>)
    requires NoDuplicates(atoms) && i <= |Cands(|atoms|)| && Recorded(atoms, qual, i, minIncs)
    ensures Search(atoms, qual, Cands(|atoms|), i, minIncs) == Reference(atoms, qual, Cands(|atoms|), i)
    decreases |Cands(|atoms|)| - i
  {
    var cs := Cands(|atoms|);
    if i < |cs| {
      var c := cs[i];
      var incs := Pick(atoms, c);
      Key(atoms, qual, i, minIncs);
      if Minimal(atoms, qual, c) {
        if |c| == 0 {
          NothingAfterEmpty(atoms, qual, i, i + 1);
        } else {
          assert Recorded(atoms, qual, i + 1, minIncs + [incs]);
          SearchReference(atoms, qual, i + 1, minIncs + [incs]);
        }
      } else {
        assert Recorded(atoms, qual, i + 1, minIncs);
        SearchReference(atoms, qual, i + 1, minIncs);
      }
    }
  }

  /** The search yields exactly what the minimal candidates yield, candidate by candidate in
      enumeration order: pruning and the early stop lose nothing and let nothing else through. */
  lemma RunReference<T>(atoms: seq<string>, qual: seq<string> -> seq<T>)
    requires NoDuplicates(atoms)
    ensures Run(atoms, qual) == Reference(atoms, qual, Cands(|atoms|), 0)
  {
    SearchReference(atoms, qual, 0, []);
  }

  /** The items of a search result, in order. */
  function Items<T>(xs: seq<Found<T>>): (r: seq<T>)
    ensures |r| == |xs| && forall k :: 0 <= k < |xs| ==> r[k] == xs[k].item
  {
    seq(|xs|, k requires 0 <= k < |xs| => xs[k].item)
  }

  /** `x` is an item the minimal candidate at position `k` of the enumeration yields. */
  ghost predicate Listed<T>(atoms: seq<string>, qual: seq<string> -> seq<T>, k: nat, x: Found<T>)
  {
    var cs := Cands(|atoms|);
    k < |cs| && Minimal(atoms, qual, cs[k]) && x.incs == Pick(atoms, cs[k]) && x.item in qual(x.incs)
  }

  /** One step of the reference: the items of candidate `i` (when it is minimal), then the rest. */
  lemma ReferenceStep<T>(atoms: seq<string>, qual: seq<string> -> seq<T>, i: nat) returns (h: nat)
    requires i < |Cands(|atoms|)|
    ensures var r := Reference(atoms, qual, Cands(|atoms|), i);
      var rest := Reference(atoms, qual, Cands(|atoms|), i + 1);
      h + |rest| == |r| &&
      (forall p :: h <= p < |r| ==> r[p] == rest[p - h]) &&
      (forall p :: 0 <= p < h ==> r[p].incs == Pick(atoms, Cands(|atoms|)[i]) && Listed(atoms, qual, i, r[p]))
  {
    var cs := Cands(|atoms|);
    var incs := Pick(atoms, cs[i]);
    var head := if Minimal(atoms, qual, cs[i]) then Tag(incs, qual(incs)) else [];
    var r := Reference(atoms, qual, cs, i);
    assert r == head + Reference(atoms, qual, cs, i + 1);
    h := |head|;
    forall p | 0 <= p < h ensures r[p].incs == incs && Listed(atoms, qual, i, r[p]) {
      assert r[p] == Found(incs, qual(incs)[p]);
    }
  }

  /** `x` is an item some minimal candidate at position `i` or later yields. */
  ghost predicate ListedFrom<T>(atoms: seq<string>, qual: seq<string> -> seq<T>, i: nat, x: Found<T>)
  {
    exists k :: i <= k && Listed(atoms, qual, k, x)
  }

  /** Everything the reference lists from `i` on comes from a minimal candidate at or after `i`. */
  lemma {:induction false} ReferenceSound<T>(atoms: seq<string>, qual: seq<string> -> seq<T>, i: nat)
    ensures var r := Reference(atoms, qual, Cands(|atoms|), i);
      forall p :: 0 <= p < |r| ==> ListedFrom(atoms, qual, i, r[p])
    decreases |Cands(|atoms|)| - i
  {
    var cs := Cands(|atoms|);
    if i < |cs| {
      ReferenceSound(atoms, qual, i + 1);
      var h := ReferenceStep(atoms, qual, i);
      var r := Reference(atoms, qual, cs, i);
      var rest := Reference(atoms, qual, cs, i + 1);
      forall p | 0 <= p < |r| ensures ListedFrom(atoms, qual, i, r[p]) {
        if p < h {
          assert Listed(atoms, qual, i, r[p]);
        } else {
          var x := rest[p - h];
          assert r[p] == x;
          assert ListedFrom(atoms, qual, i + 1, x);
          var k :| i + 1 <= k && Listed(atoms, qual, k, x);
        }
      }
    } else {
      assert Reference(atoms, qual, cs, i) == [];
    }
  }

  /** Everything a minimal candidate at or after `i` yields is listed by the reference from `i`. */
  lemma {:induction false} ReferenceComplete<T>(atoms: seq<string>, qual: seq<string> -> seq<T>, i: nat, k: nat, y: T)
    requires i <= k < |Cands(|atoms|)| && Minimal(atoms, qual, Cands(|atoms|)[k])
    requires y in qual(Pick(atoms, Cands(|atoms|)[k]))
    ensures Found(Pick(atoms, Cands(|atoms|)[k]), y) in Reference(atoms, qual, Cands(|atoms|), i)
    decreases k - i
  {
    var cs := Cands(|atoms|);
    var incs := Pick(atoms, cs[i]);
    var head := if Minimal(atoms, qual, cs[i]) then Tag(incs, qual(incs)) else [];
    var rest := Reference(atoms, qual, cs, i + 1);
    assert Reference(atoms, qual, cs, i) == head + rest;
    if i == k {
      var p :| 0 <= p < |qual(incs)| && qual(incs)[p] == y;
      assert head[p] == Found(incs, y);
    } else {
      ReferenceComplete(atoms, qual, i + 1, k, y);
    }
  }

  /** The reference lists the candidates' results by nondecreasing candidate size, none smaller
      than the candidate it starts from. */
  lemma {:induction false} ReferenceOrdered<T>(atoms: seq<string>, qual: seq<string> -> seq<T>, i: nat)
    ensures var r := Reference(atoms, qual, Cands(|atoms|), i);
      (forall p, q :: 0 <= p < q < |r| ==> |r[p].incs| <= |r[q].incs|) &&
      (i < |Cands(|atoms|)| ==> forall p :: 0 <= p < |r| ==> |Cands(|atoms|)[i]| <= |r[p].incs|)
    decreases |Cands(|atoms|)| - i
  {
    var cs := Cands(|atoms|);
    if i < |cs| {
      ReferenceOrdered(atoms, qual, i + 1);
      BySizeOrdered(|atoms|);
      var h := ReferenceStep(atoms, qual, i);
      var r := Reference(atoms, qual, cs, i);
      var rest := Reference(atoms, qual, cs, i + 1);
      assert i + 1 < |cs| ==> |cs[i]| <= |cs[i + 1]|;
      forall p | 0 <= p < |r| ensures |cs[i]| <= |r[p].incs| {
        if p >= h {
          assert r[p] == rest[p - h];
        }
      }
      forall p, q | 0 <= p < q < |r| ensures |r[p].incs| <= |r[q].incs| {
        if p >= h {
          assert r[p] == rest[p - h] && r[q] == rest[q - h];
        } else if q < h {
          assert r[p].incs == r[q].incs;
        }
      }
    }
  }

  /** The search yields an item for a candidate list exactly when that list is a minimal candidate
      and the item is among what it yields. */
  lemma RunMeaning<T>(atoms: seq<string>, qual: seq<string> -> seq<T>, incs: seq<string>, y: T)
    requires NoDuplicates(atoms)
    ensures Found(incs, y) in Run(atoms, qual) <==>
      exists c :: Minimal(atoms, qual, c) && incs == Pick(atoms, c) && y in qual(incs)
  {
    RunReference(atoms, qual);
    var cs := Cands(|atoms|);
    var r := Reference(atoms, qual, cs, 0);
    if Found(incs, y) in r {
      ReferenceSound(atoms, qual, 0);
      var p :| 0 <= p < |r| && r[p] == Found(incs, y);
      assert ListedFrom(atoms, qual, 0, r[p]);
      var k :| 0 <= k && Listed(atoms, qual, k, r[p]);
      assert Minimal(atoms, qual, cs[k]) && incs == Pick(atoms, cs[k]) && y in qual(incs);
    }
    if exists c :: Minimal(atoms, qual, c) && incs == Pick(atoms, c) && y in qual(incs) {
      var c :| Minimal(atoms, qual, c) && incs == Pick(atoms, c) && y in qual(incs);
      BySizeMembership(|atoms|, c);
      var k :| 0 <= k < |cs| && cs[k] == c;
      ReferenceComplete(atoms, qual, 0, k, y);
    }
  }

  /** The search yields the results of smaller candidate lists first. */
  lemma RunOrdered<T>(atoms: seq<string>, qual: seq<string> -> seq<T>)
    requires NoDuplicates(atoms)
    ensures var r := Run(atoms, qual);
      forall p, q :: 0 <= p < q < |r| ==> |r[p].incs| <= |r[q].incs|
  {
    RunReference(atoms, qual);
    ReferenceOrdered(atoms, qual, 0);
  }

  /** When the empty list of inconsistent atoms yields, the search yields just that and tries
      nothing else. */
  lemma RunStopsAtEmpty<T>(atoms: seq<string>, qual: seq<string> -> seq<T>)
    requires |qual([])| > 0
    ensures Run(atoms, qual) == Tag([], qual([]))
  {
    var cs := Cands(|atoms|);
    BySizeStartsEmpty(|atoms|);
    assert Pick(atoms, cs[0]) == [];
    if |cs| > 1 {
      NothingAfterEmpty(atoms, qual, 0, 1);
    }
  }
}
