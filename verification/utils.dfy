/** Small list helpers (utils.py). Python lists become sequences. */
module Utils {

  /** `subseteq(l1, l2)`: every element of `l1` occurs in `l2`; multiplicity is ignored. */
  function Subseteq<T(==)>(l1: seq<T>, l2: seq<T>): (r: bool)
    ensures r <==> (forall i :: 0 <= i < |l1| ==> l1[i] in l2)
    ensures r <==> (forall x :: x in l1 ==> x in l2)
  {
    if |l1| == 0 then true
    else if l1[0] !in l2 then
      false
    else
      assert forall x :: x in l1 ==> x == l1[0] || x in l1[1..];
      Subseteq(l1[1..], l2)
  }

  /** `flat(list_of_list)`: concatenation of the inner lists, in order. */
  function Flat<T>(ll: seq<seq<T>>): seq<T>
  {
    if |ll| == 0 then [] else ll[0] + Flat(ll[1..])
  }

  lemma {:induction false} FlatAppend<T>(a: seq<seq<T>>, b: seq<seq<T>>)
    ensures Flat(a + b) == Flat(a) + Flat(b)
  {
    if |a| == 0 {
      assert a + b == b;
    } else {
      assert (a + b)[1..] == a[1..] + b;
      FlatAppend(a[1..], b);
    }
  }

  /** `Flat` of one and of two lists. */
  lemma FlatPair<T>(x: seq<T>, y: seq<T>)
    ensures Flat([x]) == x && Flat([x, y]) == x + y
  {
    assert [x][1..] == [];
    assert [x, y][1..] == [y];
    assert [y][1..] == [];
  }

  /** Every element of `Flat(ll)` comes from some inner list, and every inner element is kept. */
  lemma {:induction false} FlatMembership<T>(ll: seq<seq<T>>, x: T)
    ensures x in Flat(ll) <==> exists i :: 0 <= i < |ll| && x in ll[i]
  {
    if |ll| > 0 {
      FlatMembership(ll[1..], x);
      if x in Flat(ll[1..]) {
        var i :| 0 <= i < |ll[1..]| && x in ll[1..][i];
        assert x in ll[i + 1];
      }
      if exists i :: 0 <= i < |ll| && x in ll[i] {
        var i :| 0 <= i < |ll| && x in ll[i];
        if i > 0 {
          assert x in ll[1..][i - 1];
        }
      }
    }
  }

  predicate NoDuplicates<T(==)>(s: seq<T>)
  {
    forall i, j :: 0 <= i < j < |s| ==> s[i] != s[j]
  }

  /** The items of `xs` that satisfy `p`, in order. */
  function Filter<T(!new)>(p: T -> bool, xs: seq<T>): (r: seq<T>)
    ensures forall x :: x in r <==> x in xs && p(x)
  {
    if |xs| == 0 then []
    else
      var rest := Filter(p, xs[1..]);
      assert forall x :: x in xs ==> x == xs[0] || x in xs[1..];
      if p(xs[0]) then [xs[0]] + rest else rest
  }

  /** Filtering keeps every item that satisfies `p` as often as it occurs, and no other. */
  lemma {:induction false} FilterCount<T(!new)>(p: T -> bool, xs: seq<T>)
    ensures forall x :: multiset(Filter(p, xs))[x] == if p(x) then multiset(xs)[x] else 0
  {
    if |xs| > 0 {
      FilterCount(p, xs[1..]);
      assert xs == [xs[0]] + xs[1..];
    }
  }

  /** `a` can be read off `b` left to right, skipping items of `b`. */
  predicate Subsequence<T(==)>(a: seq<T>, b: seq<T>)
    decreases |b|
  {
    if |a| == 0 then true
    else if |b| == 0 then false
    else if a[0] == b[0] then Subsequence(a[1..], b[1..])
    else Subsequence(a, b[1..])
  }

  /** Filtering only skips items: its result reads off the input in order. */
  lemma {:induction false} FilterSubsequence<T(!new)>(p: T -> bool, xs: seq<T>)
    ensures Subsequence(Filter(p, xs), xs)
  {
    if |xs| > 0 {
      FilterSubsequence(p, xs[1..]);
      var rest := Filter(p, xs[1..]);
      if p(xs[0]) {
        assert ([xs[0]] + rest)[1..] == rest;
      } else if |rest| > 0 {
        assert rest[0] in rest;
      }
    }
  }

  /** Filtering keeps the items in their order: an order by `key` and the absence of duplicates
      survive it. */
  lemma {:induction false} FilterOrdered<T(!new)>(p: T -> bool, xs: seq<T>, key: T -> int)
    ensures (forall i, j :: 0 <= i < j < |xs| ==> key(xs[i]) <= key(xs[j])) ==>
      forall i, j :: 0 <= i < j < |Filter(p, xs)| ==> key(Filter(p, xs)[i]) <= key(Filter(p, xs)[j])
    ensures NoDuplicates(xs) ==> NoDuplicates(Filter(p, xs))
  {
    if |xs| > 0 {
      var rest := Filter(p, xs[1..]);
      FilterOrdered(p, xs[1..], key);
      if p(xs[0]) {
        var r := [xs[0]] + rest;
        assert Filter(p, xs) == r;
        if forall i, j :: 0 <= i < j < |xs| ==> key(xs[i]) <= key(xs[j]) {
          forall i, j | 0 <= i < j < |r| ensures key(r[i]) <= key(r[j]) {
            if i == 0 {
              assert r[j] in rest && r[j] in xs[1..];
              var k :| 0 <= k < |xs[1..]| && xs[1..][k] == r[j];
              assert xs[k + 1] == r[j];
            } else {
              assert r[i] == rest[i - 1] && r[j] == rest[j - 1];
            }
          }
        }
        if NoDuplicates(xs) {
          forall i, j | 0 <= i < j < |r| ensures r[i] != r[j] {
            if i == 0 {
              assert r[j] in xs[1..];
              var k :| 0 <= k < |xs[1..]| && xs[1..][k] == r[j];
              assert xs[k + 1] == r[j];
            } else {
              assert r[i] == rest[i - 1] && r[j] == rest[j - 1];
            }
          }
        }
      }
    }
  }

  /** The longest prefix of `xs` whose items all satisfy `p`: a loop over `xs` that breaks at the
      first item failing `p`. */
  function TakeWhile<T>(p: T -> bool, xs: seq<T>): (r: seq<T>)
    ensures r <= xs
    ensures forall k :: 0 <= k < |r| ==> p(r[k])
    ensures |r| < |xs| ==> !p(xs[|r|])
  {
    if |xs| == 0 || !p(xs[0]) then []
    else
      var rest := TakeWhile(p, xs[1..]);
      assert forall k :: 1 <= k <= |rest| ==> ([xs[0]] + rest)[k] == rest[k - 1];
      [xs[0]] + rest
  }

  /** `update(list1, list2)`: appends, in order, each item of `list2` not yet in the growing `list1`;
      returns the extended list and how many items it appended. */
  function Update<T(==)>(list1: seq<T>, list2: seq<T>): (r: (seq<T>, nat))
    ensures list1 <= r.0
    ensures r.1 == |r.0| - |list1|
    ensures forall x :: x in list2 ==> x in r.0
    ensures forall x :: x in r.0 ==> x in list1 || x in list2
    ensures forall i :: |list1| <= i < |r.0| ==> r.0[i] !in list1
    ensures NoDuplicates(list1) ==> NoDuplicates(r.0)
    decreases |list2|
  {
    if |list2| == 0 then (list1, 0)
    else
      var next := if list2[0] in list1 then list1 else list1 + [list2[0]];
      var rest := Update(next, list2[1..]);
      assert list2[0] in next;
      assert forall x :: x in list2 ==> x == list2[0] || x in list2[1..];
      (rest.0, rest.1 + |next| - |list1|)
  }

  /** The position of the first occurrence of `x` in `xs`. */
  function FirstIndex<T(==)>(xs: seq<T>, x: T): (r: nat)
    requires x in xs
    ensures r < |xs| && xs[r] == x && forall k :: 0 <= k < r ==> xs[k] != x
  {
    if xs[0] == x then 0 else 1 + FirstIndex(xs[1..], x)
  }

  /** `r` lists the items of `xs` once each, in the order of their first occurrence in `xs`. */
  ghost predicate FirstOccurrences<T>(r: seq<T>, xs: seq<T>)
  {
    NoDuplicates(r) && (forall i :: 0 <= i < |r| ==> r[i] in xs) && (forall i :: 0 <= i < |xs| ==> xs[i] in r) &&
    forall i, j :: 0 <= i < j < |r| ==> FirstIndex(xs, r[i]) < FirstIndex(xs, r[j])
  }

  /** Appending to a list moves no first occurrence. */
  lemma FirstIndexAppend<T>(xs: seq<T>, ys: seq<T>, x: T)
    requires x in xs
    ensures FirstIndex(xs + ys, x) == FirstIndex(xs, x)
  {
    var a, b := FirstIndex(xs + ys, x), FirstIndex(xs, x);
    assert (xs + ys)[b] == x;
    assert xs[a] == (xs + ys)[a] by { assert a <= b; }
  }

  /** One step of `update`: a new item joins the list at its end. */
  lemma FirstOccurrencesStep<T>(list1: seq<T>, seen: seq<T>, y: T)
    requires FirstOccurrences(list1, seen)
    ensures FirstOccurrences(if y in list1 then list1 else list1 + [y], seen + [y])
  {
    var seen2 := seen + [y];
    var next := if y in list1 then list1 else list1 + [y];
    forall x | x in seen ensures FirstIndex(seen2, x) == FirstIndex(seen, x) {
      FirstIndexAppend(seen, [y], x);
    }
    if y !in seen {
      assert FirstIndex(seen2, y) == |seen|;
    }
    forall i | 0 <= i < |seen2| ensures seen2[i] in next {
      if i < |seen| {
        assert seen2[i] == seen[i];
      }
    }
    forall i, j | 0 <= i < j < |next| ensures FirstIndex(seen2, next[i]) < FirstIndex(seen2, next[j]) {
      if j == |list1| {
        assert next[i] == list1[i] && next[i] in seen;
      } else {
        assert next[i] == list1[i] && next[j] == list1[j];
      }
    }
  }

  lemma AppendHead<T>(xs: seq<T>, ys: seq<T>)
    requires |ys| > 0
    ensures xs + [ys[0]] + ys[1..] == xs + ys
  {
    assert ys == [ys[0]] + ys[1..];
  }

  /** Growing a list of first occurrences with `update` keeps it the list of first occurrences of
      everything seen: `update` never reorders and never repeats. */
  lemma {:induction false} UpdateFirstOccurrences<T>(list1: seq<T>, seen: seq<T>, list2: seq<T>)
    requires FirstOccurrences(list1, seen)
    ensures FirstOccurrences(Update(list1, list2).0, seen + list2)
    decreases |list2|
  {
    if |list2| == 0 {
      assert seen + list2 == seen;
    } else {
      var y := list2[0];
      FirstOccurrencesStep(list1, seen, y);
      var next := if y in list1 then list1 else list1 + [y];
      assert Update(list1, list2).0 == Update(next, list2[1..]).0;
      AppendHead(seen, list2);
      UpdateFirstOccurrences(next, seen + [y], list2[1..]);
    }
  }

  /** The five characters `html_escape` rewrites, with their entities. */
  function Entity(c: char): string
  {
    match c
    case '&' => "&amp;"
    case '"' => "&quot;"
    case '\'' => "&apos;"
    case '>' => "&gt;"
    case '<' => "&lt;"
    case _ => [c]
  }

  predicate Escaped(c: char)
  {
    c == '&' || c == '"' || c == '\'' || c == '>' || c == '<'
  }

  /** `html_escape(text)`: each character is replaced by its entity; all others are kept. */
  function HtmlEscape(text: string): (r: string)
    ensures forall i :: 0 <= i < |r| ==> !(r[i] in "\"'<>")
    ensures (forall i :: 0 <= i < |text| ==> !Escaped(text[i])) ==> r == text
    ensures |r| >= |text|
  {
    if |text| == 0 then ""
    else Entity(text[0]) + HtmlEscape(text[1..])
  }

  /** Reference decoder for the five entities, used as the inverse of `HtmlEscape`. */
  function HtmlUnescape(s: string): string
  {
    if |s| == 0 then ""
    else if "&amp;" <= s then "&" + HtmlUnescape(s[5..])
    else if "&quot;" <= s then "\"" + HtmlUnescape(s[6..])
    else if "&apos;" <= s then "'" + HtmlUnescape(s[6..])
    else if "&gt;" <= s then ">" + HtmlUnescape(s[4..])
    else if "&lt;" <= s then "<" + HtmlUnescape(s[4..])
    else [s[0]] + HtmlUnescape(s[1..])
  }

  lemma UnescapeEntity(c: char, rest: string)
    ensures HtmlUnescape(Entity(c) + rest) == [c] + HtmlUnescape(rest)
  {
    var s := Entity(c) + rest;
    assert |Entity(c)| >= 1 && s[0] == Entity(c)[0];
    if |Entity(c)| > 1 {
      assert s[1] == Entity(c)[1];
    }
    if c == '&' {
      assert "&amp;" <= s && s[5..] == rest;
    } else if c == '"' {
      assert "&quot;" <= s && s[6..] == rest;
    } else if c == '\'' {
      assert "&apos;" <= s && s[6..] == rest;
    } else if c == '>' {
      assert "&gt;" <= s && s[4..] == rest;
    } else if c == '<' {
      assert "&lt;" <= s && s[4..] == rest;
    } else {
      assert s[0] == c && s[1..] == rest;
    }
  }

  /** Escaping loses nothing: decoding the escaped text gives the text back. */
  lemma {:induction false} HtmlEscapeRoundTrip(text: string)
    ensures HtmlUnescape(HtmlEscape(text)) == text
  {
    if |text| > 0 {
      UnescapeEntity(text[0], HtmlEscape(text[1..]));
      HtmlEscapeRoundTrip(text[1..]);
      assert [text[0]] + text[1..] == text;
    }
  }
}
