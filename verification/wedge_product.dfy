/** `itertools.product` over a list of candidate lists: every way of picking
    one value from each list, in lexicographic order with the last list
    varying fastest. */
module WedgeProduct {

  /** The number of combinations: the product of the list lengths. */
  function Combinations<T>(lists: seq<seq<T>>): nat
    decreases |lists|
  {
    if |lists| == 0 then 1 else |lists[0]| * Combinations(lists[1..])
  }

  /** `t` picks, for each list, one of that list's values. */
  predicate Fits<T(==)>(t: seq<T>, lists: seq<seq<T>>) {
    |t| == |lists| && forall k :: 0 <= k < |t| ==> t[k] in lists[k]
  }

  /** Every tail with `a` put in front. */
  function Prefixed<T(==)>(a: T, tails: seq<seq<T>>): (r: seq<seq<T>>)
    ensures |r| == |tails|
    ensures forall i :: 0 <= i < |tails| ==> r[i] == [a] + tails[i]
  {
    seq(|tails|, i requires 0 <= i < |tails| => [a] + tails[i])
  }

  /** Every head in front of every tail, heads outermost. */
  function Extend<T(==)>(heads: seq<T>, tails: seq<seq<T>>): (r: seq<seq<T>>)
    ensures |r| == |heads| * |tails|
    decreases |heads|
  {
    if |heads| == 0 then []
    else
      var r := Prefixed(heads[0], tails) + Extend(heads[1..], tails);
      assert |heads| * |tails| == |tails| + (|heads| - 1) * |tails|;
      r
  }

  /** Each combination of `Extend` is a head in front of a tail. */
  lemma {:induction false} ExtendAt<T>(heads: seq<T>, tails: seq<seq<T>>, i: nat)
    requires i < |Extend(heads, tails)|
    ensures |Extend(heads, tails)[i]| >= 1
    ensures Extend(heads, tails)[i][0] in heads && Extend(heads, tails)[i][1..] in tails
    decreases |heads|
  {
    var p := Prefixed(heads[0], tails);
    var e := Extend(heads[1..], tails);
    assert Extend(heads, tails) == p + e;
    if i < |p| {
      assert p[i][1..] == tails[i];
    } else {
      ExtendAt(heads[1..], tails, i - |p|);
      assert Extend(heads, tails)[i] == e[i - |p|];
    }
  }

  /** `list(itertools.product(*lists))`. */
  function Product<T(==)>(lists: seq<seq<T>>): (r: seq<seq<T>>)
    ensures |r| == Combinations(lists)
    ensures forall i :: 0 <= i < |r| ==> Fits(r[i], lists)
    decreases |lists|
  {
    if |lists| == 0 then [[]]
    else
      var tails := Product(lists[1..]);
      var r := Extend(lists[0], tails);
      assert forall i :: 0 <= i < |r| ==> Fits(r[i], lists) by {
        forall i | 0 <= i < |r| ensures Fits(r[i], lists) {
          ExtendAt(lists[0], tails, i);
          var t := r[i];
          var j :| 0 <= j < |tails| && tails[j] == t[1..];
          assert Fits(tails[j], lists[1..]);
          forall k | 0 <= k < |t| ensures t[k] in lists[k] {
            if k > 0 {
              assert t[k] == t[1..][k - 1];
            }
          }
        }
      }
      r
  }

  /** Position `a * |tails| + b` holds head `a` in front of tail `b`. */
  lemma {:induction false} ExtendIndex<T>(heads: seq<T>, tails: seq<seq<T>>, a: nat, b: nat)
    requires a < |heads| && b < |tails|
    ensures a * |tails| + b < |Extend(heads, tails)|
    ensures Extend(heads, tails)[a * |tails| + b] == [heads[a]] + tails[b]
    decreases |heads|
  {
    var p := Prefixed(heads[0], tails);
    var e := Extend(heads[1..], tails);
    assert Extend(heads, tails) == p + e;
    if a > 0 {
      ExtendIndex(heads[1..], tails, a - 1, b);
      assert (a - 1) * |tails| + b + |tails| == a * |tails| + b;
    }
  }

  /** The order of `itertools.product`: the first list's value changes slowest;
      within one first value the remaining lists follow in their own order. */
  lemma ProductOrder<T>(lists: seq<seq<T>>, a: nat, b: nat)
    requires |lists| >= 1 && a < |lists[0]| && b < Combinations(lists[1..])
    ensures a * Combinations(lists[1..]) + b < |Product(lists)|
    ensures Product(lists)[a * Combinations(lists[1..]) + b] == [lists[0][a]] + Product(lists[1..])[b]
  {
    ExtendIndex(lists[0], Product(lists[1..]), a, b);
  }

  /** Every combination appears. */
  lemma {:induction false} ProductComplete<T>(lists: seq<seq<T>>, t: seq<T>)
    requires Fits(t, lists)
    ensures t in Product(lists)
    decreases |lists|
  {
    if |lists| > 0 {
      FitsTail(t, lists);
      ProductComplete(lists[1..], t[1..]);
      InExtend(lists[0], Product(lists[1..]), t);
    }
  }

  lemma FitsTail<T>(t: seq<T>, lists: seq<seq<T>>)
    requires |lists| > 0 && Fits(t, lists)
    ensures Fits(t[1..], lists[1..])
  {
    var rest := t[1..];
    forall k | 0 <= k < |rest| ensures rest[k] in lists[1..][k] {
      assert rest[k] == t[k + 1];
    }
  }

  /** A head in front of a tail is one of the combinations `Extend` makes. */
  lemma InExtend<T>(heads: seq<T>, tails: seq<seq<T>>, t: seq<T>)
    requires |t| > 0 && t[0] in heads && t[1..] in tails
    ensures t in Extend(heads, tails)
  {
    var b :| 0 <= b < |tails| && tails[b] == t[1..];
    var a :| 0 <= a < |heads| && heads[a] == t[0];
    ExtendIndex(heads, tails, a, b);
    assert t == [t[0]] + t[1..];
  }

  predicate Distinct<T(==)>(s: seq<T>) {
    forall i, j :: 0 <= i < j < |s| ==> s[i] != s[j]
  }

  lemma {:induction false} ExtendDistinct<T>(heads: seq<T>, tails: seq<seq<T>>)
    requires Distinct(heads) && Distinct(tails)
    ensures Distinct(Extend(heads, tails))
    decreases |heads|
  {
    if |heads| > 0 {
      var p := Prefixed(heads[0], tails);
      var e := Extend(heads[1..], tails);
      ExtendDistinct(heads[1..], tails);
      assert Distinct(heads[1..]) by {
        forall i, j | 0 <= i < j < |heads| - 1 ensures heads[1..][i] != heads[1..][j] {
          assert heads[1..][i] == heads[i + 1] && heads[1..][j] == heads[j + 1];
        }
      }
      forall i, j | 0 <= i < j < |p| ensures p[i] != p[j] {
        assert p[i][1..] == tails[i] && p[j][1..] == tails[j];
      }
      forall i, j | 0 <= i < |p| && 0 <= j < |e| ensures p[i] != e[j] {
        ExtendAt(heads[1..], tails, j);
        assert p[i][0] == heads[0];
      }
      var r := p + e;
      forall i, j | 0 <= i < j < |r| ensures r[i] != r[j] {
        if j < |p| {
        } else if i < |p| {
          assert r[i] == p[i] && r[j] == e[j - |p|];
        } else {
          assert r[i] == e[i - |p|] && r[j] == e[j - |p|];
        }
      }
    }
  }

  /** Lists without repeats give combinations without repeats. */
  lemma {:induction false} ProductDistinct<T>(lists: seq<seq<T>>)
    requires forall k :: 0 <= k < |lists| ==> Distinct(lists[k])
    ensures Distinct(Product(lists))
    decreases |lists|
  {
    if |lists| > 0 {
      ProductDistinct(lists[1..]);
      ExtendDistinct(lists[0], Product(lists[1..]));
    }
  }

  /** An empty candidate list anywhere leaves no combination at all. */
  lemma {:induction false} EmptyListNoCombinations<T>(lists: seq<seq<T>>, k: nat)
    requires k < |lists| && |lists[k]| == 0
    ensures Product(lists) == []
    decreases k
  {
    if k > 0 {
      EmptyListNoCombinations(lists[1..], k - 1);
    }
  }
}
