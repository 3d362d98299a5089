/** The cartesian product generate_schedules iterates over
    (itertools.product at app.py:443): one element from each list, the
    first list varying slowest. */
module Products {
  /** The product in itertools order. */
  function Product<T>(lists: seq<seq<T>>): seq<seq<T>> {
    if lists == [] then [[]] else Prefixed(lists[0], Product(lists[1..]))
  }

  /** For each head in order, that head in front of every tail in order. */
  function Prefixed<T>(heads: seq<T>, tails: seq<seq<T>>): seq<seq<T>> {
    if heads == [] then [] else PrefixAll(heads[0], tails) + Prefixed(heads[1..], tails)
  }

  /** One head in front of every tail. */
  function PrefixAll<T>(h: T, tails: seq<seq<T>>): (r: seq<seq<T>>)
    ensures |r| == |tails|
    ensures forall i :: 0 <= i < |r| ==> r[i] == [h] + tails[i]
  {
    if tails == [] then [] else [[h] + tails[0]] + PrefixAll(h, tails[1..])
  }

  /** The product of the lists' lengths. */
  function Count<T>(lists: seq<seq<T>>): nat {
    if lists == [] then 1 else |lists[0]| * Count(lists[1..])
  }

  /** There are as many combinations as the product of the lengths. */
  lemma {:induction false} ProductSize<T>(lists: seq<seq<T>>)
    ensures |Product(lists)| == Count(lists)
  {
    if lists != [] {
      ProductSize(lists[1..]);
      PrefixedSize(lists[0], Product(lists[1..]));
    }
  }

  lemma {:induction false} PrefixedSize<T>(heads: seq<T>, tails: seq<seq<T>>)
    ensures |Prefixed(heads, tails)| == |heads| * |tails|
  {
    if heads != [] {
      PrefixedSize(heads[1..], tails);
      calc {
        |Prefixed(heads, tails)|;
        |tails| + |heads[1..]| * |tails|;
        (1 + |heads[1..]|) * |tails|;
        |heads| * |tails|;
      }
    }
  }

  /** A list is among the prefixed ones exactly when it is a head followed
      by a tail. */
  lemma {:induction false} PrefixedMembers<T>(heads: seq<T>, tails: seq<seq<T>>, c: seq<T>)
    ensures c in Prefixed(heads, tails) <==> |c| > 0 && c[0] in heads && c[1..] in tails
  {
    if heads != [] {
      PrefixedMembers(heads[1..], tails, c);
      var mine := PrefixAll(heads[0], tails);
      if c in mine {
        var i :| 0 <= i < |mine| && mine[i] == c;
        assert c[1..] == tails[i];
      }
      if |c| > 0 && c[0] == heads[0] && c[1..] in tails {
        var i :| 0 <= i < |tails| && tails[i] == c[1..];
        assert mine[i] == c;
      }
      assert heads == [heads[0]] + heads[1..];
    }
  }

  /** A combination is in the product exactly when it picks one element of
      each list, in the lists' order. */
  lemma {:induction false} ProductMembers<T>(lists: seq<seq<T>>, c: seq<T>)
    ensures c in Product(lists) <==> |c| == |lists| && forall k :: 0 <= k < |c| ==> c[k] in lists[k]
  {
    if lists == [] {
      assert c in Product(lists) <==> c == [];
    } else {
      PrefixedMembers(lists[0], Product(lists[1..]), c);
      if |c| > 0 {
        ProductMembers(lists[1..], c[1..]);
        if |c| == |lists| && forall k :: 0 <= k < |c| ==> c[k] in lists[k] {
          forall k | 0 <= k < |c[1..]|
            ensures c[1..][k] in lists[1..][k]
          {
            assert c[1..][k] == c[k + 1];
          }
        }
        if c in Product(lists) {
          forall k | 0 <= k < |c|
            ensures c[k] in lists[k]
          {
            if k > 0 {
              assert c[k] == c[1..][k - 1];
            }
          }
        }
      }
    }
  }
}
