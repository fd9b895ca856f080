/**
 * `ClientManager.getClient`: copy the service's client list, remove from the
 * copy every client equal to an excluded one, and hand what is left to the
 * router. The router's algorithm is not part of this model; it is a
 * function parameter.
 */
module ClientFilter {
  import opened Wrappers

  /** The clients of `s` that are not in `excluded`, in their order in `s`. */
  function Without<C(==)>(s: seq<C>, excluded: seq<C>): (r: seq<C>)
    ensures |r| <= |s|
  {
    if |s| == 0 then []
    else Without(s[..|s| - 1], excluded) + (if s[|s| - 1] in excluded then [] else [s[|s| - 1]])
  }

  /** `removeAll` when the exclusion list is present; a null list removes nothing. */
  function RemoveAll<C(==)>(s: seq<C>, excludeClients: Option<seq<C>>): (r: seq<C>)
    ensures |r| <= |s|
    ensures forall x :: x in r ==> x in s
    ensures excludeClients.Some? ==> forall x :: x in r ==> x !in excludeClients.value
  {
    match excludeClients
    case None => s
    case Some(excluded) => WithoutSubset(s, excluded); Without(s, excluded)
  }

  /** The survivors are clients of the list that are not excluded. */
  lemma WithoutSubset<C>(s: seq<C>, excluded: seq<C>)
    ensures forall x :: x in Without(s, excluded) ==> x in s && x !in excluded
  {
    forall x | x in Without(s, excluded) ensures x in s && x !in excluded {
      WithoutMembers(s, excluded, x);
    }
  }

  /** A client survives exactly when it was in the list and is not excluded. */
  lemma {:induction false} WithoutMembers<C>(s: seq<C>, excluded: seq<C>, x: C)
    ensures x in Without(s, excluded) <==> x in s && x !in excluded
  {
    if |s| > 0 {
      WithoutMembers(s[..|s| - 1], excluded, x);
      assert s == s[..|s| - 1] + [s[|s| - 1]];
    }
  }

  /**
   * Filtering keeps each surviving client as many times as it occurred:
   * excluded clients vanish, the others keep their multiplicity.
   */
  lemma {:induction false} WithoutCounts<C>(s: seq<C>, excluded: seq<C>, x: C)
    ensures multiset(Without(s, excluded))[x] == if x in excluded then 0 else multiset(s)[x]
  {
    if |s| > 0 {
      var init, last := s[..|s| - 1], s[|s| - 1];
      WithoutCounts(init, excluded, x);
      assert s == init + [last];
      assert multiset(s) == multiset(init) + multiset{last};
      var kept := if last in excluded then [] else [last];
      assert multiset(Without(s, excluded)) == multiset(Without(init, excluded)) + multiset(kept);
    }
  }

  /**
   * Filtering works piece by piece, so relative order is preserved: the
   * survivors of `a + b` are those of `a` followed by those of `b`.
   */
  lemma {:induction false} WithoutAppend<C>(a: seq<C>, b: seq<C>, excluded: seq<C>)
    ensures Without(a + b, excluded) == Without(a, excluded) + Without(b, excluded)
  {
    if |b| > 0 {
      var b' := b[..|b| - 1];
      assert (a + b)[..|a + b| - 1] == a + b';
      WithoutAppend(a, b', excluded);
    } else {
      assert a + b == a;
    }
  }

  /** With nothing excluded, every client is a candidate; filtering twice is filtering once. */
  lemma {:induction false} WithoutNothing<C>(s: seq<C>, excluded: seq<C>)
    ensures Without(s, []) == s
    ensures Without(Without(s, excluded), excluded) == Without(s, excluded)
  {
    if |s| > 0 {
      WithoutNothing(s[..|s| - 1], excluded);
      var last := s[|s| - 1];
      var w := Without(s[..|s| - 1], excluded);
      assert s == s[..|s| - 1] + [last];
      if last !in excluded {
        WithoutAppend(w, [last], excluded);
        assert [last][..0] == [];
        assert Without([last], excluded) == [last];
        assert Without(s, excluded) == w + [last];
        assert Without(w + [last], excluded) == Without(w, excluded) + Without([last], excluded);
      } else {
        assert Without(s, excluded) == w + [];
        assert w + [] == w;
      }
    }
  }

  /**
   * `new ArrayList<Client>(clientList)` followed by `removeAll`, which
   * compacts the copy in place: each kept client is moved down to the next
   * free slot, and the copy is then cut to that length. The service's own
   * list is only read.
   */
  method ClientsToRoute<C(==)>(clientList: array<C>, excludeClients: Option<seq<C>>) returns (toRoute: seq<C>)
    ensures toRoute == RemoveAll(clientList[..], excludeClients)
    ensures forall x :: x in toRoute <==> x in clientList[..] && (excludeClients.None? || x !in excludeClients.value)
  {
    var source := clientList[..];
    var copy := new C[clientList.Length](k requires 0 <= k < |source| => source[k]);
    if excludeClients.Some? {
      var excluded := excludeClients.value;
      var w := 0;
      for r := 0 to copy.Length
        invariant w <= r
        invariant copy[..w] == Without(source[..r], excluded)
        invariant forall k :: r <= k < copy.Length ==> copy[k] == source[k]
      {
        assert source[..r + 1] == source[..r] + [source[r]];
        var client := copy[r];
        if client !in excluded {
          ghost var kept := copy[..w];
          copy[w] := client;
          assert copy[..w + 1] == kept + [client];
          w := w + 1;
        }
      }
      assert source[..copy.Length] == source;
      toRoute := copy[..w];
      forall x ensures x in toRoute <==> x in source && x !in excluded {
        WithoutMembers(source, excluded, x);
      }
    } else {
      toRoute := copy[..];
    }
  }

  /** `getClient`: the router is handed exactly the filtered copy. */
  method GetClient<C(==), R>(clientList: array<C>, excludeClients: Option<seq<C>>, route: seq<C> -> R)
    returns (client: R)
    ensures client == route(RemoveAll(clientList[..], excludeClients))
  {
    var toRoute := ClientsToRoute(clientList, excludeClients);
    client := route(toRoute);
  }
}
