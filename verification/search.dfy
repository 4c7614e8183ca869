/** The search box of the popover (`filteredServices`) and of the main window (`filtered`):
    both keep the services whose name contains the query, ignoring case, and show the whole
    list for an empty query. */
module Search {
  import opened Text
  import opened Models

  /** `filteredServices` / `filtered`. */
  function Filter(services: seq<BrewService>, query: string): (r: seq<BrewService>)
    ensures |r| <= |services|
    ensures query == [] ==> r == services
  {
    if query == [] then services else Matching(services, query)
  }

  /** `services.filter { $0.name.localizedCaseInsensitiveContains(query) }`. */
  function Matching(services: seq<BrewService>, query: string): (r: seq<BrewService>)
    ensures |r| <= |services|
  {
    if services == [] then []
    else Keep(services[0], query) + Matching(services[1..], query)
  }

  /** One service, kept or dropped. */
  function Keep(s: BrewService, query: string): seq<BrewService>
  {
    if ContainsIgnoringCase(s.name, query) then [s] else []
  }

  /** `r` is `xs` with some elements left out, the rest in their order. */
  ghost predicate Subsequence<T>(r: seq<T>, xs: seq<T>)
    decreases |xs|
  {
    if r == [] then true
    else if xs == [] then false
    else (r[0] == xs[0] && Subsequence(r[1..], xs[1..])) || Subsequence(r, xs[1..])
  }

  /** The filtered list keeps the order of the full list and holds exactly the services whose
      name contains the query, ignoring case. */
  lemma {:induction false} MatchingExactly(services: seq<BrewService>, query: string)
    ensures Subsequence(Matching(services, query), services)
    ensures forall s :: s in Matching(services, query) <==>
      s in services && ContainsIgnoringCase(s.name, query)
    decreases |services|
  {
    if services != [] {
      MatchingExactly(services[1..], query);
      assert services == [services[0]] + services[1..];
      var r := Matching(services, query);
      var rest := Matching(services[1..], query);
      if ContainsIgnoringCase(services[0].name, query) {
        assert r[0] == services[0] && r[1..] == rest;
      } else {
        assert r == rest;
      }
    }
  }

  /** Every list is a subsequence of itself. */
  lemma {:induction false} SubsequenceOfItself<T>(xs: seq<T>)
    ensures Subsequence(xs, xs)
    decreases |xs|
  {
    if xs != [] {
      SubsequenceOfItself(xs[1..]);
    }
  }

  /** The same for `Filter`: the empty query shows the whole list, and any other query keeps
      exactly the services whose name contains it, ignoring case. */
  lemma FilterExactly(services: seq<BrewService>, query: string)
    ensures Subsequence(Filter(services, query), services)
    ensures query == [] ==> Filter(services, query) == services
    ensures query != [] ==> forall s :: s in Filter(services, query) <==>
      s in services && ContainsIgnoringCase(s.name, query)
  {
    if query == [] {
      SubsequenceOfItself(services);
    } else {
      MatchingExactly(services, query);
    }
  }

  /** No name contains the empty query, so matching it keeps nothing: without the `isEmpty`
      shortcut an empty search box would show an empty list. */
  lemma {:induction false} MatchingEmptyQuery(services: seq<BrewService>)
    ensures Matching(services, []) == []
    ensures services != [] ==> Filter(services, []) != Matching(services, [])
    decreases |services|
  {
    if services != [] {
      MatchingEmptyQuery(services[1..]);
    }
  }

  /** Filtering distributes over concatenation, one service at a time: together with
      `Keep` this pins the result down occurrence by occurrence, duplicates included. */
  lemma {:induction false} FilterAppend(a: seq<BrewService>, b: seq<BrewService>, query: string)
    ensures Filter(a + b, query) == Filter(a, query) + Filter(b, query)
    ensures Filter([], query) == []
    decreases |a|
  {
    if query != [] && a != [] {
      assert (a + b)[1..] == a[1..] + b;
      FilterAppend(a[1..], b, query);
    } else if query != [] {
      assert a + b == b;
    }
  }

  /** Filtering twice with the same query is filtering once. */
  lemma {:induction false} FilterIdempotent(services: seq<BrewService>, query: string)
    ensures Filter(Filter(services, query), query) == Filter(services, query)
    decreases |services|
  {
    if query != [] && services != [] {
      FilterIdempotent(services[1..], query);
      FilterAppend(Keep(services[0], query), Matching(services[1..], query), query);
      assert Filter(Keep(services[0], query), query) == Keep(services[0], query) by {
        if ContainsIgnoringCase(services[0].name, query) {
          assert [services[0]][1..] == [];
        }
      }
    }
  }
}
