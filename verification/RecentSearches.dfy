/**
 The recent searches of a user, as the handlers embedded in patch_comm.py keep them: a list of at most
 20 queries that is rewritten on every search.
 */
module RecentSearches {
  const LIMIT := 20

  datatype Action = Add(query: string) | Clear

  function Without(s: seq<string>, q: string): seq<string> {
    if s == [] then [] else (if s[0] == q then [] else [s[0]]) + Without(s[1..], q)
  }

  function Take(s: seq<string>): seq<string> { if |s| <= LIMIT then s else s[..LIMIT] }

  // [query, ...recent.filter(q => q !== query)].slice(0, 20); an empty query is refused.
  function Added(recent: seq<string>, query: string): seq<string> {
    if query == "" then recent else Take([query] + Without(recent, query))
  }

  class Preferences {
    var recentSearches: seq<string>

    constructor ()
      ensures recentSearches == []
    {
      recentSearches := [];
    }

    // False is the answer 400.
    method AddRecentSearch(query: string) returns (ok: bool)
      modifies this
      ensures ok <==> query != ""
      ensures recentSearches == Added(old(recentSearches), query)
    {
      if query == "" {
        return false;
      }
      recentSearches := Take([query] + Without(recentSearches, query));
      ok := true;
    }

    method ClearRecentSearches()
      modifies this
      ensures recentSearches == []
    {
      recentSearches := [];
    }
  }

  // What is stored after a run.
  function Stored(actions: seq<Action>): seq<string> {
    if actions == [] then []
    else
      match actions[|actions| - 1]
      case Add(q) => Added(Stored(actions[..|actions| - 1]), q)
      case Clear => []
  }

  // ---------- what should be stored ----------

  // The queries since the last clear, latest first.
  function Searches(actions: seq<Action>): seq<string> {
    if actions == [] then []
    else
      match actions[|actions| - 1]
      case Add(q) => (if q == "" then [] else [q]) + Searches(actions[..|actions| - 1])
      case Clear => []
  }

  // First occurrences, in order.
  function Distinct(s: seq<string>): seq<string> {
    if s == [] then [] else [s[0]] + Without(Distinct(s[1..]), s[0])
  }

  lemma {:induction false} WithoutTwice(s: seq<string>, p: string, q: string)
    ensures Without(Without(s, p), q) == Without(Without(s, q), p)
    ensures Without(Without(s, q), q) == Without(s, q)
  {
    if s != [] {
      WithoutTwice(s[1..], p, q);
      WithoutHead(s, p);
      WithoutHead(s, q);
      if s[0] != p {
        WithoutHead(Without(s, p), q);
      }
      if s[0] != q {
        WithoutHead(Without(s, q), p);
        WithoutHead(Without(s, q), q);
      }
    }
  }

  lemma WithoutHead(s: seq<string>, q: string)
    requires s != []
    ensures s[0] == q ==> Without(s, q) == Without(s[1..], q)
    ensures s[0] != q ==> Without(s, q) != [] && Without(s, q)[0] == s[0] && Without(s, q)[1..] == Without(s[1..], q)
  {
  }

  lemma {:induction false} WithoutAbsent(s: seq<string>, q: string)
    requires q !in s
    ensures Without(s, q) == s
  {
    if s != [] {
      WithoutAbsent(s[1..], q);
    }
  }

  lemma {:induction false} WithoutMembers(s: seq<string>, q: string)
    ensures forall x :: x in Without(s, q) <==> x in s && x != q
  {
    if s != [] {
      WithoutMembers(s[1..], q);
    }
  }

  predicate NoRepeats(s: seq<string>) {
    s != [] ==> s[0] !in s[1..] && NoRepeats(s[1..])
  }

  lemma {:induction false} WithoutNoRepeats(s: seq<string>, q: string)
    requires NoRepeats(s)
    ensures NoRepeats(Without(s, q))
  {
    if s != [] {
      WithoutNoRepeats(s[1..], q);
      WithoutMembers(s[1..], q);
      WithoutHead(s, q);
    }
  }

  lemma {:induction false} DistinctNoRepeats(s: seq<string>)
    ensures NoRepeats(Distinct(s)) && forall x :: x in Distinct(s) <==> x in s
  {
    if s != [] {
      DistinctNoRepeats(s[1..]);
      WithoutNoRepeats(Distinct(s[1..]), s[0]);
      WithoutMembers(Distinct(s[1..]), s[0]);
      assert Distinct(s)[1..] == Without(Distinct(s[1..]), s[0]);
    }
  }

  function First(s: seq<string>, n: nat): seq<string> {
    if s == [] || n == 0 then [] else [s[0]] + First(s[1..], n - 1)
  }

  lemma {:induction false} FirstIsSlice(s: seq<string>, n: nat)
    ensures First(s, n) == if |s| <= n then s else s[..n]
  {
    if s != [] && n > 0 {
      FirstIsSlice(s[1..], n - 1);
    }
  }

  // Cutting the tail off first loses nothing among the first n places once q has been taken out.
  lemma {:induction false} FirstWithout(s: seq<string>, q: string, n: nat)
    requires NoRepeats(s)
    ensures First(Without(First(s, n + 1), q), n) == First(Without(s, q), n)
  {
    if s != [] {
      var t := s[1..];
      var cut := First(s, n + 1);
      assert cut[0] == s[0] && cut[1..] == First(t, n);
      WithoutHead(s, q);
      WithoutHead(cut, q);
      if s[0] == q {
        WithoutAbsent(t, q);
        FirstIsSlice(t, n);
        WithoutAbsent(First(t, n), q);
        FirstIsSlice(First(t, n), n);
      } else if n > 0 {
        FirstWithout(t, q, n - 1);
      }
    }
  }

  lemma AddedTake(full: seq<string>, q: string)
    requires NoRepeats(full) && q != ""
    ensures Added(Take(full), q) == Take([q] + Without(full, q))
  {
    FirstIsSlice(full, LIMIT);
    FirstWithout(full, q, LIMIT - 1);
    var cut := Take(full);
    FirstIsSlice(Without(cut, q), LIMIT - 1);
    FirstIsSlice(Without(full, q), LIMIT - 1);
    TakeCons(q, Without(cut, q));
    TakeCons(q, Without(full, q));
  }

  lemma TakeCons(q: string, s: seq<string>)
    ensures Take([q] + s) == [q] + if |s| <= LIMIT - 1 then s else s[..LIMIT - 1]
  {
  }

  lemma {:induction false} StoredIsTake(actions: seq<Action>)
    ensures Stored(actions) == Take(Distinct(Searches(actions)))
  {
    if actions != [] {
      var before := actions[..|actions| - 1];
      StoredIsTake(before);
      match actions[|actions| - 1]
      case Clear =>
      case Add(q) =>
        var full := Distinct(Searches(before));
        DistinctNoRepeats(Searches(before));
        if q != "" {
          AddedTake(full, q);
          assert Searches(actions) == [q] + Searches(before);
          assert Searches(actions)[1..] == Searches(before);
        } else {
          assert Searches(actions) == Searches(before);
        }
    }
  }

  // After any run of searches and clears, what is stored are the 20 latest distinct queries since the last
  // clear, latest first, although each search saw only what the one before had kept.
  lemma StoredIsLatest(actions: seq<Action>)
    ensures Stored(actions) == First(Distinct(Searches(actions)), 20)
    ensures NoRepeats(Distinct(Searches(actions)))
    ensures forall q :: q in Distinct(Searches(actions)) <==> q in Searches(actions)
  {
    StoredIsTake(actions);
    FirstIsSlice(Distinct(Searches(actions)), 20);
    DistinctNoRepeats(Searches(actions));
  }
}
