/**
 `ORDER BY rank, id` over a set of rows: the strictly ordered enumeration, which is unique
 because the id breaks ties, so that LIMIT/OFFSET pages of an unchanged table fit together.
 */
module OrderedQuery {

  type Rank = map<nat, int>

  predicate Before(rank: Rank, a: nat, b: nat)
    requires a in rank && b in rank
  {
    rank[a] < rank[b] || (rank[a] == rank[b] && a < b)
  }

  predicate Enumerates(l: seq<nat>, s: set<nat>, rank: Rank) {
    && s <= rank.Keys
    && |l| == |s|
    && (forall i :: 0 <= i < |l| ==> l[i] in s)
    && (forall x :: x in s ==> x in l)
    && (forall i, j :: 0 <= i < j < |l| ==> Before(rank, l[i], l[j]))
  }

  predicate Distinct(l: seq<nat>) {
    forall i, j :: 0 <= i < j < |l| ==> l[i] != l[j]
  }

  /** A page from the start of the enumeration. */
  ghost predicate FirstPage(page: seq<nat>, s: set<nat>, rank: Rank) {
    exists all :: Enumerates(all, s, rank) && page <= all
  }

  /** A page from its end, read backwards (descending order). */
  ghost predicate LastPage(page: seq<nat>, s: set<nat>, rank: Rank) {
    exists all ::
      && Enumerates(all, s, rank) && |page| <= |all|
      && forall i :: 0 <= i < |page| ==> page[i] == all[|all| - 1 - i]
  }

  method OrderBy(s: set<nat>, rank: Rank) returns (l: seq<nat>)
    requires s <= rank.Keys
    ensures Enumerates(l, s, rank)
  {
    l := [];
    var rest := s;
    while rest != {}
      invariant rest <= s && |l| + |rest| == |s|
      invariant forall x :: x in s <==> x in l || x in rest
      invariant forall i :: 0 <= i < |l| ==> l[i] in s
      invariant forall i, j :: 0 <= i < j < |l| ==> Before(rank, l[i], l[j])
      invariant forall i, x :: 0 <= i < |l| && x in rest ==> Before(rank, l[i], x)
    {
      var least := First(rest, rank);
      l := l + [least];
      rest := rest - {least};
    }
  }

  method First(s: set<nat>, rank: Rank) returns (least: nat)
    requires s != {} && s <= rank.Keys
    ensures least in s && forall x :: x in s && x != least ==> Before(rank, least, x)
  {
    least :| least in s;
    var rest := s - {least};
    while rest != {}
      invariant least in s && rest <= s
      invariant forall x :: x in s && x != least && x !in rest ==> Before(rank, least, x)
    {
      var x :| x in rest;
      if Before(rank, x, least) {
        least := x;
      }
      rest := rest - {x};
    }
  }

  lemma FirstIsLeast(l: seq<nat>, s: set<nat>, rank: Rank, x: nat)
    requires Enumerates(l, s, rank) && x in s
    ensures l != [] && (l[0] == x || Before(rank, l[0], x))
  {
    assert x in l;
  }

  lemma TailEnumerates(l: seq<nat>, s: set<nat>, rank: Rank)
    requires Enumerates(l, s, rank) && l != []
    ensures Enumerates(l[1..], s - {l[0]}, rank)
  {
    forall x | x in s - {l[0]} ensures x in l[1..] {
      var i :| 0 <= i < |l| && l[i] == x;
      assert l[1..][i - 1] == x;
    }
  }

  /** The order is total, so the enumeration is unique: two queries of one table agree. */
  lemma {:induction false} EnumerationIsUnique(l: seq<nat>, m: seq<nat>, s: set<nat>, rank: Rank)
    requires Enumerates(l, s, rank) && Enumerates(m, s, rank)
    ensures l == m
    decreases |s|
  {
    if l != [] {
      FirstIsLeast(l, s, rank, m[0]);
      FirstIsLeast(m, s, rank, l[0]);
      TailEnumerates(l, s, rank);
      TailEnumerates(m, s, rank);
      EnumerationIsUnique(l[1..], m[1..], s - {l[0]}, rank);
      assert l == [l[0]] + l[1..] && m == [m[0]] + m[1..];
    }
  }

  /** The last `n` elements, the very last first. */
  function LastReversed(all: seq<nat>, n: nat): (r: seq<nat>)
    requires n <= |all|
    ensures |r| == n && forall i :: 0 <= i < n ==> r[i] == all[|all| - 1 - i]
  {
    seq(n, i requires 0 <= i < n => all[|all| - 1 - i])
  }

  lemma LastReversedIsPage(all: seq<nat>, s: set<nat>, rank: Rank, n: nat)
    requires Enumerates(all, s, rank) && n <= |all|
    ensures LastPage(LastReversed(all, n), s, rank) && Distinct(LastReversed(all, n))
  {
    var page := LastReversed(all, n);
    forall i, j | 0 <= i < j < n ensures page[i] != page[j] {
      assert Before(rank, all[|all| - 1 - j], all[|all| - 1 - i]);
    }
  }

  function Min(a: nat, b: nat): nat {
    if a < b then a else b
  }
}
