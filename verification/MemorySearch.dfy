/** Retrieval: the best matches of a query. How a score is computed is left open; only its order is used. */
module MemorySearch {
  import opened Common
  import opened MemoryText
  import opened MemoryItems
  import opened MemoryIndex
  import opened TextOrder
  import opened Sorting

  datatype Match = Match(item: Memory, score: real, terms: seq<string>)

  datatype Query = Query(
    text: string, workspace: string, user: string, kinds: seq<string>, topK: int, requireAll: bool, now: nat)

  const Tokens: string -> set<string>
  const Score: (set<string>, Memory, nat, bool) -> (real, seq<string>)

  predicate ValidQuery(q: Query) {
    TrimSpace(q.workspace) != "" && q.topK > 0 && forall kind | kind in q.kinds :: KnownKind(kind)
  }

  predicate KindAllowed(kind: string, allowed: seq<string>) {
    allowed == [] || kind in allowed
  }

  predicate Seen(item: Memory, q: Query) {
    VisibleTo(item.scope, q.workspace, q.user) && KindAllowed(item.kind, q.kinds)
  }

  /** An item that answers the query, as a match. */
  function MatchOf(item: Memory, q: Query, now: nat): Option<Match> {
    var (score, terms) := Score(Tokens(q.text), item, now, q.requireAll);
    if Seen(item, q) && score > 0.0 then Some(Match(item, score, terms)) else None
  }

  ghost function Matches(byId: map<string, Memory>, q: Query, now: nat): set<Match> {
    set id | id in byId && MatchOf(byId[id], q, now).Some? :: MatchOf(byId[id], q, now).value
  }

  // ----- The order

  /** Greater score first, then newer, then the smaller id. */
  predicate Before(a: Match, b: Match) {
    || a.score > b.score
    || (a.score == b.score
        && (|| a.item.updatedAt > b.item.updatedAt
            || (a.item.updatedAt == b.item.updatedAt && TextLe(a.item.id, b.item.id))))
  }

  lemma BeforeOrder()
    ensures TotalPreorder(Before)
  {
    forall a, b ensures Before(a, b) || Before(b, a) {
      TextLeTotal(a.item.id, b.item.id);
    }
    forall a, b, c | Before(a, b) && Before(b, c) ensures Before(a, c) {
      if TextLe(a.item.id, b.item.id) && TextLe(b.item.id, c.item.id) {
        TextLeTransitive(a.item.id, b.item.id, c.item.id);
      }
    }
  }

  ghost predicate OwnIds(byId: map<string, Memory>) {
    forall id | id in byId :: byId[id].id == id
  }

  /** No two matches of one store tie. */
  lemma NoTies(byId: map<string, Memory>, q: Query, now: nat, a: Match, b: Match)
    requires OwnIds(byId) && a in Matches(byId, q, now) && b in Matches(byId, q, now)
    requires Before(a, b) && Before(b, a)
    ensures a == b
  {
    TextLeAntisymmetric(a.item.id, b.item.id);
    hide Seen;
  }

  // ----- The greatest elements of a set

  ghost function Least(a: int, b: int): int {
    if a < b then a else b
  }

  /** r lists, in order, the k first elements of the set, or all of it where there are fewer. */
  ghost predicate IsTop<T>(r: seq<T>, all: set<T>, k: int, le: (T, T) -> bool) {
    && Distinct(r) && SortedBy(r, le)
    && |r| == Least(k, |all|)
    && (forall x | x in r :: x in all)
    && forall x, y | x in r && y in all && y !in r :: le(x, y)
  }

  lemma {:induction false} DistinctLength<T>(s: seq<T>, all: set<T>)
    requires Distinct(s) && forall x :: x in s <==> x in all
    ensures |s| == |all|
  {
    if s == [] {
      assert all == {};
    } else {
      var last := s[|s| - 1];
      assert forall x :: x in s <==> x in s[..|s| - 1] || x == last;
      DistinctLength(s[..|s| - 1], all - {last});
    }
  }

  lemma SortedPrefixIsTop<T>(sorted: seq<T>, s: seq<T>, all: set<T>, k: nat, le: (T, T) -> bool)
    requires IsSorting(sorted, s, le) && Distinct(s) && forall x :: x in s <==> x in all
    ensures IsTop(if |sorted| > k then sorted[..k] else sorted, all, k, le)
  {
    SortingElements(sorted, s, le);
    DistinctCounts(s);
    DistinctCounts(sorted);
    DistinctLength(s, all);
    var r := if |sorted| > k then sorted[..k] else sorted;
    forall x, y | x in r && y in all && y !in r ensures le(x, y) {
      var i :| 0 <= i < |r| && r[i] == x;
      var j :| 0 <= j < |sorted| && sorted[j] == y;
      assert forall n | 0 <= n < |r| :: sorted[n] == r[n] && r[n] in r;
      assert j >= |r|;
    }
  }

  lemma SameLengthSameElements<T>(a: seq<T>, b: seq<T>)
    requires Distinct(a) && Distinct(b) && |a| == |b| && forall x | x in a :: x in b
    ensures forall x | x in b :: x in a
  {
    var sa := set x | x in a;
    var sb := set x | x in b;
    DistinctLength(a, sa);
    DistinctLength(b, sb);
    if sa != sb {
      SubsetCard(sa, sb);
      assert false;
    }
    forall x | x in b ensures x in a {
      assert x in sb;
    }
  }

  lemma SubsetCard<T>(a: set<T>, b: set<T>)
    requires a < b
    ensures |a| < |b|
  {
    assert |b - a| > 0 by {
      var x :| x in b && x !in a;
      assert x in b - a;
    }
    assert b == a + (b - a);
  }

  lemma SameBag<T>(a: seq<T>, b: seq<T>)
    requires Distinct(a) && Distinct(b) && forall x :: x in a <==> x in b
    ensures multiset(a) == multiset(b)
  {
    DistinctCounts(a);
    DistinctCounts(b);
    forall x ensures multiset(a)[x] == multiset(b)[x] {
      assert x in a <==> x in multiset(a);
      assert x in b <==> x in multiset(b);
    }
  }

  /** Where nothing in the set ties there is only one such list. */
  lemma TopUnique<T>(a: seq<T>, b: seq<T>, all: set<T>, k: int, le: (T, T) -> bool)
    requires IsTop(a, all, k, le) && IsTop(b, all, k, le)
    requires forall x, y | x in all && y in all && le(x, y) && le(y, x) :: x == y
    ensures a == b
  {
    if x :| x in a && x !in b {
      if forall y | y in b :: y in a {
        SameLengthSameElements(b, a);
        assert false;
      } else {
        var y :| y in b && y !in a;
        assert false;
      }
    }
    SameLengthSameElements(a, b);
    SameBag(a, b);
    SortingUnique(a, b, le);
  }

  // ----- The search

  function Candidates(byId: map<string, Memory>, names: seq<string>, q: Query): seq<Memory> {
    if names == [] then []
    else
      var item := ItemAt(byId, names[|names| - 1]);
      Candidates(byId, names[..|names| - 1], q) + if Seen(item, q) then [item] else []
  }

  function Scored(items: seq<Memory>, q: Query, now: nat): seq<Match> {
    if items == [] then []
    else
      var item := items[|items| - 1];
      var (score, terms) := Score(Tokens(q.text), item, now, q.requireAll);
      Scored(items[..|items| - 1], q, now) + if score <= 0.0 then [] else [Match(item, score, terms)]
  }

  lemma {:induction false} CandidatesElements(byId: map<string, Memory>, names: seq<string>, q: Query)
    requires Distinct(names) && OwnIds(byId) && forall id | id in names :: id in byId
    ensures forall x :: x in Candidates(byId, names, q) <==> x.id in names && byId[x.id] == x && Seen(x, q)
    ensures Distinct(Candidates(byId, names, q))
  {
    hide Seen;
    if names != [] {
      var front := names[..|names| - 1];
      var last := names[|names| - 1];
      assert forall id :: id in names <==> id in front || id == last;
      CandidatesElements(byId, front, q);
    }
  }

  lemma {:induction false} ScoredElements(items: seq<Memory>, q: Query, now: nat)
    requires Distinct(items) && forall x | x in items :: Seen(x, q)
    ensures forall m :: m in Scored(items, q, now) <==> m.item in items && MatchOf(m.item, q, now) == Some(m)
    ensures Distinct(Scored(items, q, now))
  {
    hide Seen;
    if items != [] {
      var front := items[..|items| - 1];
      assert forall x :: x in items <==> x in front || x == items[|items| - 1];
      ScoredElements(front, q, now);
    }
  }

  lemma ScoredAreMatches(byId: map<string, Memory>, names: seq<string>, q: Query, now: nat)
    requires Lists(names, byId) && OwnIds(byId)
    ensures var found := Scored(Candidates(byId, names, q), q, now);
            Distinct(found) && forall m :: m in found <==> m in Matches(byId, q, now)
  {
    hide Seen, Candidates, Scored, Distinct;
    CandidatesElements(byId, names, q);
    ScoredElements(Candidates(byId, names, q), q, now);
    forall m ensures m in Scored(Candidates(byId, names, q), q, now) <==> m in Matches(byId, q, now) {
      if m in Matches(byId, q, now) {
        var id :| id in byId && MatchOf(byId[id], q, now) == Some(m);
        assert m.item == byId[id];
      }
    }
  }

  /** Exactly the topK greatest matches among the stored items the caller may see. */
  method Search(s: State, q: Query, clock: nat) returns (r: Option<seq<Match>>)
    requires Lists(s.ordered, s.byId) && OwnIds(s.byId)
    ensures r.None? <==> TrimSpace(q.workspace) == "" || q.topK <= 0 || exists kind :: kind in q.kinds && !KnownKind(kind)
    ensures r.Some? && Tokens(q.text) == {} ==> r.value == []
    ensures r.Some? && Tokens(q.text) != {} ==>
              IsTop(r.value, Matches(s.byId, q, if q.now == 0 then clock else q.now), q.topK, Before)
  {
    hide Seen, IsTop, Distinct, Matches, OwnIds, Lists, KnownKind, TrimSpace;
    if !ValidQuery(q) {
      return None;
    }
    var tokens := Tokens(q.text);
    if tokens == {} {
      return Some([]);
    }
    var now := if q.now == 0 then clock else q.now;
    var candidates: seq<Memory> := [];
    for i := 0 to |s.ordered|
      invariant candidates == Candidates(s.byId, s.ordered[..i], q)
    {
      assert s.ordered[..i + 1][..i] == s.ordered[..i];
      var item := ItemAt(s.byId, s.ordered[i]);
      if Seen(item, q) {
        candidates := candidates + [item];
      }
    }
    assert s.ordered[..|s.ordered|] == s.ordered;
    var found: seq<Match> := [];
    for i := 0 to |candidates|
      invariant found == Scored(candidates[..i], q, now)
    {
      assert candidates[..i + 1][..i] == candidates[..i];
      var (score, terms) := Score(tokens, candidates[i], now, q.requireAll);
      if score <= 0.0 {
        continue;
      }
      found := found + [Match(candidates[i], score, terms)];
    }
    assert candidates[..|candidates|] == candidates;
    BeforeOrder();
    var sorted := Sort(found, Before);
    ScoredAreMatches(s.byId, s.ordered, q, now);
    PositiveK(q);
    SortedPrefixIsTop(sorted, found, Matches(s.byId, q, now), q.topK, Before);
    if |sorted| > q.topK {
      return Some(sorted[..q.topK]);
    }
    return Some(sorted);
  }

  lemma PositiveK(q: Query)
    requires ValidQuery(q)
    ensures q.topK > 0
  {
  }

  /** The answer is a function of the set of stored items: the order they were saved in, and the restarts
      that reordered them, do not show. */
  lemma AnswerIgnoresHistory(byId: map<string, Memory>, q: Query, now: nat, a: seq<Match>, b: seq<Match>)
    requires OwnIds(byId)
    requires IsTop(a, Matches(byId, q, now), q.topK, Before) && IsTop(b, Matches(byId, q, now), q.topK, Before)
    ensures a == b
  {
    forall x, y | x in Matches(byId, q, now) && y in Matches(byId, q, now) && Before(x, y) && Before(y, x)
      ensures x == y
    {
      NoTies(byId, q, now, x, y);
    }
    TopUnique(a, b, Matches(byId, q, now), q.topK, Before);
  }

  /** Nothing the caller may not see is ever returned. */
  lemma AnswerIsVisible(byId: map<string, Memory>, q: Query, now: nat, r: seq<Match>)
    requires IsTop(r, Matches(byId, q, now), q.topK, Before)
    ensures forall m | m in r ::
              VisibleTo(m.item.scope, q.workspace, q.user) && (q.kinds == [] || m.item.kind in q.kinds) && m.score > 0.0
  {
  }
}
