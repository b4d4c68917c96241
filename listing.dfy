/** The list endpoints' query pipeline: filter a collection (natural order),
    sort by `updatedAt` descending, then `skip`/`limit`, and report
    `{page, limit, total, pages}` with `pages = Math.ceil(total / limit)`. */
module Listing {
  import opened Wrappers
  import opened Models

  /** The ids below `n` that `keep` selects, in increasing (natural) order. */
  function Select(n: nat, keep: nat -> bool): (ids: seq<Id>)
    ensures |ids| <= n
    ensures forall k :: 0 <= k < |ids| ==> ids[k] < n && keep(ids[k])
    ensures forall i :: 0 <= i < n && keep(i) ==> i in ids
    ensures forall k, l :: 0 <= k < l < |ids| ==> ids[k] < ids[l]
  {
    if n == 0 then [] else Select(n - 1, keep) + (if keep(n - 1) then [n - 1] else [])
  }

  predicate InRange(ids: seq<Id>, stamps: seq<nat>) {
    forall k :: 0 <= k < |ids| ==> ids[k] < |stamps|
  }

  /** Newest first: `stamps[id]` is the `updatedAt` of document `id`. */
  predicate NewestFirst(ids: seq<Id>, stamps: seq<nat>)
    requires InRange(ids, stamps)
  {
    forall k, l :: 0 <= k < l < |ids| ==> stamps[ids[k]] >= stamps[ids[l]]
  }

  /** Places `x` before the first id that is not newer than it. */
  function InsertByRecency(x: Id, ids: seq<Id>, stamps: seq<nat>): (r: seq<Id>)
    requires x < |stamps| && InRange(ids, stamps)
    ensures InRange(r, stamps)
    ensures multiset(r) == multiset(ids) + multiset{x}
  {
    if ids == [] then [x]
    else if stamps[x] >= stamps[ids[0]] then [x] + ids
    else
      assert ids == [ids[0]] + ids[1..];
      [ids[0]] + InsertByRecency(x, ids[1..], stamps)
  }

  /** Every stamp at most `v`: `v` bounds the whole list. */
  predicate AllAtMost(ids: seq<Id>, stamps: seq<nat>, v: nat)
    requires InRange(ids, stamps)
  {
    forall k :: 0 <= k < |ids| ==> stamps[ids[k]] <= v
  }

  /** Inserting an id keeps a bound that holds for it and for the list. */
  lemma {:induction false} InsertBounded(x: Id, ids: seq<Id>, stamps: seq<nat>, v: nat)
    requires x < |stamps| && InRange(ids, stamps)
    requires stamps[x] <= v && AllAtMost(ids, stamps, v)
    ensures AllAtMost(InsertByRecency(x, ids, stamps), stamps, v)
  {
    if ids != [] && stamps[x] < stamps[ids[0]] {
      InsertBounded(x, ids[1..], stamps, v);
    }
  }

  /** Inserting into a newest-first list keeps it newest first. */
  lemma {:induction false} InsertKeepsOrder(x: Id, ids: seq<Id>, stamps: seq<nat>)
    requires x < |stamps| && InRange(ids, stamps) && NewestFirst(ids, stamps)
    ensures NewestFirst(InsertByRecency(x, ids, stamps), stamps)
  {
    if ids != [] && stamps[x] < stamps[ids[0]] {
      var tail := ids[1..];
      InsertKeepsOrder(x, tail, stamps);
      InsertBounded(x, tail, stamps, stamps[ids[0]]);
      var rest := InsertByRecency(x, tail, stamps);
      var r := [ids[0]] + rest;
      forall k, l | 0 <= k < l < |r| ensures stamps[r[k]] >= stamps[r[l]] {
        assert r[l] == rest[l - 1];
        if k > 0 { assert r[k] == rest[k - 1]; }
      }
    }
  }

  /** `.sort({ updatedAt: -1 })`: the same ids, newest first. MongoDB leaves
      the order of equal `updatedAt` values open; this model fixes one,
      natural order, by inserting stably. */
  function ByRecency(ids: seq<Id>, stamps: seq<nat>): (r: seq<Id>)
    requires InRange(ids, stamps)
    ensures InRange(r, stamps)
    ensures multiset(r) == multiset(ids)
    ensures NewestFirst(r, stamps)
  {
    if ids == [] then []
    else
      assert ids == [ids[0]] + ids[1..];
      var sorted := ByRecency(ids[1..], stamps);
      InsertKeepsOrder(ids[0], sorted, stamps);
      InsertByRecency(ids[0], sorted, stamps)
  }

  /** The ids below `n` that `keep` selects, newest first. */
  function Ranked(n: nat, keep: nat -> bool, stamps: seq<nat>): (ids: seq<Id>)
    requires |stamps| == n
    ensures multiset(ids) == multiset(Select(n, keep))
    ensures |ids| == |Select(n, keep)|
    ensures forall k :: 0 <= k < |ids| ==> ids[k] < n && keep(ids[k])
    ensures forall k, l :: 0 <= k < l < |ids| ==> stamps[ids[k]] >= stamps[ids[l]]
  {
    var m := Select(n, keep);
    var ids := ByRecency(m, stamps);
    assert |ids| == |m| by { assert |multiset(ids)| == |multiset(m)|; }
    forall k | 0 <= k < |ids| ensures ids[k] < n && keep(ids[k]) {
      assert ids[k] in multiset(m);
    }
    ids
  }

  /** A selected id has a position in the ranked list. */
  lemma RankOf(n: nat, keep: nat -> bool, stamps: seq<nat>, i: Id) returns (k: nat)
    requires |stamps| == n && i < n && keep(i)
    ensures k < |Ranked(n, keep, stamps)| && Ranked(n, keep, stamps)[k] == i
  {
    var ranked := Ranked(n, keep, stamps);
    assert i in multiset(Select(n, keep));
    assert i in multiset(ranked);
    k :| 0 <= k < |ranked| && ranked[k] == i;
  }

  /** A page of the ranked ids keeps what the ranking promises: selected
      ids only, no more of them than the filter selects, newest first. */
  lemma RankedWindow(n: nat, keep: nat -> bool, stamps: seq<nat>, skip: nat, limit: int)
    requires |stamps| == n
    ensures var w := Window(Ranked(n, keep, stamps), skip, limit);
      && |w| <= |Select(n, keep)|
      && (forall k :: 0 <= k < |w| ==> w[k] < n && keep(w[k]))
      && (forall k, l :: 0 <= k < l < |w| ==> stamps[w[k]] >= stamps[w[l]])
  {
    var ranked := Ranked(n, keep, stamps);
    var w := Window(ranked, skip, limit);
    forall k, l | 0 <= k < l < |w| ensures stamps[w[k]] >= stamps[w[l]] {
      assert w[k] == ranked[skip + k] && w[l] == ranked[skip + l];
    }
  }

  /** A query parameter, or its default when it is absent. */
  function OrDefault(param: Option<int>, default: int): int {
    if param.Some? then param.value else default
  }

  function Abs(x: int): nat {
    if x < 0 then -x else x
  }

  function Min(a: nat, b: nat): nat {
    if a <= b then a else b
  }

  /** `(page - 1) * limit`. */
  function Skip(page: int, limit: int): (skip: int)
    ensures page >= 1 && limit >= 0 ==> skip >= 0
  {
    (page - 1) * limit
  }

  /** `.skip(skip).limit(limit)` for a non-negative skip: a limit of 0 means
      no limit, a negative limit means its absolute value. */
  function Window<T>(s: seq<T>, skip: nat, limit: int): (w: seq<T>)
    ensures skip <= |s| ==> |w| == (if limit == 0 then |s| - skip else Min(|s| - skip, Abs(limit)))
    ensures skip > |s| ==> w == []
    ensures forall k :: 0 <= k < |w| ==> skip + k < |s| && w[k] == s[skip + k]
  {
    if skip >= |s| then []
    else
      var rest := s[skip..];
      if limit == 0 || Abs(limit) >= |rest| then rest else rest[..Abs(limit)]
  }

  /** `Math.ceil(total / limit)`, None when it is not finite. */
  function PageCount(total: nat, limit: int): (pages: Option<int>)
    ensures pages.None? <==> limit == 0
    ensures limit > 0 ==> (pages.value - 1) * limit < total <= pages.value * limit
    ensures limit < 0 ==> pages.value * limit <= total < (pages.value - 1) * limit
  {
    if limit == 0 then None
    else if limit > 0 then
      var q := (total + limit - 1) / limit;
      CeilBounds(total, limit, q);
      Some(q)
    else
      var q := total / -limit;
      FloorBounds(total, -limit, q);
      Some(-q)
  }

  lemma CeilBounds(total: nat, limit: int, q: int)
    requires limit > 0 && q == (total + limit - 1) / limit
    ensures (q - 1) * limit < total <= q * limit
  {
    var r := (total + limit - 1) % limit;
    assert total + limit - 1 == q * limit + r;
    assert (q - 1) * limit == q * limit - limit;
  }

  lemma FloorBounds(total: nat, d: int, q: int)
    requires d > 0 && q == total / d
    ensures q * d <= total < (q + 1) * d
  {
    var r := total % d;
    assert total == q * d + r;
    assert (q + 1) * d == q * d + d;
  }

  /** With a positive limit, item `k` of the full listing appears on page
      `k / limit + 1`, at offset `k % limit`, and that page exists. */
  lemma {:induction false} EveryItemOnSomePage<T>(s: seq<T>, limit: int, k: nat)
    requires limit > 0 && k < |s|
    ensures 1 <= k / limit + 1 <= PageCount(|s|, limit).value
    ensures 0 <= Skip(k / limit + 1, limit) <= k
    ensures var skip := Skip(k / limit + 1, limit);
      var w := Window(s, skip, limit);
      k - skip < |w| && w[k - skip] == s[k]
  {
    var q, r := k / limit, k % limit;
    assert k == q * limit + r;
    assert Skip(q + 1, limit) == q * limit;
    var pages := PageCount(|s|, limit).value;
    assert q * limit < pages * limit;
    assert (pages - q) * limit == pages * limit - q * limit;
  }

  /** With a positive limit, every selected id is on some existing page. */
  lemma EveryIdOnSomePage(n: nat, keep: nat -> bool, stamps: seq<nat>, limit: int, i: Id)
    requires |stamps| == n && i < n && keep(i) && limit > 0
    ensures exists pg :: (1 <= pg <= PageCount(|Select(n, keep)|, limit).value
                          && i in Window(Ranked(n, keep, stamps), Skip(pg, limit), limit))
  {
    var k := RankOf(n, keep, stamps, i);
    var ranked := Ranked(n, keep, stamps);
    EveryItemOnSomePage(ranked, limit, k);
    var pg := k / limit + 1;
    assert Window(ranked, Skip(pg, limit), limit)[k - Skip(pg, limit)] == i;
  }
}
