/**
 * Page-wise listing of record ids. The records are taken in ascending id
 * order, and page `page` (counted from 1) of size `limit` holds the records
 * at positions (page - 1) * limit up to page * limit of that order.
 */
module Listing {

  ghost predicate StrictlyIncreasing(s: seq<int>) {
    forall i, j :: 0 <= i < j < |s| ==> s[i] < s[j]
  }

  /** `m` is the least id of `s`. */
  predicate IsLeast(m: int, s: set<int>) {
    m in s && forall x :: x in s ==> m <= x
  }

  /** Every non-empty finite set of ids has a least element. */
  lemma {:induction false} LeastExists(s: set<int>)
    requires s != {}
    ensures exists m :: IsLeast(m, s)
  {
    if forall x :: x !in s {
      assert false;
    }
    var y :| y in s;
    if s == {y} {
      assert IsLeast(y, s);
    } else {
      var rest := s - {y};
      LeastExists(rest);
      var m :| IsLeast(m, rest);
      var least := if y < m then y else m;
      forall x | x in s
        ensures least <= x
      {
        if x != y {
          assert x in rest;
        }
      }
      assert IsLeast(least, s);
    }
  }

  /** Putting an id below all of an ascending list in front keeps it ascending. */
  lemma PrependIncreasing(m: int, rest: seq<int>)
    requires StrictlyIncreasing(rest)
    requires forall i :: 0 <= i < |rest| ==> m < rest[i]
    ensures StrictlyIncreasing([m] + rest)
  {
    var r := [m] + rest;
    forall i, j | 0 <= i < j < |r|
      ensures r[i] < r[j]
    {
      if i > 0 {
        assert r[i] == rest[i - 1] && r[j] == rest[j - 1];
      }
    }
  }

  /** The ids of `s`, each once, in ascending order. */
  function Ascending(s: set<int>): (r: seq<int>)
    ensures |r| == |s|
    ensures forall x :: x in r <==> x in s
    ensures StrictlyIncreasing(r)
    decreases s
  {
    if s == {} then []
    else
      LeastExists(s);
      var m :| IsLeast(m, s);
      var rest := Ascending(s - {m});
      assert forall i :: 0 <= i < |rest| ==> rest[i] in s - {m};
      PrependIncreasing(m, rest);
      [m] + rest
  }

  /** Index of the first record of page `page`. */
  function Offset(page: int, limit: int): int {
    (page - 1) * limit
  }

  /** No page starts before the first record. */
  lemma OffsetNonNegative(page: int, limit: int)
    requires page >= 1 && limit >= 1
    ensures Offset(page, limit) >= 0
  {
  }

  /** Each page starts at least a full page after every earlier one. */
  lemma OffsetsApart(p: int, q: int, limit: int)
    requires p < q && limit >= 1
    ensures Offset(p, limit) + limit <= Offset(q, limit)
  {
    assert Offset(q, limit) - Offset(p, limit) == (q - p) * limit;
    assert (q - p) * limit >= limit by {
      assert (q - p - 1) * limit >= 0;
    }
  }

  /**
   * Page `page` of `ids` with `limit` records per page: the run of `ids`
   * that starts at Offset(page, limit), cut at `limit` records or at the end.
   */
  function Window(ids: seq<int>, page: int, limit: int): (r: seq<int>)
    requires page >= 1 && limit >= 1
    ensures |r| <= limit
    ensures forall k :: 0 <= k < |r| ==> Offset(page, limit) + k < |ids| && r[k] == ids[Offset(page, limit) + k]
    ensures |r| < limit ==> Offset(page, limit) + |r| >= |ids|
    ensures forall x :: x in r ==> x in ids
  {
    var lo := Offset(page, limit);
    if lo >= |ids| then []
    else if lo + limit <= |ids| then ids[lo..lo + limit]
    else ids[lo..]
  }

  /** A page of an ascending list is ascending. */
  lemma WindowIncreasing(ids: seq<int>, page: int, limit: int)
    requires page >= 1 && limit >= 1
    requires StrictlyIncreasing(ids)
    ensures StrictlyIncreasing(Window(ids, page, limit))
  {
    var r := Window(ids, page, limit);
    var lo := Offset(page, limit);
    forall i, j | 0 <= i < j < |r|
      ensures r[i] < r[j]
    {
      assert r[i] == ids[lo + i] && r[j] == ids[lo + j];
    }
  }

  /** Position i of the listing is slot i % limit of page i / limit + 1. */
  lemma EveryRecordOnItsPage(ids: seq<int>, limit: int, i: int)
    requires limit >= 1 && 0 <= i < |ids|
    ensures i / limit >= 0
    ensures i % limit < |Window(ids, i / limit + 1, limit)|
    ensures Window(ids, i / limit + 1, limit)[i % limit] == ids[i]
  {
    var page := i / limit + 1;
    assert Offset(page, limit) == (i / limit) * limit;
    assert Offset(page, limit) + i % limit == i;
  }

  /** A page whose offset reaches the record count is empty. */
  lemma PastTheEndIsEmpty(ids: seq<int>, page: int, limit: int)
    requires page >= 1 && limit >= 1
    requires Offset(page, limit) >= |ids|
    ensures Window(ids, page, limit) == []
  {
  }

  /** Two different pages of a list without repeats never share a record. */
  lemma PagesAreDisjoint(ids: seq<int>, p: int, q: int, limit: int)
    requires StrictlyIncreasing(ids)
    requires p >= 1 && q >= 1 && limit >= 1 && p != q
    ensures forall x :: x in Window(ids, p, limit) ==> x !in Window(ids, q, limit)
  {
    var wp, wq := Window(ids, p, limit), Window(ids, q, limit);
    if p < q { OffsetsApart(p, q, limit); } else { OffsetsApart(q, p, limit); }
    forall x | x in wp
      ensures x !in wq
    {
      var a :| 0 <= a < |wp| && wp[a] == x;
    }
  }
}
