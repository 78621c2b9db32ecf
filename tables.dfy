/**
 * The abstract store behind the repositories.  A table is a map from id to
 * record together with the ids in creation order and a creation counter; each
 * record holds its own id (`key`) and creation stamp (`stamp`).  The functions
 * below give the semantics of the ORM calls the repositories issue:
 * `findMany({ where, orderBy: { createdAt: 'desc' }, skip, take })` and
 * `count({ where })`.
 */
module Tables {
  import opened Domain
  import Pagination

  /** Every listed id is stored. */
  ghost predicate Listed<R>(rows: map<Id, R>, order: seq<Id>) {
    forall i :: 0 <= i < |order| ==> order[i] in rows
  }

  /** Creation stamps strictly increase along the creation order. */
  ghost predicate Chronological<R>(rows: map<Id, R>, order: seq<Id>, stamp: R -> nat)
    requires Listed(rows, order)
  {
    forall i, j :: 0 <= i < j < |order| ==> stamp(rows[order[i]]) < stamp(rows[order[j]])
  }

  /**
   * The table invariant: the order lists exactly the stored ids, oldest first;
   * every id is non-empty and is the record's own id; every stamp was drawn
   * from the counter before its current value.
   */
  ghost predicate Valid<R>(rows: map<Id, R>, order: seq<Id>, clock: nat, key: R -> Id, stamp: R -> nat) {
    && Listed(rows, order)
    && (forall id :: id in rows ==> id in order && id != "" && key(rows[id]) == id && stamp(rows[id]) < clock)
    && Chronological(rows, order, stamp)
  }

  /** The stored records that satisfy `p`, newest first. */
  function Matching<R>(rows: map<Id, R>, order: seq<Id>, p: R -> bool): seq<R>
    requires Listed(rows, order)
    decreases |order|
  {
    if order == [] then []
    else
      var last := rows[order[|order| - 1]];
      var older := Matching(rows, order[..|order| - 1], p);
      if p(last) then [last] + older else older
  }

  /** `count({ where })`: the number of stored records that satisfy `p`. */
  function Count<R>(rows: map<Id, R>, p: R -> bool): nat {
    |set id | id in rows && p(rows[id])|
  }

  /** A subset is no larger than its superset. */
  lemma {:induction false} SubsetSize<T>(a: set<T>, b: set<T>)
    requires a <= b
    ensures |a| <= |b|
    decreases a
  {
    if a != {} {
      var x :| x in a;
      SubsetSize(a - {x}, b - {x});
    }
  }

  /** A count never exceeds the table size. */
  lemma CountAtMostSize<R>(rows: map<Id, R>, p: R -> bool)
    ensures Count(rows, p) <= |rows|
  {
    SubsetSize((set id | id in rows && p(rows[id])), rows.Keys);
  }

  /** The count is the size of any set that holds exactly the matching ids. */
  lemma CountIs<R>(rows: map<Id, R>, p: R -> bool, s: set<Id>)
    requires forall id :: id in s <==> id in rows && p(rows[id])
    ensures Count(rows, p) == |s|
  {
    assert s == set id | id in rows && p(rows[id]);
  }

  /** `skip`/`take` applied to a result list. */
  function Window<R>(s: seq<R>, skip: nat, take: nat): (w: seq<R>)
    ensures |w| <= take
    ensures skip < |s| ==> |w| == if take < |s| - skip then take else |s| - skip
    ensures skip >= |s| ==> w == []
    ensures forall k :: 0 <= k < |w| ==> skip + k < |s| && w[k] == s[skip + k]
  {
    if skip >= |s| then [] else s[skip..if skip + take < |s| then skip + take else |s|]
  }

  /** The number of records a page skips: `(page - 1) * pageSize`. */
  function Skip(page: int, pageSize: int): (n: nat)
    requires page >= 1 && pageSize >= 0
  {
    NonNegativeProduct(page - 1, pageSize);
    (page - 1) * pageSize
  }

  /** A paginated query: one page of the matches, newest first, and the total match count. */
  function Query<R>(rows: map<Id, R>, order: seq<Id>, p: R -> bool, page: int, pageSize: int): (r: Found<R>)
    requires Listed(rows, order) && page >= 1 && pageSize >= 0
  {
    Found(Window(Matching(rows, order, p), Skip(page, pageSize), pageSize), Count(rows, p))
  }

  /** Records strictly newest first. */
  predicate NewestFirst<R>(s: seq<R>, stamp: R -> nat) {
    forall a, b :: 0 <= a < b < |s| ==> stamp(s[a]) > stamp(s[b])
  }

  lemma NonNegativeProduct(a: int, b: int)
    requires a >= 0 && b >= 0
    ensures a * b >= 0
  {
  }

  /** Every match is the record of some listed id, and satisfies `p`. */
  lemma {:induction false} MatchingFrom<R>(rows: map<Id, R>, order: seq<Id>, p: R -> bool)
    requires Listed(rows, order)
    ensures forall x :: x in Matching(rows, order, p) ==>
      p(x) && exists i :: 0 <= i < |order| && rows[order[i]] == x
  {
    if order != [] {
      var n := |order| - 1;
      var front := order[..n];
      MatchingFrom(rows, front, p);
      forall x | x in Matching(rows, order, p)
        ensures p(x) && exists i :: 0 <= i < |order| && rows[order[i]] == x
      {
        if x != rows[order[n]] {
          assert x in Matching(rows, front, p);
          var i :| 0 <= i < |front| && rows[front[i]] == x;
          assert order[i] == front[i];
        }
      }
    }
  }

  /** The matches are stored records that satisfy `p`. */
  lemma MatchingSound<R>(rows: map<Id, R>, order: seq<Id>, p: R -> bool, key: R -> Id)
    requires Listed(rows, order)
    requires forall id :: id in rows ==> key(rows[id]) == id
    ensures forall x :: x in Matching(rows, order, p) ==> p(x) && key(x) in rows && rows[key(x)] == x
  {
    MatchingFrom(rows, order, p);
  }

  /** Every listed record that satisfies `p` is among the matches. */
  lemma {:induction false} MatchingComplete<R>(rows: map<Id, R>, order: seq<Id>, p: R -> bool)
    requires Listed(rows, order)
    ensures forall i :: 0 <= i < |order| && p(rows[order[i]]) ==> rows[order[i]] in Matching(rows, order, p)
  {
    if order != [] {
      var n := |order| - 1;
      var front := order[..n];
      MatchingComplete(rows, front, p);
      forall i | 0 <= i < |order| && p(rows[order[i]])
        ensures rows[order[i]] in Matching(rows, order, p)
      {
        if i < n {
          assert order[i] == front[i];
        }
      }
    }
  }

  /** Given chronological stamps, the matches come strictly newest first. */
  lemma {:induction false} MatchingNewestFirst<R>(rows: map<Id, R>, order: seq<Id>, p: R -> bool, stamp: R -> nat)
    requires Listed(rows, order) && Chronological(rows, order, stamp)
    ensures NewestFirst(Matching(rows, order, p), stamp)
  {
    if order != [] {
      var n := |order| - 1;
      var front := order[..n];
      var last := rows[order[n]];
      assert Chronological(rows, front, stamp) by {
        forall i, j | 0 <= i < j < |front| ensures stamp(rows[front[i]]) < stamp(rows[front[j]]) {
          assert front[i] == order[i] && front[j] == order[j];
        }
      }
      MatchingNewestFirst(rows, front, p, stamp);
      var older := Matching(rows, front, p);
      if p(last) {
        MatchingFrom(rows, front, p);
        forall b | 0 <= b < |older| ensures stamp(last) > stamp(older[b]) {
          assert older[b] in older;
          var i :| 0 <= i < |front| && rows[front[i]] == older[b];
          assert front[i] == order[i];
        }
        var s := [last] + older;
        forall a, b | 0 <= a < b < |s| ensures stamp(s[a]) > stamp(s[b]) {
          if a > 0 {
            assert s[a] == older[a - 1] && s[b] == older[b - 1];
          } else {
            assert s[b] == older[b - 1];
          }
        }
      }
    }
  }

  /** Ids in a chronological order are pairwise distinct. */
  lemma ChronologicalDistinct<R>(rows: map<Id, R>, order: seq<Id>, stamp: R -> nat)
    requires Listed(rows, order) && Chronological(rows, order, stamp)
    ensures forall i, j :: 0 <= i < j < |order| ==> order[i] != order[j]
  {
  }

  /** The ids listed in `order` whose record satisfies `p`. */
  ghost function ListedMatches<R>(rows: map<Id, R>, order: seq<Id>, p: R -> bool): set<Id> {
    set id | id in rows && id in order && p(rows[id])
  }

  /** With distinct ids, the number of matches is the number of listed ids whose record satisfies `p`. */
  lemma {:induction false} MatchingCountListed<R>(rows: map<Id, R>, order: seq<Id>, p: R -> bool)
    requires Listed(rows, order)
    requires forall i, j :: 0 <= i < j < |order| ==> order[i] != order[j]
    ensures |Matching(rows, order, p)| == |set id | id in rows && id in order && p(rows[id])|
  {
    if order == [] {
      assert ListedMatches(rows, order, p) == {};
    } else {
      var n := |order| - 1;
      var front := order[..n];
      var last := order[n];
      assert Listed(rows, front) by {
        forall i | 0 <= i < |front| ensures front[i] in rows {
          assert front[i] == order[i];
        }
      }
      assert last !in front by {
        forall i | 0 <= i < |front| ensures front[i] != last {
          assert front[i] == order[i];
        }
      }
      MatchingCountListed(rows, front, p);
      assert order == front + [last];
      CountSnoc(rows, front, last, p);
    }
  }

  /** Listing one more id adds one match when its record satisfies `p`, none otherwise. */
  lemma CountSnoc<R>(rows: map<Id, R>, front: seq<Id>, last: Id, p: R -> bool)
    requires last in rows && last !in front
    ensures |set id | id in rows && id in front + [last] && p(rows[id])|
         == |set id | id in rows && id in front && p(rows[id])| + (if p(rows[last]) then 1 else 0)
  {
    var before := set id | id in rows && id in front && p(rows[id]);
    var after := set id | id in rows && id in front + [last] && p(rows[id]);
    if p(rows[last]) {
      assert after == before + {last};
    } else {
      assert after == before;
    }
  }

  /** In a valid table the matches are exactly as many as `count` reports. */
  lemma MatchingCount<R>(rows: map<Id, R>, order: seq<Id>, clock: nat, key: R -> Id, stamp: R -> nat, p: R -> bool)
    requires Valid(rows, order, clock, key, stamp)
    ensures |Matching(rows, order, p)| == Count(rows, p)
  {
    ChronologicalDistinct(rows, order, stamp);
    MatchingCountListed(rows, order, p);
    assert (set id | id in rows && id in order && p(rows[id])) == (set id | id in rows && p(rows[id]));
  }

  /**
   * Paging covers every match: the k-th match (newest first) is item
   * k % pageSize of page k / pageSize + 1, and that page is within the
   * `totalPages` that `paginate` reports.
   */
  lemma QueryCovers<R>(rows: map<Id, R>, order: seq<Id>, clock: nat, key: R -> Id, stamp: R -> nat,
                       p: R -> bool, pageSize: int, k: nat)
    requires Valid(rows, order, clock, key, stamp) && pageSize >= 1
    requires k < |Matching(rows, order, p)|
    ensures var page := k / pageSize + 1;
      && 1 <= page <= Pagination.CeilDiv(Count(rows, p), pageSize)
      && k % pageSize < |Query(rows, order, p, page, pageSize).data|
      && Query(rows, order, p, page, pageSize).data[k % pageSize] == Matching(rows, order, p)[k]
  {
    MatchingCount(rows, order, clock, key, stamp, p);
    var q := k / pageSize;
    var m := k % pageSize;
    SkipOfPage(k, pageSize);
    var pages := Pagination.CeilDiv(Count(rows, p), pageSize);
    assert q * pageSize <= k < pages * pageSize;
    ProductMonotone(q, pages, pageSize);
    var w := Query(rows, order, p, q + 1, pageSize).data;
    assert Skip(q + 1, pageSize) + m == k;
  }

  lemma SkipOfPage(k: nat, pageSize: int)
    requires pageSize >= 1
    ensures Skip(k / pageSize + 1, pageSize) + k % pageSize == k
    ensures k % pageSize < pageSize
  {
    assert k == (k / pageSize) * pageSize + k % pageSize;
  }

  lemma ProductMonotone(a: nat, b: nat, d: int)
    requires d >= 1 && a * d < b * d
    ensures a < b
  {
    if a >= b {
      assert a * d == b * d + (a - b) * d;
      NonNegativeProduct(a - b, d);
    }
  }

  /** Everything a repository promises about the full, unpaged list of matches. */
  lemma MatchingFacts<R>(rows: map<Id, R>, order: seq<Id>, clock: nat, key: R -> Id, stamp: R -> nat, p: R -> bool)
    requires Valid(rows, order, clock, key, stamp)
    ensures var m := Matching(rows, order, p);
      && (forall x :: x in m ==> p(x) && key(x) in rows && rows[key(x)] == x)
      && (forall id :: id in rows && p(rows[id]) ==> rows[id] in m)
      && NewestFirst(m, stamp)
      && |m| == Count(rows, p)
  {
    MatchingSound(rows, order, p, key);
    MatchingComplete(rows, order, p);
    MatchingNewestFirst(rows, order, p, stamp);
    MatchingCount(rows, order, clock, key, stamp, p);
    forall id | id in rows && p(rows[id]) ensures rows[id] in Matching(rows, order, p) {
      var i :| 0 <= i < |order| && order[i] == id;
    }
  }

  /** Queries with pointwise-equal predicates list the same records. */
  lemma {:induction false} MatchingExt<R>(rows: map<Id, R>, order: seq<Id>, p: R -> bool, q: R -> bool)
    requires Listed(rows, order)
    requires forall x :: p(x) == q(x)
    ensures Matching(rows, order, p) == Matching(rows, order, q)
    ensures Count(rows, p) == Count(rows, q)
  {
    if order != [] {
      MatchingExt(rows, order[..|order| - 1], p, q);
    }
    CountIs(rows, q, set id | id in rows && p(rows[id]));
  }

  /** Everything a repository promises about one page of a query. */
  lemma QueryFacts<R>(rows: map<Id, R>, order: seq<Id>, clock: nat, key: R -> Id, stamp: R -> nat,
                      p: R -> bool, page: int, pageSize: int)
    requires Valid(rows, order, clock, key, stamp) && page >= 1 && pageSize >= 0
    ensures var r := Query(rows, order, p, page, pageSize);
      && |r.data| <= pageSize
      && (forall x :: x in r.data ==> p(x) && key(x) in rows && rows[key(x)] == x)
      && NewestFirst(r.data, stamp)
      && r.totalItems == Count(rows, p)
  {
    var all := Matching(rows, order, p);
    var skip := Skip(page, pageSize);
    var w := Window(all, skip, pageSize);
    MatchingSound(rows, order, p, key);
    MatchingNewestFirst(rows, order, p, stamp);
    forall x | x in w ensures x in all {
      var k :| 0 <= k < |w| && w[k] == x;
    }
    forall a, b | 0 <= a < b < |w| ensures stamp(w[a]) > stamp(w[b]) {
      assert w[a] == all[skip + a] && w[b] == all[skip + b];
    }
  }

  /** Adding a fresh record with the current stamp keeps a table valid. */
  lemma Insert<R>(rows: map<Id, R>, order: seq<Id>, clock: nat, key: R -> Id, stamp: R -> nat, r: R)
    requires Valid(rows, order, clock, key, stamp)
    requires key(r) != "" && key(r) !in rows && stamp(r) == clock
    ensures Valid(rows[key(r) := r], order + [key(r)], clock + 1, key, stamp)
  {
    var rows' := rows[key(r) := r];
    var order' := order + [key(r)];
    assert Listed(rows', order');
    forall i, j | 0 <= i < j < |order'| ensures stamp(rows'[order'[i]]) < stamp(rows'[order'[j]]) {
      assert order'[i] == order[i];
      if j < |order| {
        assert order'[j] == order[j];
        assert order[i] != key(r) && order[j] != key(r);
      } else {
        assert order[i] in rows;
      }
    }
  }

  /** Replacing a stored record by one with the same id and stamp keeps a table valid. */
  lemma Replace<R>(rows: map<Id, R>, order: seq<Id>, clock: nat, key: R -> Id, stamp: R -> nat, r: R)
    requires Valid(rows, order, clock, key, stamp)
    requires key(r) in rows && stamp(r) == stamp(rows[key(r)])
    ensures Valid(rows[key(r) := r], order, clock, key, stamp)
  {
  }

  /** The worked example: of 25 matches in pages of 10, page 2 holds matches 11 to 20. */
  lemma SecondPageOfTwentyFive<R>(s: seq<R>)
    requires |s| == 25
    ensures Window(s, Skip(2, 10), 10) == s[10..20]
    ensures Pagination.CeilDiv(|s|, 10) == 3
  {
  }
}
