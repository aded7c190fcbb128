/** The order table's queries: filter by status, the "last sent" sort,
    posted-date ranges and the four most recent orders. */
module OrderRepository {
  import opened Common
  import opened Entities

  /** `find("status", status)`: the orders with that status, in table order. */
  function WithStatus(orders: seq<OrderEntity>, status: OrderStatus): (r: seq<OrderEntity>)
    reads orders
    ensures |r| <= |orders|
    ensures forall x :: x in r ==> x in orders && x.status == status
    ensures forall o :: o in orders && o.status == status ==> o in r
    ensures multiset(r) <= multiset(orders)
    ensures forall o :: o in orders && o.status == status ==> multiset(r)[o] == multiset(orders)[o]
  {
    if orders == [] then []
    else
      var t := orders[1..];
      assert orders == [orders[0]] + t;
      var rt := WithStatus(t, status);
      FilterCons(orders[0], t, rt, orders[0].status == status);
      if orders[0].status == status then [orders[0]] + rt else rt
  }

  /** `listOrdersInProduction(page, pageSize)`: one page of the orders in
      production, in table order. */
  function ListOrdersInProduction(orders: seq<OrderEntity>, page: nat, pageSize: nat): (r: seq<OrderEntity>)
    reads orders
    ensures var all, first := WithStatus(orders, Producao), page * pageSize;
            forall k :: 0 <= k < |r| ==> first + k < |all| && r[k] == all[first + k]
    ensures var all, first := WithStatus(orders, Producao), page * pageSize;
            |r| == if first >= |all| then 0 else if |all| - first < pageSize then |all| - first else pageSize
    ensures forall k :: 0 <= k < |r| ==> r[k] in orders && r[k].status == Producao
  {
    var rows := WithStatus(orders, Producao);
    PageIsSubset(rows, page, pageSize);
    Page(rows, page, pageSize)
  }

  /** The two orderings the repository asks the database for. */
  datatype SortKey =
    | DeliveryDateThenIdDesc  // deliveryDate descending, then id descending
    | IdDesc                  // id descending

  /** `a` may come before `b` in the given ordering. */
  predicate Precedes(a: OrderEntity, b: OrderEntity, key: SortKey)
    reads a, b
  {
    match key
    case DeliveryDateThenIdDesc =>
      a.deliveryDate > b.deliveryDate || (a.deliveryDate == b.deliveryDate && a.id >= b.id)
    case IdDesc => a.id >= b.id
  }

  ghost predicate SortedBy(s: seq<OrderEntity>, key: SortKey)
    reads s
  {
    forall i, j :: 0 <= i < j < |s| ==> Precedes(s[i], s[j], key)
  }

  ghost predicate DistinctIds(s: seq<OrderEntity>)
  {
    forall i, j :: 0 <= i < j < |s| ==> s[i].id != s[j].id
  }

  /** Inserts `o` in front of the first element it precedes. */
  function Insert(o: OrderEntity, s: seq<OrderEntity>, key: SortKey): (r: seq<OrderEntity>)
    reads o, s
    ensures multiset(r) == multiset(s) + multiset{o}
    ensures forall k :: 0 <= k < |r| ==> r[k] == o || r[k] in s
  {
    if s == [] then [o]
    else if Precedes(o, s[0], key) then [o] + s
    else
      assert s == [s[0]] + s[1..];
      [s[0]] + Insert(o, s[1..], key)
  }

  /** What the database returns for an `ORDER BY` on the key (its order
      among equal keys is not fixed by SQL; this one is insertion sort's). */
  function SortOrders(s: seq<OrderEntity>, key: SortKey): (r: seq<OrderEntity>)
    reads s
    ensures multiset(r) == multiset(s)
    ensures forall k :: 0 <= k < |r| ==> r[k] in s
  {
    if s == [] then []
    else
      assert s == [s[0]] + s[1..];
      var t := SortOrders(s[1..], key);
      Insert(s[0], t, key)
  }

  lemma {:induction false} InsertSorted(o: OrderEntity, s: seq<OrderEntity>, key: SortKey)
    requires SortedBy(s, key)
    ensures SortedBy(Insert(o, s, key), key)
  {
    if s != [] && !Precedes(o, s[0], key) {
      var t := Insert(o, s[1..], key);
      InsertSorted(o, s[1..], key);
      forall k | 0 <= k < |t| ensures Precedes(s[0], t[k], key) {
        if t[k] != o {
          var m :| 0 <= m < |s[1..]| && s[1..][m] == t[k];
          assert s[m + 1] == t[k];
        }
      }
      assert Insert(o, s, key) == [s[0]] + t;
    }
  }

  lemma {:induction false} DistinctIdsTail(s: seq<OrderEntity>)
    requires s != [] && DistinctIds(s)
    ensures DistinctIds(s[1..])
  {
    forall i, j | 0 <= i < j < |s[1..]| ensures s[1..][i].id != s[1..][j].id {
      assert s[1..][i] == s[i + 1] && s[1..][j] == s[j + 1];
    }
  }

  lemma {:induction false} DistinctIdsCons(x: OrderEntity, s: seq<OrderEntity>)
    requires DistinctIds(s)
    requires forall k :: 0 <= k < |s| ==> x.id != s[k].id
    ensures DistinctIds([x] + s)
  {
    forall i, j | 0 <= i < j < |[x] + s| ensures ([x] + s)[i].id != ([x] + s)[j].id {
      assert ([x] + s)[j] == s[j - 1];
      if i > 0 { assert ([x] + s)[i] == s[i - 1]; }
    }
  }

  lemma {:induction false} InsertDistinct(o: OrderEntity, s: seq<OrderEntity>, key: SortKey)
    requires DistinctIds([o] + s)
    ensures DistinctIds(Insert(o, s, key))
  {
    if s != [] && !Precedes(o, s[0], key) {
      var os := [o] + s;
      assert os[1..] == s;
      DistinctIdsTail(os);
      assert DistinctIds([o] + s[1..]) by {
        DistinctIdsTail(s);
        forall k | 0 <= k < |s[1..]| ensures o.id != s[1..][k].id {
          assert os[0] == o && os[k + 2] == s[1..][k];
        }
        DistinctIdsCons(o, s[1..]);
      }
      var t := Insert(o, s[1..], key);
      InsertDistinct(o, s[1..], key);
      forall k | 0 <= k < |t| ensures s[0].id != t[k].id {
        assert os[1] == s[0];
        if t[k] == o {
          assert os[0] == o;
        } else {
          var m :| 0 <= m < |s[1..]| && s[1..][m] == t[k];
          assert os[m + 2] == t[k];
        }
      }
      DistinctIdsCons(s[0], t);
      assert Insert(o, s, key) == [s[0]] + t;
    }
  }

  /** The sorted table is ordered by the key. */
  lemma {:induction false} SortOrdersSorted(s: seq<OrderEntity>, key: SortKey)
    ensures SortedBy(SortOrders(s, key), key)
  {
    if s != [] {
      SortOrdersSorted(s[1..], key);
      InsertSorted(s[0], SortOrders(s[1..], key), key);
    }
  }

  /** Sorting keeps the ids distinct when they were. */
  lemma {:induction false} SortOrdersDistinct(s: seq<OrderEntity>, key: SortKey)
    requires DistinctIds(s)
    ensures DistinctIds(SortOrders(s, key))
  {
    if s != [] {
      DistinctIdsTail(s);
      SortOrdersDistinct(s[1..], key);
      var t := SortOrders(s[1..], key);
      forall k | 0 <= k < |t| ensures s[0].id != t[k].id {
        var m :| 0 <= m < |s[1..]| && s[1..][m] == t[k];
        assert s[m + 1] == t[k];
      }
      DistinctIdsCons(s[0], t);
      InsertDistinct(s[0], t, key);
    }
  }

  /** A page of a sorted table is sorted. */
  lemma {:induction false} PageSorted(s: seq<OrderEntity>, page: nat, pageSize: nat, key: SortKey)
    requires SortedBy(s, key)
    ensures SortedBy(Page(s, page, pageSize), key)
  {
    var r := Page(s, page, pageSize);
    forall i, j | 0 <= i < j < |r| ensures Precedes(r[i], r[j], key) {
      assert r[i] == s[page * pageSize + i] && r[j] == s[page * pageSize + j];
    }
  }

  /** Every row of `p` is a row of `rows`. */
  ghost predicate RowsWithin(older p: seq<OrderEntity>, rows: seq<OrderEntity>)
  {
    forall k :: 0 <= k < |p| ==> p[k] in rows
  }

  /** `r` is page `page` of some arrangement of exactly the rows of `rows`
      that is ordered by `key`. */
  ghost predicate SortedPageOf(r: seq<OrderEntity>, rows: seq<OrderEntity>, key: SortKey, page: nat, pageSize: nat)
    reads rows
  {
    exists p :: RowsWithin(p, rows) && multiset(p) == multiset(rows) && SortedBy(p, key) && r == Page(p, page, pageSize)
  }

  /** `findLastSent(page, pageSize)`: posted orders, most recent delivery
      first, ties broken by the larger id. */
  function FindLastSent(orders: seq<OrderEntity>, page: nat, pageSize: nat): (r: seq<OrderEntity>)
    reads orders
    ensures |r| <= pageSize
    ensures forall k :: 0 <= k < |r| ==> r[k] in orders && r[k].status == Postado
    ensures SortedBy(r, DeliveryDateThenIdDesc)
    ensures SortedPageOf(r, WithStatus(orders, Postado), DeliveryDateThenIdDesc, page, pageSize)
  {
    var posted := WithStatus(orders, Postado);
    assert forall k :: 0 <= k < |posted| ==> posted[k] in orders;
    LastSentFacts(posted, page, pageSize);
    Page(SortOrders(posted, DeliveryDateThenIdDesc), page, pageSize)
  }

  lemma {:induction false} LastSentFacts(posted: seq<OrderEntity>, page: nat, pageSize: nat)
    ensures var r := Page(SortOrders(posted, DeliveryDateThenIdDesc), page, pageSize);
            && SortedBy(r, DeliveryDateThenIdDesc)
            && (forall k :: 0 <= k < |r| ==> r[k] in posted)
            && SortedPageOf(r, posted, DeliveryDateThenIdDesc, page, pageSize)
  {
    var sorted := SortOrders(posted, DeliveryDateThenIdDesc);
    SortOrdersSorted(posted, DeliveryDateThenIdDesc);
    PageSorted(sorted, page, pageSize, DeliveryDateThenIdDesc);
    PageWithin(sorted, posted, page, pageSize);
    assert RowsWithin(sorted, posted) && multiset(sorted) == multiset(posted);
  }

  lemma PageWithin(s: seq<OrderEntity>, t: seq<OrderEntity>, page: nat, pageSize: nat)
    requires forall k :: 0 <= k < |s| ==> s[k] in t
    ensures forall k :: 0 <= k < |Page(s, page, pageSize)| ==> Page(s, page, pageSize)[k] in t
  {
  }

  /** The database's `postedDate >= start and postedDate <= end`: a null
      posted date compares as unknown and never matches. */
  predicate PostedWithin(o: OrderEntity, start: int, end: int)
    reads o
  {
    o.postedDate.Some? && start <= o.postedDate.value <= end
  }

  /** `findByPostedDateBetween(start, end)`: the orders posted within the
      bounds, in table order, each as often as in the table. */
  function FindByPostedDateBetween(orders: seq<OrderEntity>, start: int, end: int): (r: seq<OrderEntity>)
    reads orders
    ensures |r| <= |orders|
    ensures forall x :: x in r ==> x in orders && PostedWithin(x, start, end)
    ensures forall o :: o in orders && PostedWithin(o, start, end) ==> o in r
    ensures multiset(r) <= multiset(orders)
    ensures forall o :: o in orders && PostedWithin(o, start, end) ==> multiset(r)[o] == multiset(orders)[o]
  {
    if orders == [] then []
    else
      var t := orders[1..];
      assert orders == [orders[0]] + t;
      var rt := FindByPostedDateBetween(t, start, end);
      FilterCons(orders[0], t, rt, PostedWithin(orders[0], start, end));
      if PostedWithin(orders[0], start, end) then [orders[0]] + rt else rt
  }

  /** `countByPostedDateBetween(start, end)`. */
  function CountByPostedDateBetween(orders: seq<OrderEntity>, start: int, end: int): (n: nat)
    reads orders
    ensures n <= |orders|
    ensures n == 0 <==> forall k :: 0 <= k < |orders| ==> !PostedWithin(orders[k], start, end)
  {
    if orders == [] then 0
    else (if PostedWithin(orders[0], start, end) then 1 else 0) + CountByPostedDateBetween(orders[1..], start, end)
  }

  /** The count query and the list query agree on the same bounds. */
  lemma {:induction false} CountMatchesFind(orders: seq<OrderEntity>, start: int, end: int)
    ensures CountByPostedDateBetween(orders, start, end) == |FindByPostedDateBetween(orders, start, end)|
  {
    if orders != [] {
      CountMatchesFind(orders[1..], start, end);
    }
  }

  /** Ids strictly decrease along `s`. */
  ghost predicate StrictlyDescendingIds(s: seq<OrderEntity>)
  {
    forall i, j :: 0 <= i < j < |s| ==> s[i].id > s[j].id
  }

  /** Every row of `all` that is not in `top` has an id no larger than any
      row of `top`. */
  ghost predicate NoLargerOmitted(all: seq<OrderEntity>, top: seq<OrderEntity>)
  {
    forall m :: 0 <= m < |all| ==> all[m] in top || forall k :: 0 <= k < |top| ==> all[m].id <= top[k].id
  }

  /** A prefix of a sequence sorted by id descending leaves out no row with
      a larger id. */
  lemma {:induction false} PrefixHasLargest(sorted: seq<OrderEntity>, n: nat)
    requires SortedBy(sorted, IdDesc) && n <= |sorted|
    ensures NoLargerOmitted(sorted, sorted[..n])
  {
    var top := sorted[..n];
    forall m | 0 <= m < |sorted| ensures sorted[m] in top || forall k :: 0 <= k < |top| ==> sorted[m].id <= top[k].id {
      if m < n {
        assert top[m] == sorted[m];
      } else {
        forall k | 0 <= k < |top| ensures sorted[m].id <= top[k].id {
          assert top[k] == sorted[k];
        }
      }
    }
  }

  /** NoLargerOmitted depends on the rows of `all` only, not their order. */
  lemma {:induction false} NoLargerOmittedPermuted(all: seq<OrderEntity>, sorted: seq<OrderEntity>, top: seq<OrderEntity>)
    requires multiset(sorted) == multiset(all) && NoLargerOmitted(sorted, top)
    ensures NoLargerOmitted(all, top)
  {
    forall m | 0 <= m < |all| ensures all[m] in top || forall k :: 0 <= k < |top| ==> all[m].id <= top[k].id {
      assert all[m] in multiset(sorted);
      var i :| 0 <= i < |sorted| && sorted[i] == all[m];
    }
  }

  /** The first `n` rows on page 0 are a prefix. */
  lemma {:induction false} FirstPageIsPrefix<T>(rows: seq<T>, n: nat)
    ensures Page(rows, 0, n) == rows[..if |rows| < n then |rows| else n]
  {
    var r, m := Page(rows, 0, n), if |rows| < n then |rows| else n;
    forall k | 0 <= k < |r| ensures r[k] == rows[..m][k] {
      assert r[k] == rows[0 * n + k];
    }
  }

  /** The first page of four of the table sorted by id descending is in
      id order, strictly so when the ids are distinct. */
  lemma {:induction false} Top4Ordered(orders: seq<OrderEntity>)
    ensures var r := Page(SortOrders(orders, IdDesc), 0, 4);
            && SortedBy(r, IdDesc)
            && (DistinctIds(orders) ==> StrictlyDescendingIds(r))
  {
    var sorted := SortOrders(orders, IdDesc);
    SortOrdersSorted(orders, IdDesc);
    PageSorted(sorted, 0, 4, IdDesc);
    if DistinctIds(orders) {
      SortOrdersDistinct(orders, IdDesc);
      var r := Page(sorted, 0, 4);
      assert forall k :: 0 <= k < |r| ==> r[k] == sorted[k];
    }
  }

  /** The first page of four of the table sorted by id descending holds
      four orders of the table (all of them when there are fewer) and no
      order left out has a larger id than one listed. */
  lemma {:induction false} Top4Largest(orders: seq<OrderEntity>)
    ensures var r := Page(SortOrders(orders, IdDesc), 0, 4);
            && |r| == (if |orders| < 4 then |orders| else 4)
            && (forall k :: 0 <= k < |r| ==> r[k] in orders)
            && NoLargerOmitted(orders, r)
  {
    var sorted := SortOrders(orders, IdDesc);
    assert |sorted| == |orders| by { assert |multiset(sorted)| == |multiset(orders)|; }
    var n := if |orders| < 4 then |orders| else 4;
    FirstPageIsPrefix(sorted, 4);
    SortOrdersSorted(orders, IdDesc);
    PrefixHasLargest(sorted, n);
    NoLargerOmittedPermuted(orders, sorted, sorted[..n]);
  }

  /** `findTop4ByOrderByIdDesc`: the four orders with the largest ids,
      largest first. */
  function FindTop4ByIdDesc(orders: seq<OrderEntity>): (r: seq<OrderEntity>)
    reads orders
    ensures |r| == if |orders| < 4 then |orders| else 4
    ensures forall k :: 0 <= k < |r| ==> r[k] in orders
    ensures SortedBy(r, IdDesc)
    ensures DistinctIds(orders) ==> StrictlyDescendingIds(r)
    ensures NoLargerOmitted(orders, r)
  {
    Top4Ordered(orders);
    Top4Largest(orders);
    Page(SortOrders(orders, IdDesc), 0, 4)
  }
}
