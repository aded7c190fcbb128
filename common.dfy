/** Failure-carrying results, the service layer's error tags and the
    slice that a Panache `page(p, s)` query returns. */
module Common {

  datatype Option<T> = None | Some(value: T)

  /** The exceptions the services raise, as tags. */
  datatype Error =
    | OrderNotFound
    | ItemNotFound
    | UserNotFound
    | UserAlreadyExists
    | Forbidden
    | InvalidEditParameter
    | IllegalArgument
    | NullPointer

  datatype Result<T> = Ok(value: T) | Err(error: Error)

  /** The result of a `void` service method: it returns normally or throws. */
  datatype Outcome = Done | Fail(error: Error)

  /** The rows that a query paged with `Page.of(page, pageSize)` returns:
      the slice that starts at row `page * pageSize` and holds at most
      `pageSize` rows. */
  function Page<T>(rows: seq<T>, page: nat, pageSize: nat): (r: seq<T>)
    ensures |r| <= pageSize
    ensures page * pageSize >= |rows| ==> r == []
    ensures page * pageSize < |rows| ==> |r| == if |rows| - page * pageSize < pageSize then |rows| - page * pageSize else pageSize
    ensures forall k :: 0 <= k < |r| ==> page * pageSize + k < |rows| && r[k] == rows[page * pageSize + k]
  {
    var first := page * pageSize;
    if first >= |rows| then []
    else if |rows| - first < pageSize then rows[first..]
    else rows[first..first + pageSize]
  }

  /** Every row of a page is a row of the table. */
  lemma PageIsSubset<T>(rows: seq<T>, page: nat, pageSize: nat)
    ensures forall x :: x in Page(rows, page, pageSize) ==> x in rows
  {
    var r := Page(rows, page, pageSize);
    forall x | x in r ensures x in rows {
      var k :| 0 <= k < |r| && r[k] == x;
      assert rows[page * pageSize + k] == x;
    }
  }

  /** Bookkeeping for a filter that keeps or drops the head `x` of `[x] + t`
      and keeps `rt` of `t`: counts that agreed on `t` agree on `[x] + t`. */
  lemma FilterCons<T>(x: T, t: seq<T>, rt: seq<T>, keep: bool)
    requires multiset(rt) <= multiset(t)
    ensures multiset(if keep then [x] + rt else rt) <= multiset([x] + t)
    ensures keep ==> forall y :: multiset(rt)[y] == multiset(t)[y] ==> multiset([x] + rt)[y] == multiset([x] + t)[y]
    ensures !keep ==> forall y :: y != x && multiset(rt)[y] == multiset(t)[y] ==> multiset(rt)[y] == multiset([x] + t)[y]
    ensures x !in t ==> multiset(rt)[x] == multiset(t)[x]
  {
  }
}
