/** The dashboard: counts by status and the orders posted during the week
    before the current one. Dates are epoch day numbers; day 0
    (1970-01-01) was a Thursday. */
module AnalyticsService {
  import opened Common
  import opened Entities
  import opened OrderRepository
  import ItemService

  /** `LocalDate.getDayOfWeek().getValue()`: Monday is 1, Sunday is 7;
      day 4 (1970-01-05) was a Monday, so `r - 1` counts the days since
      the latest Monday. */
  function DayOfWeek(d: int): (r: int)
    ensures 1 <= r <= 7
    ensures r - 1 == (d - 4) % 7
  {
    (d + 3) % 7 + 1
  }

  /** Moving by whole days moves the weekday the same way, modulo seven. */
  lemma {:induction false} DayOfWeekShift(d: int, n: int)
    requires 0 <= DayOfWeek(d) - 1 + n < 7
    ensures DayOfWeek(d + n) == DayOfWeek(d) + n
  {
    var q := (d + 3) / 7;
    assert d + 3 == 7 * q + (DayOfWeek(d) - 1);
    assert d + n + 3 == 7 * q + (DayOfWeek(d) - 1 + n);
  }

  lemma {:induction false} DayOfWeekPeriodic(d: int)
    ensures DayOfWeek(d + 7) == DayOfWeek(d)
  {
    var q := (d + 3) / 7;
    assert d + 3 == 7 * q + (DayOfWeek(d) - 1);
    assert d + 7 + 3 == 7 * (q + 1) + (DayOfWeek(d) - 1);
  }

  /** `with(DayOfWeek.MONDAY)`: the Monday of `d`'s week, the one Monday
      among `d` and the six days before it. */
  function WithMonday(d: int): (m: int)
    ensures m <= d < m + 7
    ensures DayOfWeek(m) == 1
  {
    DayOfWeekShift(d, -(DayOfWeek(d) - 1));
    d - (DayOfWeek(d) - 1)
  }

  /** `with(DayOfWeek.SUNDAY)`: the Sunday of `d`'s week, six days after
      its Monday. */
  function WithSunday(d: int): (s: int)
    ensures d <= s < d + 7
    ensures DayOfWeek(s) == 7
    ensures s == WithMonday(d) + 6
  {
    DayOfWeekShift(d, 7 - DayOfWeek(d));
    d + (7 - DayOfWeek(d))
  }

  /** `today.minusWeeks(1).with(MONDAY)`: a Monday seven to thirteen days
      before today. */
  function LastWeekStart(today: int): (s: int)
    ensures DayOfWeek(s) == 1
    ensures today - 13 <= s <= today - 7
  {
    WithMonday(today - 7)
  }

  /** `today.minusWeeks(1).with(SUNDAY)`: the Sunday six days after the
      window's Monday and the day before the Monday of today's week, so
      today is never inside the window. */
  function LastWeekEnd(today: int): (e: int)
    ensures DayOfWeek(e) == 7
    ensures e == LastWeekStart(today) + 6
    ensures e == WithMonday(today) - 1 && e < today
  {
    var d := today - 7;
    DayOfWeekPeriodic(d);
    DayOfWeekShift(d, -(DayOfWeek(d) - 1));
    WithSunday(d)
  }

  /** `getOrdersShippedLastWeek`: the orders posted from last week's
      Monday to its Sunday, in table order, each as often as in the table. */
  function GetOrdersShippedLastWeek(orders: seq<OrderEntity>, today: int): (r: seq<OrderEntity>)
    reads orders
    ensures forall x :: x in r ==> x in orders && PostedWithin(x, LastWeekStart(today), LastWeekEnd(today))
    ensures forall o :: o in orders && PostedWithin(o, LastWeekStart(today), LastWeekEnd(today)) ==> o in r
    ensures multiset(r) <= multiset(orders)
    ensures forall o :: o in orders && PostedWithin(o, LastWeekStart(today), LastWeekEnd(today)) ==>
              multiset(r)[o] == multiset(orders)[o]
  {
    FindByPostedDateBetween(orders, LastWeekStart(today), LastWeekEnd(today))
  }

  /** `countOrdersPostedLastWeek`. */
  function CountOrdersPostedLastWeek(orders: seq<OrderEntity>, today: int): (n: nat)
    reads orders
    ensures n == |GetOrdersShippedLastWeek(orders, today)|
  {
    CountMatchesFind(orders, LastWeekStart(today), LastWeekEnd(today));
    CountByPostedDateBetween(orders, LastWeekStart(today), LastWeekEnd(today))
  }

  /** `DashboardAnalyticsResponseDTO`. */
  datatype Dashboard = Dashboard(ordersInProduction: nat, ordersWaitingShipping: nat,
                                 itemsInProduction: nat, ordersShippedLastWeek: nat)

  /** `getDashboardAnalyticsService`. */
  function GetDashboard(orders: seq<OrderEntity>, items: seq<ItemEntity>, today: int): (r: Dashboard)
    reads orders, items
    ensures r.ordersInProduction <= |orders| && r.ordersWaitingShipping <= |orders|
    ensures r.itemsInProduction <= |items|
    ensures r.ordersShippedLastWeek == |GetOrdersShippedLastWeek(orders, today)|
  {
    Dashboard(|WithStatus(orders, Producao)|, |WithStatus(orders, Finalizado)|,
              |ItemService.ItemsInProduction(items)|, CountOrdersPostedLastWeek(orders, today))
  }

  /** Orders in production and orders waiting for shipping are disjoint, so
      together they never exceed the table. */
  lemma {:induction false} DisjointStatusCounts(orders: seq<OrderEntity>, today: int, items: seq<ItemEntity>)
    ensures var d := GetDashboard(orders, items, today);
            d.ordersInProduction + d.ordersWaitingShipping <= |orders|
  {
    StatusCountsBounded(orders, Producao, Finalizado);
  }

  lemma {:induction false} StatusCountsBounded(orders: seq<OrderEntity>, a: OrderStatus, b: OrderStatus)
    requires a != b
    ensures |WithStatus(orders, a)| + |WithStatus(orders, b)| <= |orders|
  {
    if orders != [] {
      StatusCountsBounded(orders[1..], a, b);
    }
  }
}
