/** The order service: creating an order and the three order listings. */
module OrderService {
  import opened Common
  import opened Entities
  import opened Store
  import OrderRepository

  /** `CreateOrderReqDto`: the dates as epoch days and an optional client id. */
  datatype CreateOrderRequest = CreateOrderRequest(saleDate: int, deliveryDate: int, clientId: Option<int>)

  /** `createOrder`: the client is whatever the lookup returns (possibly
      none; no error is raised), the order starts unposted in PRODUCAO, and
      exactly this one order is added to the table. The dates are stored
      as given. */
  method CreateOrder(db: Database, req: CreateOrderRequest) returns (o: OrderEntity)
    requires db.Valid()
    modifies db`orders, db`nextOrderId
    ensures db.Valid()
    ensures fresh(o) && db.orders == old(db.orders) + [o]
    ensures o.id == old(db.nextOrderId) && FindOrder(old(db.orders), Some(o.id)).None?
    ensures o.status == Producao && !o.posted && o.postedDate.None? && o.items == []
    ensures o.saleDate == req.saleDate && o.deliveryDate == req.deliveryDate
    ensures o.client == FindClient(db.clients, req.clientId)
  {
    var client := FindClient(db.clients, req.clientId);
    o := new OrderEntity(db.nextOrderId, req.saleDate, req.deliveryDate, false, client, Producao);
    db.orders := db.orders + [o];
    db.nextOrderId := db.nextOrderId + 1;
  }

  /** `ListOrdersResponseDto`. */
  datatype OrderSummary = OrderSummary(saleDate: int, deliveryDate: int, posted: bool, clientName: string,
                                       status: OrderStatus)

  /** Maps each order to its summary; `getClient().getClientName()` on an
      order without a client throws, which fails the whole listing. */
  function Summaries(os: seq<OrderEntity>): (r: Result<seq<OrderSummary>>)
    reads os
    ensures r.Err? <==> exists k :: 0 <= k < |os| && os[k].client.None?
    ensures r.Err? ==> r.error == NullPointer
    ensures r.Ok? ==> |r.value| == |os|
    ensures r.Ok? ==> forall k :: 0 <= k < |os| ==>
              r.value[k] == OrderSummary(os[k].saleDate, os[k].deliveryDate, os[k].posted,
                                         os[k].client.value.name, os[k].status)
  {
    if os == [] then Ok([])
    else if os[0].client.None? then Err(NullPointer)
    else match Summaries(os[1..])
      case Err(e) => Err(e)
      case Ok(rest) =>
        var o := os[0];
        Ok([OrderSummary(o.saleDate, o.deliveryDate, o.posted, o.client.value.name, o.status)] + rest)
  }

  /** `listOrders(page, pageSize)`: at most `pageSize` summaries, entry `k`
      mirroring row `page * pageSize + k` of the table; an order on the page
      without a client fails the call. */
  function ListOrders(orders: seq<OrderEntity>, page: nat, pageSize: nat): (r: Result<seq<OrderSummary>>)
    reads orders
    ensures var first := page * pageSize;
            r.Ok? ==> |r.value| == if first >= |orders| then 0 else if |orders| - first < pageSize then |orders| - first else pageSize
    ensures r.Err? <==> exists k :: 0 <= k < |Page(orders, page, pageSize)| && Page(orders, page, pageSize)[k].client.None?
    ensures r.Err? ==> r.error == NullPointer
  {
    Summaries(Page(orders, page, pageSize))
  }

  lemma {:induction false} ListOrdersRows(orders: seq<OrderEntity>, page: nat, pageSize: nat)
    ensures var r, first := ListOrders(orders, page, pageSize), page * pageSize;
            r.Ok? ==> forall k :: 0 <= k < |r.value| ==>
              first + k < |orders| &&
              r.value[k] == OrderSummary(orders[first + k].saleDate, orders[first + k].deliveryDate,
                                         orders[first + k].posted, orders[first + k].client.value.name,
                                         orders[first + k].status)
  {
    var first := page * pageSize;
    var rows := Page(orders, page, pageSize);
    assert forall k :: 0 <= k < |rows| ==> first + k < |orders| && rows[k] == orders[first + k];
  }

  /** `listOrdersInProduction(page, pageSize)`: entry `k` summarises row
      `k` of the repository's page of PRODUCAO orders; an order on the page
      without a client fails the call. */
  function ListOrdersInProduction(orders: seq<OrderEntity>, page: nat, pageSize: nat): (r: Result<seq<OrderSummary>>)
    reads orders
    ensures var rows := OrderRepository.ListOrdersInProduction(orders, page, pageSize);
            r.Err? <==> exists k :: 0 <= k < |rows| && rows[k].client.None?
    ensures r.Err? ==> r.error == NullPointer
    ensures var rows := OrderRepository.ListOrdersInProduction(orders, page, pageSize);
            r.Ok? ==> |r.value| == |rows| <= pageSize && forall k :: 0 <= k < |rows| ==>
              r.value[k] == OrderSummary(rows[k].saleDate, rows[k].deliveryDate, rows[k].posted,
                                         rows[k].client.value.name, Producao)
  {
    var rows := OrderRepository.ListOrdersInProduction(orders, page, pageSize);
    Summaries(rows)
  }

  /** `ItemResponseDto`. */
  datatype ItemResponse = ItemResponse(id: int, name: string, quantity: int, saleQuantity: int,
                                       material: string, image: string, status: ItemStatus)

  function ItemResponses(items: seq<ItemEntity>): (r: seq<ItemResponse>)
    reads items
    ensures |r| == |items|
    ensures forall k :: 0 <= k < |items| ==>
              r[k] == ItemResponse(items[k].id, items[k].name, items[k].quantity, items[k].saleQuantity,
                                   items[k].material, items[k].image, items[k].status)
  {
    if items == [] then []
    else
      var it := items[0];
      [ItemResponse(it.id, it.name, it.quantity, it.saleQuantity, it.material, it.image, it.status)] +
      ItemResponses(items[1..])
  }

  /** `ListOrderProductionResponseDto`. */
  datatype ProductionOrder = ProductionOrder(clientName: string, status: OrderStatus, items: seq<ItemResponse>)

  /** `getItems()` of the `@OneToMany(mappedBy = "order")` collection: the
      rows of the item table whose order is `o`, in table order, each as
      often as in the table. */
  function ItemsOfOrder(items: seq<ItemEntity>, o: OrderEntity): (r: seq<ItemEntity>)
    reads items
    ensures forall k :: 0 <= k < |r| ==> r[k] in items && r[k].order == o
  {
    if items == [] then []
    else if items[0].order == o then [items[0]] + ItemsOfOrder(items[1..], o)
    else ItemsOfOrder(items[1..], o)
  }

  /** The order's item list misses no item that references the order and
      repeats none more often than the table does. */
  lemma {:induction false} ItemsOfOrderExact(items: seq<ItemEntity>, o: OrderEntity)
    ensures var r := ItemsOfOrder(items, o);
            && |r| <= |items|
            && (forall x :: x in items && x.order == o ==> x in r)
            && multiset(r) <= multiset(items)
            && forall x :: x in items && x.order == o ==> multiset(r)[x] == multiset(items)[x]
  {
    if items != [] {
      var t := items[1..];
      assert items == [items[0]] + t;
      ItemsOfOrderExact(t, o);
      FilterCons(items[0], t, ItemsOfOrder(t, o), items[0].order == o);
    }
  }

  /** Maps each order to its client's name, its status and the responses
      for its items; an order without a client fails the whole listing. */
  function ProductionOrders(os: seq<OrderEntity>, items: seq<ItemEntity>): (r: Result<seq<ProductionOrder>>)
    reads os, items
    ensures r.Err? <==> exists k :: 0 <= k < |os| && os[k].client.None?
    ensures r.Err? ==> r.error == NullPointer
    ensures r.Ok? ==> |r.value| == |os|
    ensures r.Ok? ==> forall k :: 0 <= k < |os| ==>
              r.value[k] == ProductionOrder(os[k].client.value.name, os[k].status, ItemResponses(ItemsOfOrder(items, os[k])))
  {
    if os == [] then Ok([])
    else if os[0].client.None? then Err(NullPointer)
    else match ProductionOrders(os[1..], items)
      case Err(e) => Err(e)
      case Ok(rest) =>
        var o := os[0];
        Ok([ProductionOrder(o.client.value.name, o.status, ItemResponses(ItemsOfOrder(items, o)))] + rest)
  }

  /** `listProduction(page, pageSize)`: entry `k` is row `k` of the page of
      PRODUCAO orders with the responses for exactly the items that
      reference it; an order on the page without a client fails the call. */
  function ListProduction(orders: seq<OrderEntity>, items: seq<ItemEntity>, page: nat, pageSize: nat): (r: Result<seq<ProductionOrder>>)
    reads orders, items
    ensures var rows := OrderRepository.ListOrdersInProduction(orders, page, pageSize);
            r.Err? <==> exists k :: 0 <= k < |rows| && rows[k].client.None?
    ensures r.Err? ==> r.error == NullPointer
    ensures var rows := OrderRepository.ListOrdersInProduction(orders, page, pageSize);
            r.Ok? ==> |r.value| == |rows| <= pageSize && forall k :: 0 <= k < |rows| ==>
              && r.value[k].clientName == rows[k].client.value.name
              && r.value[k].status == Producao
              && r.value[k].items == ItemResponses(ItemsOfOrder(items, rows[k]))
  {
    var rows := OrderRepository.ListOrdersInProduction(orders, page, pageSize);
    ProductionOrders(rows, items)
  }
}
