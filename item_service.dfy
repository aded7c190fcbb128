/** The item service: creating items, attaching them to orders, the
    role-gated partial update, and the production and status listings. */
module ItemService {
  import opened Common
  import opened Entities
  import opened Store

  /** `AddItemRequestDto`: the material arrives as the name of a material. */
  datatype AddItemRequest = AddItemRequest(name: string, saleQuantity: int, material: string,
                                           image: string, orderId: Option<int>)

  /** `UpdateItemRequestDto`: every field may be null (`None`). */
  datatype UpdateItemRequest = UpdateItemRequest(name: Option<string>, quantity: Option<int>,
                                                 saleQuantity: Option<int>, material: Option<string>,
                                                 image: Option<string>, itemStatus: Option<ItemStatus>,
                                                 orderId: Option<int>)

  /** The editable fields of an item, as one value. */
  datatype ItemFields = ItemFields(name: string, quantity: int, saleQuantity: int, material: string,
                                   image: string, status: ItemStatus)

  function Fields(it: ItemEntity): (r: ItemFields)
    reads it
  {
    ItemFields(it.name, it.quantity, it.saleQuantity, it.material, it.image, it.status)
  }

  function Or<T>(v: Option<T>, otherwise: T): (r: T)
  {
    if v.Some? then v.value else otherwise
  }

  /** What `applyAdminUpdates` does to the fields: every non-null field of
      the request replaces the stored one. */
  function AdminPatch(f: ItemFields, req: UpdateItemRequest): (g: ItemFields)
    ensures g.name == (if req.name.Some? then req.name.value else f.name)
    ensures g.quantity == (if req.quantity.Some? then req.quantity.value else f.quantity)
    ensures g.saleQuantity == (if req.saleQuantity.Some? then req.saleQuantity.value else f.saleQuantity)
    ensures g.material == (if req.material.Some? then req.material.value else f.material)
    ensures g.image == (if req.image.Some? then req.image.value else f.image)
    ensures g.status == (if req.itemStatus.Some? then req.itemStatus.value else f.status)
  {
    ItemFields(Or(req.name, f.name), Or(req.quantity, f.quantity), Or(req.saleQuantity, f.saleQuantity),
               Or(req.material, f.material), Or(req.image, f.image), Or(req.itemStatus, f.status))
  }

  /** The request carries at least one field an administrator may set. */
  predicate AdminEdits(req: UpdateItemRequest)
  {
    req.name.Some? || req.quantity.Some? || req.saleQuantity.Some? || req.material.Some? ||
    req.image.Some? || req.itemStatus.Some?
  }

  /** What `applyOfficerUpdates` does: only quantity and status. */
  function OfficerPatch(f: ItemFields, req: UpdateItemRequest): (g: ItemFields)
    ensures g.quantity == (if req.quantity.Some? then req.quantity.value else f.quantity)
    ensures g.status == (if req.itemStatus.Some? then req.itemStatus.value else f.status)
    ensures g.name == f.name && g.saleQuantity == f.saleQuantity && g.material == f.material && g.image == f.image
  {
    f.(quantity := Or(req.quantity, f.quantity), status := Or(req.itemStatus, f.status))
  }

  /** The request carries at least one field an officer may set. */
  predicate OfficerEdits(req: UpdateItemRequest)
  {
    req.quantity.Some? || req.itemStatus.Some?
  }

  /** The part of a request an officer is allowed to apply. */
  function OfficerView(req: UpdateItemRequest): (r: UpdateItemRequest)
    ensures r.quantity == req.quantity && r.itemStatus == req.itemStatus
    ensures r.orderId == req.orderId
    ensures r.name.None? && r.saleQuantity.None? && r.material.None? && r.image.None?
  {
    UpdateItemRequest(None, req.quantity, None, None, None, req.itemStatus, req.orderId)
  }

  /** An officer's patch is an administrator's patch of the officer's part
      of the request: name, sale quantity, material and image are ignored. */
  lemma OfficerPatchIsRestrictedAdminPatch(f: ItemFields, req: UpdateItemRequest)
    ensures OfficerPatch(f, req) == AdminPatch(f, OfficerView(req))
    ensures OfficerEdits(req) <==> AdminEdits(OfficerView(req))
  {
  }

  /** An officer's patch keeps name, sale quantity, material and image,
      whatever the request says about them. */
  lemma OfficerPatchKeepsOtherFields(f: ItemFields, req: UpdateItemRequest)
    ensures var g := OfficerPatch(f, req);
            g.name == f.name && g.saleQuantity == f.saleQuantity && g.material == f.material && g.image == f.image
  {
  }

  /** A patch that sets nothing leaves the fields as they were; a patch is
      idempotent. */
  lemma AdminPatchFacts(f: ItemFields, req: UpdateItemRequest)
    ensures !AdminEdits(req) ==> AdminPatch(f, req) == f
    ensures AdminPatch(AdminPatch(f, req), req) == AdminPatch(f, req)
    ensures !OfficerEdits(req) ==> OfficerPatch(f, req) == f
    ensures OfficerPatch(OfficerPatch(f, req), req) == OfficerPatch(f, req)
  {
  }

  /** `applyOfficerUpdates`: sets quantity and status when given and
      reports whether anything was set. */
  method ApplyOfficerUpdates(item: ItemEntity, req: UpdateItemRequest) returns (updated: bool)
    modifies item`quantity, item`status
    ensures Fields(item) == OfficerPatch(old(Fields(item)), req)
    ensures updated == OfficerEdits(req)
  {
    updated := false;
    if req.quantity.Some? {
      item.quantity := req.quantity.value;
      updated := true;
    }
    if req.itemStatus.Some? {
      item.status := req.itemStatus.value;
      updated := true;
    }
  }

  /** `applyAdminUpdates`: sets every field the request gives and reports
      whether anything was set. */
  method ApplyAdminUpdates(item: ItemEntity, req: UpdateItemRequest) returns (updated: bool)
    modifies item`name, item`quantity, item`saleQuantity, item`material, item`image, item`status
    ensures Fields(item) == AdminPatch(old(Fields(item)), req)
    ensures updated == AdminEdits(req)
  {
    updated := false;
    if req.name.Some? {
      item.name := req.name.value;
      updated := true;
    }
    if req.quantity.Some? {
      item.quantity := req.quantity.value;
      updated := true;
    }
    if req.saleQuantity.Some? {
      item.saleQuantity := req.saleQuantity.value;
      updated := true;
    }
    if req.material.Some? {
      item.material := req.material.value;
      updated := true;
    }
    if req.image.Some? {
      item.image := req.image.value;
      updated := true;
    }
    if req.itemStatus.Some? {
      item.status := req.itemStatus.value;
      updated := true;
    }
  }

  /** `addItem`: a new item whose quantity starts at the sale quantity and
      whose status is IMPRESSO, attached to the requested order if one is
      named. A named order that does not exist fails and stores nothing. */
  method AddItem(db: Database, req: AddItemRequest) returns (r: Result<int>)
    requires db.Valid()
    modifies db`items, db`nextItemId
    ensures db.Valid()
    ensures r.Err? <==> (req.orderId.Some? && FindOrder(db.orders, req.orderId).None?)
    ensures r.Err? ==> r.error == OrderNotFound && db.items == old(db.items) && db.nextItemId == old(db.nextItemId)
    ensures r.Ok? ==> |db.items| == |old(db.items)| + 1 && db.items[..|old(db.items)|] == old(db.items)
    ensures r.Ok? ==>
              var it := db.items[|db.items| - 1];
              && fresh(it) && it.id == r.value && FindItem(old(db.items), r.value).None?
              && Fields(it) == ItemFields(req.name, req.saleQuantity, req.saleQuantity, req.material, req.image, Impresso)
              && (req.orderId.None? ==> it.order == null)
              && (req.orderId.Some? ==> it.order == FindOrder(db.orders, req.orderId).value)
  {
    var order: OrderEntity? := null;
    if req.orderId.Some? {
      match FindOrder(db.orders, req.orderId)
      case None =>
        return Err(OrderNotFound);
      case Some(o) =>
        order := o;
    }
    var item := new ItemEntity(db.nextItemId, req.name, req.saleQuantity, req.saleQuantity,
                               req.material, req.image, Impresso, order);
    db.items := db.items + [item];
    db.nextItemId := db.nextItemId + 1;
    r := Ok(item.id);
  }

  /** `assignOrder`: the order is looked up first, then the item; on success
      only the item's order reference is set. The order's in-memory item
      list is not touched; the listings read an order's items from this
      reference (`OrderService.ItemsOfOrder`). */
  method AssignOrder(db: Database, orderId: Option<int>, itemId: int) returns (r: Outcome)
    requires db.Valid()
    modifies db.items`order
    ensures db.Valid()
    ensures FindOrder(db.orders, orderId).None? ==> r == Fail(OrderNotFound)
    ensures FindOrder(db.orders, orderId).Some? && FindItem(db.items, itemId).None? ==> r == Fail(ItemNotFound)
    ensures r == Done <==> FindOrder(db.orders, orderId).Some? && FindItem(db.items, itemId).Some?
    ensures r == Done ==> FindItem(db.items, itemId).value.order == FindOrder(db.orders, orderId).value
    ensures forall k :: 0 <= k < |db.items| && (r != Done || db.items[k].id != itemId) ==>
              db.items[k].order == old(db.items[k].order)
  {
    var order := FindOrder(db.orders, orderId);
    if order.None? {
      return Fail(OrderNotFound);
    }
    var item := FindItem(db.items, itemId);
    if item.None? {
      return Fail(ItemNotFound);
    }
    item.value.order := order.value;
    r := Done;
  }

  /** `updateItem`: fails with ItemNotFound, then OrderNotFound for the
      request's order (which is only checked, never assigned). An ADMIN
      caller applies the whole patch, otherwise an OFFICER applies the
      officer's part, and anyone else is forbidden. A patch that sets
      nothing the caller may set fails with InvalidEditParameter. */
  method UpdateItem(db: Database, itemId: int, req: UpdateItemRequest, roles: set<UserRole>) returns (r: Outcome)
    requires db.Valid()
    modifies db.items`name, db.items`quantity, db.items`saleQuantity, db.items`material, db.items`image, db.items`status
    ensures db.Valid()
    ensures FindItem(db.items, itemId).None? ==> r == Fail(ItemNotFound)
    ensures FindItem(db.items, itemId).Some? && FindOrder(db.orders, req.orderId).None? ==> r == Fail(OrderNotFound)
    ensures FindItem(db.items, itemId).Some? && FindOrder(db.orders, req.orderId).Some? ==>
              var it := FindItem(db.items, itemId).value;
              if Admin in roles then
                Fields(it) == AdminPatch(old(Fields(it)), req) &&
                r == (if AdminEdits(req) then Done else Fail(InvalidEditParameter))
              else if Officer in roles then
                Fields(it) == OfficerPatch(old(Fields(it)), req) &&
                r == (if OfficerEdits(req) then Done else Fail(InvalidEditParameter))
              else
                r == Fail(Forbidden)
    ensures forall k :: 0 <= k < |db.items| && (r != Done || db.items[k].id != itemId) ==>
              Fields(db.items[k]) == old(Fields(db.items[k]))
  {
    var found := FindItem(db.items, itemId);
    if found.None? {
      return Fail(ItemNotFound);
    }
    var item := found.value;
    if FindOrder(db.orders, req.orderId).None? {
      return Fail(OrderNotFound);
    }
    var updated: bool;
    if Admin in roles {
      updated := ApplyAdminUpdates(item, req);
    } else if Officer in roles {
      updated := ApplyOfficerUpdates(item, req);
    } else {
      return Fail(Forbidden);
    }
    if !updated {
      AdminPatchFacts(old(Fields(item)), req);
      return Fail(InvalidEditParameter);
    }
    r := Done;
  }

  /** `findItemById`. */
  function FindItemById(items: seq<ItemEntity>, itemId: int): (r: Result<ItemEntity>)
    ensures r.Err? <==> forall k :: 0 <= k < |items| ==> items[k].id != itemId
    ensures r.Err? ==> r.error == ItemNotFound
    ensures r.Ok? ==> r.value in items && r.value.id == itemId
  {
    match FindItem(items, itemId)
    case None => Err(ItemNotFound)
    case Some(it) => Ok(it)
  }

  /** `ListItemProductionLineResponse`: the item's fields and the id of its
      order, or null. */
  datatype ItemLine = ItemLine(name: string, quantity: int, saleQuantity: int, material: string,
                               image: string, status: ItemStatus, orderId: Option<int>)

  function Line(it: ItemEntity): (r: ItemLine)
    reads it
    ensures r.orderId.None? <==> it.order == null
    ensures r.orderId.Some? ==> r.orderId.value == it.order.id
    ensures ItemFields(r.name, r.quantity, r.saleQuantity, r.material, r.image, r.status) == Fields(it)
  {
    ItemLine(it.name, it.quantity, it.saleQuantity, it.material, it.image, it.status,
             if it.order == null then None else Some(it.order.id))
  }

  function Lines(s: seq<ItemEntity>): (r: seq<ItemLine>)
    reads s
    ensures |r| == |s|
    ensures forall k :: 0 <= k < |s| ==> r[k] == Line(s[k])
  {
    if s == [] then [] else [Line(s[0])] + Lines(s[1..])
  }

  /** The items in one of the six production statuses, in table order,
      each as often as in the table. */
  function ItemsInProduction(items: seq<ItemEntity>): (r: seq<ItemEntity>)
    reads items
    ensures |r| <= |items|
    ensures forall x :: x in r ==> x in items && InProductionStatus(x.status)
    ensures forall x :: x in items && InProductionStatus(x.status) ==> x in r
    ensures multiset(r) <= multiset(items)
    ensures forall x :: x in items && InProductionStatus(x.status) ==> multiset(r)[x] == multiset(items)[x]
  {
    if items == [] then []
    else
      var t := items[1..];
      assert items == [items[0]] + t;
      var rt := ItemsInProduction(t);
      FilterCons(items[0], t, rt, InProductionStatus(items[0].status));
      if InProductionStatus(items[0].status) then [items[0]] + rt else rt
  }

  /** The items with the given status, in table order, each as often as in
      the table. */
  function ItemsWithStatus(items: seq<ItemEntity>, status: ItemStatus): (r: seq<ItemEntity>)
    reads items
    ensures |r| <= |items|
    ensures forall x :: x in r ==> x in items && x.status == status
    ensures forall x :: x in items && x.status == status ==> x in r
    ensures multiset(r) <= multiset(items)
    ensures forall x :: x in items && x.status == status ==> multiset(r)[x] == multiset(items)[x]
  {
    if items == [] then []
    else
      var t := items[1..];
      assert items == [items[0]] + t;
      var rt := ItemsWithStatus(t, status);
      FilterCons(items[0], t, rt, items[0].status == status);
      if items[0].status == status then [items[0]] + rt else rt
  }

  /** `listProduction(page, pageSize)`: page `page` of the items in the six
      production statuses, in table order, each as its line. */
  function ListProduction(items: seq<ItemEntity>, page: nat, pageSize: nat): (r: seq<ItemLine>)
    reads items
    ensures var all, first := ItemsInProduction(items), page * pageSize;
            forall k :: 0 <= k < |r| ==> first + k < |all| && r[k] == Line(all[first + k])
    ensures var all, first := ItemsInProduction(items), page * pageSize;
            |r| == if first >= |all| then 0 else if |all| - first < pageSize then |all| - first else pageSize
    ensures forall k :: 0 <= k < |r| ==> InProductionStatus(r[k].status)
  {
    var all := ItemsInProduction(items);
    var rows := Page(all, page, pageSize);
    PageIsSubset(all, page, pageSize);
    Lines(rows)
  }

  /** A page as large as the table lists every item in production. */
  lemma ListProductionComplete(items: seq<ItemEntity>)
    ensures forall k :: 0 <= k < |items| && InProductionStatus(items[k].status) ==>
              Line(items[k]) in ListProduction(items, 0, |items|)
  {
    var rows := ItemsInProduction(items);
    assert Page(rows, 0, |items|) == rows;
    forall k | 0 <= k < |items| && InProductionStatus(items[k].status)
      ensures Line(items[k]) in ListProduction(items, 0, |items|)
    {
      var m :| 0 <= m < |rows| && rows[m] == items[k];
      assert Lines(rows)[m] == Line(items[k]);
    }
  }

  /** `findByStatus(status)`: a null status is rejected; otherwise the lines
      of exactly the items with that status. */
  function FindByStatus(items: seq<ItemEntity>, status: Option<ItemStatus>): (r: Result<seq<ItemLine>>)
    reads items
    ensures r.Err? <==> status.None?
    ensures r.Err? ==> r.error == NullPointer
    ensures r.Ok? ==> var rows := ItemsWithStatus(items, status.value);
              |r.value| == |rows| && forall k :: 0 <= k < |rows| ==> rows[k] in items && r.value[k] == Line(rows[k])
    ensures r.Ok? ==> forall k :: 0 <= k < |r.value| ==> r.value[k].status == status.value
    ensures r.Ok? ==> forall k :: 0 <= k < |items| && items[k].status == status.value ==> Line(items[k]) in r.value
  {
    if status.None? then Err(NullPointer)
    else
      StatusLinesFacts(items, status.value);
      Ok(Lines(ItemsWithStatus(items, status.value)))
  }

  lemma StatusLinesFacts(items: seq<ItemEntity>, status: ItemStatus)
    ensures var rows := ItemsWithStatus(items, status);
            && (forall k :: 0 <= k < |rows| ==> rows[k] in items && rows[k].status == status)
            && forall k :: 0 <= k < |items| && items[k].status == status ==> Line(items[k]) in Lines(rows)
  {
    var rows := ItemsWithStatus(items, status);
    forall k | 0 <= k < |items| && items[k].status == status ensures Line(items[k]) in Lines(rows) {
      var m :| 0 <= m < |rows| && rows[m] == items[k];
      assert Lines(rows)[m] == Line(items[k]);
    }
  }
}
