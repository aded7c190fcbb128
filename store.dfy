/** The persistence store behind the repositories: one table per entity,
    kept in insertion order, and the identity counters of the two tables
    whose ids the database generates. */
module Store {
  import opened Common
  import opened Entities

  class Database {
    var items: seq<ItemEntity>
    var orders: seq<OrderEntity>
    var clients: seq<Client>
    var users: seq<User>
    var tokens: seq<RefreshToken>
    var nextItemId: int
    var nextOrderId: int

    /** Primary keys are unique and below the identity counters. */
    ghost predicate Valid()
      reads this
    {
      && (forall i, j :: 0 <= i < j < |items| ==> items[i].id != items[j].id)
      && (forall i :: 0 <= i < |items| ==> items[i].id < nextItemId)
      && (forall i, j :: 0 <= i < j < |orders| ==> orders[i].id != orders[j].id)
      && (forall i :: 0 <= i < |orders| ==> orders[i].id < nextOrderId)
      && UniqueUserIds(users)
    }

    constructor ()
      ensures Valid()
      ensures items == [] && orders == [] && clients == [] && users == [] && tokens == []
    {
      items, orders, clients, users, tokens := [], [], [], [], [];
      nextItemId, nextOrderId := 1, 1;
    }
  }

  ghost predicate UniqueUserIds(users: seq<User>)
  {
    forall i, j :: 0 <= i < j < |users| ==> users[i].id != users[j].id
  }

  /** `findByIdOptional` on the order table. */
  function FindOrder(orders: seq<OrderEntity>, id: Option<int>): (r: Option<OrderEntity>)
    ensures r.None? <==> (id.None? || forall k :: 0 <= k < |orders| ==> orders[k].id != id.value)
    ensures r.Some? ==> r.value in orders && r.value.id == id.value
  {
    if id.None? || orders == [] then None
    else if orders[0].id == id.value then Some(orders[0])
    else FindOrder(orders[1..], id)
  }

  /** `findByIdOptional` on the item table. */
  function FindItem(items: seq<ItemEntity>, id: int): (r: Option<ItemEntity>)
    ensures r.None? <==> forall k :: 0 <= k < |items| ==> items[k].id != id
    ensures r.Some? ==> r.value in items && r.value.id == id
  {
    if items == [] then None
    else if items[0].id == id then Some(items[0])
    else FindItem(items[1..], id)
  }

  /** `findById` on the client table: the client, or null. */
  function FindClient(clients: seq<Client>, id: Option<int>): (r: Option<Client>)
    ensures r.None? <==> (id.None? || forall k :: 0 <= k < |clients| ==> clients[k].id != id.value)
    ensures r.Some? ==> r.value in clients && r.value.id == id.value
  {
    if id.None? || clients == [] then None
    else if clients[0].id == id.value then Some(clients[0])
    else FindClient(clients[1..], id)
  }

  /** Position of the user with the given id, if stored. */
  function UserIndex(users: seq<User>, id: int): (r: Option<nat>)
    ensures r.None? <==> forall k :: 0 <= k < |users| ==> users[k].id != id
    ensures r.Some? ==> r.value < |users| && users[r.value].id == id
    ensures r.Some? ==> forall k :: 0 <= k < r.value ==> users[k].id != id
  {
    if users == [] then None
    else if users[0].id == id then Some(0)
    else match UserIndex(users[1..], id)
      case None => None
      case Some(k) => Some(k + 1)
  }

  /** `findByIdOptional` on the user table. */
  function FindUser(users: seq<User>, id: int): (r: Option<User>)
    ensures r.None? <==> forall k :: 0 <= k < |users| ==> users[k].id != id
    ensures r.Some? ==> r.value in users && r.value.id == id
  {
    match UserIndex(users, id)
    case None => None
    case Some(k) => Some(users[k])
  }
}
