/** The persisted entities: enumerations, the item and order entities
    (objects, linked both ways) and the user, client and refresh-token
    records. */
module Entities {
  import opened Common

  /** Production stage of an item. */
  datatype ItemStatus = Impresso | Encartelado | EmSilk | Chapado | VersoPronto | Acabamento | Embalado

  /** Lifecycle status of an order. */
  datatype OrderStatus = Producao | Finalizado | Postado

  datatype UserRole = Officer | Admin | Dev

  /** The display name `UserRole.getRoleName()` gives. */
  function RoleName(role: UserRole): (r: string)
    ensures role == Officer ==> r == "External Officer"
    ensures role == Admin ==> r == "Administrator"
    ensures role == Dev ==> r == "Developer"
  {
    match role
    case Officer => "External Officer"
    case Admin => "Administrator"
    case Dev => "Developer"
  }

  /** The six statuses that the production line lists and counts: every
      status but EMBALADO. */
  predicate InProductionStatus(s: ItemStatus): (b: bool)
    ensures b <==> s != Embalado
  {
    match s
    case Impresso | Encartelado | EmSilk | Chapado | VersoPronto | Acabamento => true
    case Embalado => false
  }

  datatype Client = Client(id: int, name: string)

  datatype User = User(id: int, username: string, password: string, role: UserRole)

  /** A stored refresh token: the hash of the opaque string handed out, its
      owner, its expiry instant (epoch seconds) and whether it was used. */
  datatype RefreshToken = RefreshToken(tokenId: int, userId: int, tokenHash: string, expiresAt: int, revoked: bool)

  class ItemEntity {
    const id: int
    var name: string
    var quantity: int
    var saleQuantity: int
    var material: string
    var image: string
    var status: ItemStatus
    var order: OrderEntity?

    constructor (id: int, name: string, quantity: int, saleQuantity: int,
                 material: string, image: string, status: ItemStatus, order: OrderEntity?)
      ensures this.id == id && this.name == name && this.quantity == quantity
      ensures this.saleQuantity == saleQuantity && this.material == material
      ensures this.image == image && this.status == status && this.order == order
    {
      this.id := id;
      this.name := name;
      this.quantity := quantity;
      this.saleQuantity := saleQuantity;
      this.material := material;
      this.image := image;
      this.status := status;
      this.order := order;
    }
  }

  class OrderEntity {
    const id: int
    var saleDate: int
    var deliveryDate: int
    var postedDate: Option<int>
    var posted: bool
    var items: seq<ItemEntity>
    var client: Option<Client>
    var status: OrderStatus

    constructor (id: int, saleDate: int, deliveryDate: int, posted: bool,
                 client: Option<Client>, status: OrderStatus)
      ensures this.id == id && this.saleDate == saleDate && this.deliveryDate == deliveryDate
      ensures this.posted == posted && this.client == client && this.status == status
      ensures postedDate == None && items == []
    {
      this.id := id;
      this.saleDate := saleDate;
      this.deliveryDate := deliveryDate;
      this.postedDate := None;
      this.posted := posted;
      this.items := [];
      this.client := client;
      this.status := status;
    }

    /** Appends `item` to this order and points the item back at it. */
    method AddItem(item: ItemEntity)
      modifies this`items, item`order
      ensures items == old(items) + [item]
      ensures item.order == this
    {
      items := items + [item];
      item.order := this;
    }

    /** Removes the first occurrence of `item` (by identity) and clears the
        item's back-reference, whether or not it was in the list. */
    method RemoveItem(item: ItemEntity)
      modifies this`items, item`order
      ensures items == RemoveFirst(old(items), item)
      ensures item.order == null
    {
      items := RemoveFirst(items, item);
      item.order := null;
    }
  }

  /** Position of the first occurrence of `x`. */
  function IndexOf<T(==)>(s: seq<T>, x: T): (i: nat)
    requires x in s
    ensures i < |s| && s[i] == x
    ensures forall k :: 0 <= k < i ==> s[k] != x
  {
    if s[0] == x then 0 else 1 + IndexOf(s[1..], x)
  }

  /** `List.remove(Object)`: drop the first element equal to `x`. */
  function RemoveFirst<T(==)>(s: seq<T>, x: T): (r: seq<T>)
    ensures x !in s ==> r == s
    ensures x in s ==> |r| == |s| - 1
    ensures multiset(r) == multiset(s) - multiset{x}
  {
    if x !in s then s
    else
      var i := IndexOf(s, x);
      assert s == s[..i] + [x] + s[i + 1..];
      s[..i] + s[i + 1..]
  }

  /** RemoveFirst cuts the sequence at the first occurrence of `x` and joins
      the two sides, so the remaining elements keep their relative order. */
  lemma {:induction false} RemoveFirstSplits<T>(s: seq<T>, x: T, i: nat)
    requires i < |s| && s[i] == x
    requires forall k :: 0 <= k < i ==> s[k] != x
    ensures RemoveFirst(s, x) == s[..i] + s[i + 1..]
  {
    assert IndexOf(s, x) == i;
  }

  /** Removing an element that was just appended, and that was not in the
      list before, gives back the original list. */
  lemma {:induction false} RemoveAfterAppend<T>(s: seq<T>, x: T)
    requires x !in s
    ensures RemoveFirst(s + [x], x) == s
  {
    RemoveFirstSplits(s + [x], x, |s|);
    assert (s + [x])[..|s|] == s;
  }
}
