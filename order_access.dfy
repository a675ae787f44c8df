/** Who may see and change an order: `isAuthorized`, `isValidStatus`, `getOrder` and
    `getOrders` of `OrdersService`, all read-only, as functions of the tables. */
module OrderAccess {
  import opened Common
  import opened Entities

  const OrderNotFound := "Order not found"
  const NotAuthorized := "Not authorized"
  const CannotGetOrder := "Cannot get order"

  /** `isAuthorized(user, order)` given the order's loaded `restaurant` relation. For an
      Owner it reads `order.restaurant.ownerId`; when the relation is null that read throws,
      which is `None` here. The other roles never touch the relation. */
  function IsAuthorized(user: User, order: Order, restaurant: Option<Restaurant>): (r: Option<bool>)
    ensures user.role == Client ==> r == Some(order.customerId == Some(user.id))
    ensures user.role == Owner ==>
      r == (if restaurant.None? then None else Some(restaurant.value.ownerId == user.id))
    ensures user.role == Delivery ==> r == Some(order.driverId == Some(user.id))
  {
    if user.role == Owner && restaurant.None? then None
    else
      var authorized := true;
      var authorized := if user.role == Client && order.customerId != Some(user.id) then false else authorized;
      var authorized :=
        if user.role == Owner && restaurant.value.ownerId != user.id then false else authorized;
      var authorized := if user.role == Delivery && order.driverId != Some(user.id) then false else authorized;
      Some(authorized)
  }

  /** `isValidStatus(user, status)`: the statuses a role may set. A Client is not
      restricted at all: the checks for Owner and Delivery fall through to `true`. */
  function IsValidStatus(user: User, status: OrderStatus): (r: bool)
    ensures user.role == Owner ==> (r <==> status == Cooking || status == Cooked)
    ensures user.role == Delivery ==> (r <==> status == PickedUp || status == Delivered)
    ensures user.role == Client ==> r
    ensures !r ==> user.role != Client
  {
    if user.role == Owner && status != Cooked && status != Cooking then false
    else if user.role == Delivery && status != PickedUp && status != Delivered then false
    else true
  }

  /** The order's `restaurant` relation as loaded with it. */
  function LoadRestaurant(restaurants: seq<Restaurant>, restaurantId: Option<nat>): (r: Option<Restaurant>)
    ensures restaurantId.None? ==> r.None?
    ensures r.Some? ==> r.value in restaurants && Some(r.value.id) == restaurantId
    ensures restaurantId.Some? && (exists k :: 0 <= k < |restaurants| && restaurants[k].id == restaurantId.value) ==> r.Some?
  {
    if restaurantId.None? then None else FindRestaurant(restaurants, restaurantId.value)
  }

  /** `getOrder(user, { id })`: not found, then not authorized (a thrown read becomes the
      generic message of the `catch`), else the order itself. */
  function GetOrder(orders: seq<Order>, restaurants: seq<Restaurant>, user: User, id: nat): (r: Result<Order>)
    ensures (forall k :: 0 <= k < |orders| ==> orders[k].id != id) ==> r == Err(OrderNotFound)
    ensures r.Ok? ==>
      (r.value in orders && r.value.id == id &&
       IsAuthorized(user, r.value, LoadRestaurant(restaurants, r.value.restaurantId)) == Some(true))
    ensures r.Err? ==> r.error in {OrderNotFound, NotAuthorized, CannotGetOrder}
    ensures FindOrderIndex(orders, id).Some? ==>
      var order := orders[FindOrderIndex(orders, id).value];
      var authorized := IsAuthorized(user, order, LoadRestaurant(restaurants, order.restaurantId));
      && (authorized == Some(true) ==> r == Ok(order))
      && (authorized == Some(false) ==> r == Err(NotAuthorized))
      && (authorized == None ==> r == Err(CannotGetOrder))
  {
    match FindOrderIndex(orders, id)
    case None => Err(OrderNotFound)
    case Some(k) =>
      var order := orders[k];
      match IsAuthorized(user, order, LoadRestaurant(restaurants, order.restaurantId))
      case None => Err(CannotGetOrder)
      case Some(false) => Err(NotAuthorized)
      case Some(true) => Ok(order)
  }

  /** Under the primary-key constraint, asking for a stored order's id is decided by
      `isAuthorized` on that order alone: granted gives the order, refused gives
      'Not authorized', and a thrown read gives the generic message. */
  lemma GetOrderOfStored(orders: seq<Order>, restaurants: seq<Restaurant>, user: User, k: nat)
    requires UniqueOrderIds(orders) && k < |orders|
    ensures
      var authorized := IsAuthorized(user, orders[k], LoadRestaurant(restaurants, orders[k].restaurantId));
      GetOrder(orders, restaurants, user, orders[k].id) ==
        match authorized
        case Some(true) => Ok(orders[k])
        case Some(false) => Err(NotAuthorized)
        case None => Err(CannotGetOrder)
  {
    FindOrderUnique(orders, k);
  }

  /** Status filter: `undefined` keeps every order. */
  predicate HasStatus(order: Order, status: Option<OrderStatus>)
  {
    status.None? || order.status == status.value
  }

  /** `restaurant.orders`: the orders whose restaurant relation is this restaurant. */
  function OrdersOf(orders: seq<Order>, restaurant: Restaurant): seq<Order>
  {
    Filter(orders, (o: Order) => o.restaurantId == Some(restaurant.id))
  }

  /** `restaurants.map(restaurant => restaurant.orders).flat(1)` */
  function FlatOrders(orders: seq<Order>, restaurants: seq<Restaurant>): seq<Order>
  {
    if restaurants == [] then [] else OrdersOf(orders, restaurants[0]) + FlatOrders(orders, restaurants[1..])
  }

  /** `restaurants.find({ where: { owner: user } })` */
  function OwnedRestaurants(restaurants: seq<Restaurant>, ownerId: nat): (r: seq<Restaurant>)
    ensures forall x :: x in r <==> x in restaurants && x.ownerId == ownerId
  {
    Filter(restaurants, (r: Restaurant) => r.ownerId == ownerId)
  }

  /** `getOrders(user, { status })`: the customer's orders, the driver's orders, or, for an
      Owner, the orders of each owned restaurant in turn, filtered by status afterwards. */
  function GetOrders(orders: seq<Order>, restaurants: seq<Restaurant>, user: User, status: Option<OrderStatus>): seq<Order>
  {
    match user.role
    case Client => Filter(orders, (o: Order) => o.customerId == Some(user.id) && HasStatus(o, status))
    case Owner =>
      var all := FlatOrders(orders, OwnedRestaurants(restaurants, user.id));
      if status.Some? then Filter(all, (o: Order) => o.status == status.value) else all
    case Delivery => Filter(orders, (o: Order) => o.driverId == Some(user.id) && HasStatus(o, status))
  }

  lemma {:induction false} FlatOrdersMembership(orders: seq<Order>, restaurants: seq<Restaurant>, o: Order)
    ensures o in FlatOrders(orders, restaurants) <==>
      o in orders && exists k :: 0 <= k < |restaurants| && o.restaurantId == Some(restaurants[k].id)
  {
    if restaurants != [] {
      FlatOrdersMembership(orders, restaurants[1..], o);
      if o in orders && o.restaurantId == Some(restaurants[0].id) {
        assert o in OrdersOf(orders, restaurants[0]);
      }
      if exists k :: 1 <= k < |restaurants| && o.restaurantId == Some(restaurants[k].id) {
        var k :| 1 <= k < |restaurants| && o.restaurantId == Some(restaurants[k].id);
        assert restaurants[1..][k - 1] == restaurants[k];
      }
    }
  }

  /** Which orders each role is shown: a Client its own, a driver the ones assigned to it,
      an Owner those of any restaurant it owns; always restricted to the given status. */
  lemma GetOrdersMembership(orders: seq<Order>, restaurants: seq<Restaurant>, user: User, status: Option<OrderStatus>, o: Order)
    ensures o in GetOrders(orders, restaurants, user, status) <==>
      o in orders && HasStatus(o, status) &&
      match user.role
      case Client => o.customerId == Some(user.id)
      case Delivery => o.driverId == Some(user.id)
      case Owner => exists r :: r in restaurants && r.ownerId == user.id && o.restaurantId == Some(r.id)
  {
    if user.role == Owner {
      var owned := OwnedRestaurants(restaurants, user.id);
      FlatOrdersMembership(orders, owned, o);
      if o in FlatOrders(orders, owned) {
        var k :| 0 <= k < |owned| && o.restaurantId == Some(owned[k].id);
        assert owned[k] in owned;
      }
      if exists r :: r in restaurants && r.ownerId == user.id && o.restaurantId == Some(r.id) {
        var r :| r in restaurants && r.ownerId == user.id && o.restaurantId == Some(r.id);
        assert r in owned;
        var k :| 0 <= k < |owned| && owned[k] == r;
      }
    }
  }

  /** No cross-role visibility: under the primary-key constraint, `getOrders` lists exactly
      the orders (of that status) that `isAuthorized` grants the caller. */
  lemma GetOrdersAreAuthorized(orders: seq<Order>, restaurants: seq<Restaurant>, user: User, status: Option<OrderStatus>, o: Order)
    requires UniqueRestaurantIds(restaurants)
    ensures o in GetOrders(orders, restaurants, user, status) <==>
      o in orders && HasStatus(o, status) &&
      IsAuthorized(user, o, LoadRestaurant(restaurants, o.restaurantId)) == Some(true)
  {
    GetOrdersMembership(orders, restaurants, user, status, o);
    if user.role == Owner && o.restaurantId.Some? {
      if exists r :: r in restaurants && r.ownerId == user.id && o.restaurantId == Some(r.id) {
        var r :| r in restaurants && r.ownerId == user.id && o.restaurantId == Some(r.id);
        var k :| 0 <= k < |restaurants| && restaurants[k] == r;
        FindRestaurantUnique(restaurants, k);
      } else {
        var loaded := FindRestaurant(restaurants, o.restaurantId.value);
        if loaded.Some? && loaded.value.ownerId == user.id {
          assert loaded.value in restaurants && loaded.value.id == o.restaurantId.value;
        }
      }
    }
  }

  /** Filtering the Owner's orders by status after flattening gives what filtering each
      restaurant's orders first would: the order of the listing is the same either way. */
  lemma {:induction false} OwnerFilterCommutes(orders: seq<Order>, owned: seq<Restaurant>, status: OrderStatus)
    ensures Filter(FlatOrders(orders, owned), (o: Order) => o.status == status) ==
      FlatOrders(Filter(orders, (o: Order) => o.status == status), owned)
  {
    var p := (o: Order) => o.status == status;
    if owned != [] {
      OwnerFilterCommutes(orders, owned[1..], status);
      FilterAppend(OrdersOf(orders, owned[0]), FlatOrders(orders, owned[1..]), p);
      var q := (o: Order) => o.restaurantId == Some(owned[0].id);
      var pq := (o: Order) => q(o) && p(o);
      FilterFilter(orders, q, p, pq);
      FilterFilter(orders, p, q, pq);
    }
  }

  /** A driver is never authorized for an order without a driver; a Client can never be
      refused by `isValidStatus`, so an authorized customer may set any status. */
  lemma DeliveryNeedsAssignedDriver(user: User, order: Order, restaurant: Option<Restaurant>, status: OrderStatus)
    ensures user.role == Delivery && order.driverId.None? ==> IsAuthorized(user, order, restaurant) == Some(false)
    ensures user.role == Client ==> IsValidStatus(user, status)
  {
  }
}
