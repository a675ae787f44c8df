/** The persistent entities and the input records of the services, as plain values.
    A relation column (`customer`, `restaurant`, ...) is represented by the id it holds;
    a nullable relation (`onDelete: 'SET NULL'`) by an `Option` of that id. */
module Entities {
  import opened Common

  datatype UserRole = Client | Owner | Delivery

  /** A user row. `password` is whatever the table stores; hashing is not modelled. */
  datatype User = User(id: nat, email: string, password: string, role: UserRole)

  datatype OrderStatus = Pending | Cooking | Cooked | PickedUp | Delivered

  /** A restaurant row with its owner and its promotion state (`promotedUntil` in days). */
  datatype Restaurant = Restaurant(id: nat, ownerId: nat, isPromoted: bool, promotedUntil: Option<int>)

  /** One selectable item of a dish option, with its optional surcharge. */
  datatype DishChoice = DishChoice(item: string, cost: Option<int>)

  /** A named option of a dish: its own optional surcharge and the choices under it. */
  datatype DishOption = DishOption(name: string, choices: seq<DishChoice>, cost: Option<int>)

  /** A dish row; `options` is the embedded JSON column. */
  datatype Dish = Dish(id: nat, restaurantId: nat, price: int, options: seq<DishOption>)

  /** An option as the customer submits it: names only (and a `cost` nobody reads). */
  datatype OrderItemOption = OrderItemOption(name: string, choice: Option<string>, cost: Option<int>)

  /** A saved order item: the dish it refers to and the options exactly as submitted. */
  datatype OrderItem = OrderItem(id: nat, dishId: nat, options: Option<seq<OrderItemOption>>)

  datatype Order = Order(
    id: nat,
    customerId: Option<nat>,
    driverId: Option<nat>,
    restaurantId: Option<nat>,
    items: seq<OrderItem>,
    total: int,
    status: OrderStatus)

  datatype Payment = Payment(id: nat, transactionId: string, userId: nat, restaurantId: nat)

  /** `findOne({ id })` on the restaurant table, by position. */
  function FindRestaurantIndex(restaurants: seq<Restaurant>, id: nat): Option<nat>
  {
    FindFirst(restaurants, (r: Restaurant) => r.id == id)
  }

  /** `findOne({ id })` on the restaurant table. */
  function FindRestaurant(restaurants: seq<Restaurant>, id: nat): Option<Restaurant>
  {
    Find(restaurants, (r: Restaurant) => r.id == id)
  }

  /** `findOne({ id })` on the dish table. */
  function FindDish(dishes: seq<Dish>, id: nat): Option<Dish>
  {
    Find(dishes, (d: Dish) => d.id == id)
  }

  /** `findOne({ id })` on the order table, by position. */
  function FindOrderIndex(orders: seq<Order>, id: nat): Option<nat>
  {
    FindFirst(orders, (o: Order) => o.id == id)
  }

  /** `findOne({ email })` on the user table. */
  function FindUserByEmail(users: seq<User>, email: string): Option<User>
  {
    Find(users, (u: User) => u.email == email)
  }

  /** The primary-key constraint of the restaurant table. */
  ghost predicate UniqueRestaurantIds(restaurants: seq<Restaurant>)
  {
    forall i, j :: 0 <= i < j < |restaurants| ==> restaurants[i].id != restaurants[j].id
  }

  ghost predicate UniqueOrderIds(orders: seq<Order>)
  {
    forall i, j :: 0 <= i < j < |orders| ==> orders[i].id != orders[j].id
  }

  /** An assumption about the data, not a schema guarantee: the relation `dish.restaurant`
      is declared only with `onDelete: 'CASCADE'` and is nullable, but a dish whose
      restaurant is missing (on which the repository's owner read throws) is taken not
      to occur: every dish's restaurant is in the restaurant table. */
  ghost predicate DishesHaveRestaurants(dishes: seq<Dish>, restaurants: seq<Restaurant>)
  {
    forall i :: 0 <= i < |dishes| ==> FindRestaurant(restaurants, dishes[i].restaurantId).Some?
  }

  /** With unique ids, the row `findOne({ id })` returns is the one stored under that id. */
  lemma {:induction false} FindRestaurantUnique(restaurants: seq<Restaurant>, k: nat)
    requires UniqueRestaurantIds(restaurants) && k < |restaurants|
    ensures FindRestaurantIndex(restaurants, restaurants[k].id) == Some(k)
    ensures FindRestaurant(restaurants, restaurants[k].id) == Some(restaurants[k])
  {
    assert FindRestaurantIndex(restaurants, restaurants[k].id).Some?;
  }

  /** With unique ids, `findOne({ id })` on the order table picks the row stored under it. */
  lemma {:induction false} FindOrderUnique(orders: seq<Order>, k: nat)
    requires UniqueOrderIds(orders) && k < |orders|
    ensures FindOrderIndex(orders, orders[k].id) == Some(k)
  {
    assert FindOrderIndex(orders, orders[k].id).Some?;
  }
}
