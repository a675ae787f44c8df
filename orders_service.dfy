/** `OrdersService` with its tables: `createOrder` prices the cart item by item, saving an
    OrderItem per accepted line, and saves one Order at the end; `editOrder` rewrites the
    status of one order. Their read-only rules live in `Pricing` and `OrderAccess`. */
module Orders {
  import opened Common
  import opened Entities
  import opened Pricing
  import opened OrderAccess

  const RestaurantNotFound := "Restaurant not found"
  const InvalidStatus := "Invalid status"

  /** The OrderItem rows saved for the cart lines `items`, numbered from `firstId`: each
      keeps the dish and the options exactly as submitted. */
  function SavedItems(items: seq<CreateOrderItemInput>, firstId: nat): (r: seq<OrderItem>)
    ensures |r| == |items|
  {
    seq(|items|, k requires 0 <= k < |items| => OrderItem(firstId + k, items[k].dishId, items[k].options))
  }

  /** `orders.save([{ id, status }])`: every row with that id gets the new status. */
  function WithStatus(orders: seq<Order>, id: nat, status: OrderStatus): (r: seq<Order>)
    ensures |r| == |orders|
    ensures forall k :: 0 <= k < |r| ==> r[k].(status := orders[k].status) == orders[k]
    ensures forall k :: 0 <= k < |r| ==> r[k].status == (if orders[k].id == id then status else orders[k].status)
  {
    seq(|orders|, k requires 0 <= k < |orders| =>
      if orders[k].id == id then orders[k].(status := status) else orders[k])
  }

  /** One pass of the inner loop of `createOrder`: resolves the option by name and, when a
      choice is named, the choice by item, and sums their truthy costs (the amount the pass
      adds to `total`). */
  method PriceOption(dish: Dish, option: OrderItemOption) returns (r: Result<int>)
    ensures r == OptionCost(dish, option)
  {
    var extra := 0;
    var dishOption := FindOption(dish.options, option.name);
    if dishOption.None? {
      return Err(DishOptionNotFound);
    }
    if IsTruthyName(option.choice) {
      var dishChoice := FindChoice(dishOption.value.choices, option.choice.value);
      if dishChoice.None? {
        return Err(DishChoiceNotFound);
      }
      if IsTruthyCost(dishChoice.value.cost) {
        extra := extra + dishChoice.value.cost.value;
      }
    }
    if IsTruthyCost(dishOption.value.cost) {
      extra := extra + dishOption.value.cost.value;
    }
    return Ok(extra);
  }

  /** The inner loop of `createOrder`: adds to `total` what each submitted option of `dish`
      costs, in order, and stops with the message of the first option or choice that
      does not resolve. */
  method AddOptionCosts(dish: Dish, options: seq<OrderItemOption>, total: int) returns (r: Result<int>)
    ensures SumCosts(dish, options, OptionCost).Err? ==> r == Err(SumCosts(dish, options, OptionCost).error)
    ensures SumCosts(dish, options, OptionCost).Ok? ==> r == Ok(total + SumCosts(dish, options, OptionCost).value)
  {
    var sum := total;
    ghost var added := 0;
    var j := 0;
    while j < |options|
      invariant 0 <= j <= |options|
      invariant SumCosts(dish, options[..j], OptionCost).Ok? && SumCosts(dish, options[..j], OptionCost).value == added
      invariant sum == total + added
    {
      var extra := PriceOption(dish, options[j]);
      if extra.Err? {
        StopsAt(dish, options, OptionCost, j);
        return Err(extra.error);
      }
      ExtendAccepted(dish, options, OptionCost, j, added, extra.value);
      sum := sum + extra.value;
      added := added + extra.value;
      j := j + 1;
    }
    assert options[..j] == options;
    return Ok(sum);
  }

  /** One pass of the outer loop of `createOrder`: looks the dish up by id (in the whole
      dish table), adds its price and then its options' costs to `total`. */
  method AddItemCost(dishes: seq<Dish>, item: CreateOrderItemInput, total: int) returns (r: Result<int>)
    ensures ItemCost(dishes, item).Err? ==> r == Err(ItemCost(dishes, item).error)
    ensures ItemCost(dishes, item).Ok? ==> r == Ok(total + ItemCost(dishes, item).value)
  {
    var dish := FindDish(dishes, item.dishId);
    if dish.None? {
      return Err(DishNotFound);
    }
    var sum := total + dish.value.price;
    if item.options.Some? {
      r := AddOptionCosts(dish.value, item.options.value, sum);
    } else {
      r := Ok(sum);
    }
  }

  lemma SavedItemsStep(items: seq<CreateOrderItemInput>, i: nat, firstId: nat)
    requires i < |items|
    ensures SavedItems(items[..i + 1], firstId) ==
      SavedItems(items[..i], firstId) + [OrderItem(firstId + i, items[i].dishId, items[i].options)]
  {
  }

  /** The loop of `createOrder` on its own: prices the cart line by line and numbers an
      OrderItem for each line once it is priced, stopping at the first line that does not
      resolve. */
  method PriceCart(dishes: seq<Dish>, cart: seq<CreateOrderItemInput>, firstItemId: nat)
    returns (total: Result<int>, items: seq<OrderItem>)
    ensures total == OrderTotal(dishes, cart)
    ensures items == SavedItems(cart[..PricedPrefix(dishes, cart, ItemCost)], firstItemId)
  {
    items := [];
    var sum := 0;
    var i := 0;
    while i < |cart|
      invariant 0 <= i <= |cart|
      invariant SumCosts(dishes, cart[..i], ItemCost).Ok? && SumCosts(dishes, cart[..i], ItemCost).value == sum
      invariant items == SavedItems(cart[..i], firstItemId)
    {
      var item := cart[i];
      var priced := AddItemCost(dishes, item, sum);
      if priced.Err? {
        StopsAt(dishes, cart, ItemCost, i);
        return Err(priced.error), items;
      }
      ExtendAccepted(dishes, cart, ItemCost, i, sum, priced.value - sum);
      sum := priced.value;
      SavedItemsStep(cart, i, firstItemId);
      items := items + [OrderItem(firstItemId + i, item.dishId, item.options)];
      i := i + 1;
    }
    assert cart[..i] == cart;
    total := Ok(sum);
  }

  class OrdersService {
    var orders: seq<Order>
    var orderItems: seq<OrderItem>
    var restaurants: seq<Restaurant>
    var dishes: seq<Dish>
    var nextOrderId: nat
    var nextItemId: nat

    /** Primary keys are unique and below the next generated one. */
    ghost predicate Valid()
      reads this
    {
      && UniqueOrderIds(orders)
      && (forall k :: 0 <= k < |orders| ==> orders[k].id < nextOrderId)
      && (forall k :: 0 <= k < |orderItems| ==> orderItems[k].id < nextItemId)
    }

    constructor (restaurants: seq<Restaurant>, dishes: seq<Dish>)
      ensures Valid()
      ensures this.restaurants == restaurants && this.dishes == dishes
      ensures orders == [] && orderItems == []
    {
      this.restaurants := restaurants;
      this.dishes := dishes;
      orders := [];
      orderItems := [];
      nextOrderId := 1;
      nextItemId := 1;
    }

    /** The loop of `createOrder`: prices the cart line by line with `PriceCart`, then appends
        the OrderItems of the lines priced before the first one that does not resolve, all
        in one step. */
    method SaveCart(cart: seq<CreateOrderItemInput>) returns (total: Result<int>, items: seq<OrderItem>)
      requires Valid()
      modifies this
      ensures Valid()
      ensures orders == old(orders) && nextOrderId == old(nextOrderId)
      ensures restaurants == old(restaurants) && dishes == old(dishes)
      ensures total == OrderTotal(dishes, cart)
      ensures items == SavedItems(cart[..PricedPrefix(dishes, cart, ItemCost)], old(nextItemId))
      ensures orderItems == old(orderItems) + items
      ensures nextItemId == old(nextItemId) + |items|
    {
      total, items := PriceCart(dishes, cart, nextItemId);
      orderItems := orderItems + items;
      nextItemId := nextItemId + |items|;
    }

    /** `createOrder(user, input)`. The restaurant must exist; each line's dish is looked up
        by id in the whole dish table. On success one Order is saved, carrying the saved
        items in cart order and the computed total; on a pricing failure no Order is saved,
        but the OrderItems of the lines before the failing one already are. */
    method CreateOrder(user: User, input: CreateOrderInput) returns (r: CoreOutput)
      requires Valid()
      modifies this
      ensures Valid()
      ensures restaurants == old(restaurants) && dishes == old(dishes)
      ensures FindRestaurant(restaurants, input.restaurantId).None? ==>
        r == Failure(RestaurantNotFound) && orders == old(orders) && orderItems == old(orderItems)
      ensures FindRestaurant(restaurants, input.restaurantId).Some? && OrderTotal(dishes, input.items).Err? ==>
        && r == Failure(OrderTotal(dishes, input.items).error)
        && orders == old(orders)
        && orderItems == old(orderItems) +
             SavedItems(input.items[..PricedPrefix(dishes, input.items, ItemCost)], old(nextItemId))
      ensures FindRestaurant(restaurants, input.restaurantId).Some? && OrderTotal(dishes, input.items).Ok? ==>
        && r == Success()
        && orderItems == old(orderItems) + SavedItems(input.items, old(nextItemId))
        && orders == old(orders) + [Order(old(nextOrderId), Some(user.id), None, Some(input.restaurantId),
                                          SavedItems(input.items, old(nextItemId)),
                                          OrderTotal(dishes, input.items).value, Pending)]
    {
      var restaurant := FindRestaurant(restaurants, input.restaurantId);
      if restaurant.None? {
        return Failure(RestaurantNotFound);
      }
      var total, items := SaveCart(input.items);
      if total.Err? {
        return Failure(total.error);
      }
      assert input.items[..PricedPrefix(dishes, input.items, ItemCost)] == input.items;
      orders := orders + [Order(nextOrderId, Some(user.id), None, Some(restaurant.value.id), items, total.value, Pending)];
      nextOrderId := nextOrderId + 1;
      r := Success();
    }

    /** `editOrder(user, { id, status })`: first `getOrder`'s checks ('Order not found', then
        'Not authorized'), whose `{ ok, error }` is passed on unchanged, then 'Invalid status';
        on success only the `status` of that order changes, so setting the current status
        again leaves the table as it was. */
    method EditOrder(user: User, id: nat, status: OrderStatus) returns (r: CoreOutput)
      requires Valid()
      modifies this
      ensures Valid()
      ensures restaurants == old(restaurants) && dishes == old(dishes) && orderItems == old(orderItems)
      ensures GetOrder(old(orders), restaurants, user, id).Err? ==>
        r == Failure(GetOrder(old(orders), restaurants, user, id).error) && orders == old(orders)
      ensures GetOrder(old(orders), restaurants, user, id).Ok? && !IsValidStatus(user, status) ==>
        r == Failure(InvalidStatus) && orders == old(orders)
      ensures GetOrder(old(orders), restaurants, user, id).Ok? && IsValidStatus(user, status) ==>
        r == Success() && orders == WithStatus(old(orders), id, status)
      ensures r.ok ==> |orders| == |old(orders)| && forall k :: 0 <= k < |orders| ==>
        orders[k].items == old(orders)[k].items && orders[k].total == old(orders)[k].total &&
        orders[k].id == old(orders)[k].id
      ensures (GetOrder(old(orders), restaurants, user, id).Ok? &&
               GetOrder(old(orders), restaurants, user, id).value.status == status) ==> orders == old(orders)
    {
      var found := GetOrder(orders, restaurants, user, id);
      if found.Err? {
        return Failure(found.error);
      }
      if !IsValidStatus(user, status) {
        return Failure(InvalidStatus);
      }
      var k :| 0 <= k < |orders| && orders[k] == found.value;
      forall j | 0 <= j < |orders| && j != k
        ensures orders[j].id != id
      {
        assert orders[j].id != orders[k].id;
      }
      orders := orders[k := orders[k].(status := status)];
      assert orders == WithStatus(old(orders), id, status);
      r := Success();
    }
  }
}
