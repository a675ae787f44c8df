/** The pricing rules of `OrdersService.createOrder`, as functions: what each item,
    option and choice adds to the running `total`, which message the first invalid
    reference produces, and how far through the cart the service gets before it stops.
    The method that runs the loops is `Orders.OrdersService.CreateOrder`. */
module Pricing {
  import opened Common
  import opened Entities

  const DishNotFound := "Dish not found"
  const DishOptionNotFound := "DishOption not found"
  const DishChoiceNotFound := "DishChoice not found"

  /** One line of the cart: a dish id and, optionally, the options picked for it. */
  datatype CreateOrderItemInput = CreateOrderItemInput(dishId: nat, options: Option<seq<OrderItemOption>>)

  datatype CreateOrderInput = CreateOrderInput(restaurantId: nat, items: seq<CreateOrderItemInput>)

  /** JavaScript truthiness of an optional number: `undefined` and `0` are falsy. */
  predicate IsTruthyCost(cost: Option<int>)
  {
    cost.Some? && cost.value != 0
  }

  /** JavaScript truthiness of an optional string: `undefined` and `""` are falsy. */
  predicate IsTruthyName(name: Option<string>)
  {
    name.Some? && name.value != ""
  }

  /** What `if (cost) total += cost` adds. */
  function Surcharge(cost: Option<int>): int
  {
    if IsTruthyCost(cost) then cost.value else 0
  }

  /** `dish.options.find(op => op.name === name)` */
  function FindOption(options: seq<DishOption>, name: string): Option<DishOption>
  {
    Find(options, (o: DishOption) => o.name == name)
  }

  /** `dishOption.choices.find(ch => ch.item === item)` */
  function FindChoice(choices: seq<DishChoice>, item: string): Option<DishChoice>
  {
    Find(choices, (c: DishChoice) => c.item == item)
  }

  /** What one submitted option adds to the price of `dish`: the matched choice's cost (when
      a choice is named) plus the option's own cost, or the message that refuses it. */
  function OptionCost(dish: Dish, option: OrderItemOption): (r: Result<int>)
    ensures r.Err? ==> r.error == DishOptionNotFound || r.error == DishChoiceNotFound
    ensures FindOption(dish.options, option.name).None? ==> r == Err(DishOptionNotFound)
    ensures (FindOption(dish.options, option.name).Some? && IsTruthyName(option.choice) &&
             FindChoice(FindOption(dish.options, option.name).value.choices, option.choice.value).None?) ==>
      r == Err(DishChoiceNotFound)
    ensures r.Ok? <==>
      FindOption(dish.options, option.name).Some? &&
      (IsTruthyName(option.choice) ==>
         FindChoice(FindOption(dish.options, option.name).value.choices, option.choice.value).Some?)
  {
    match FindOption(dish.options, option.name)
    case None => Err(DishOptionNotFound)
    case Some(dishOption) =>
      if IsTruthyName(option.choice) then
        match FindChoice(dishOption.choices, option.choice.value)
        case None => Err(DishChoiceNotFound)
        case Some(dishChoice) => Ok(Surcharge(dishChoice.cost) + Surcharge(dishOption.cost))
      else
        Ok(Surcharge(dishOption.cost))
  }

  /** Left-to-right sum of per-element costs that stops at the first refusal. */
  function SumCosts<C, T>(ctx: C, s: seq<T>, cost: (C, T) -> Result<int>): Result<int>
    decreases |s|
  {
    if s == [] then Ok(0)
    else
      match SumCosts(ctx, s[..|s| - 1], cost)
      case Err(e) => Err(e)
      case Ok(t) =>
        match cost(ctx, s[|s| - 1])
        case Err(e) => Err(e)
        case Ok(c) => Ok(t + c)
  }

  /** What one cart line adds: the dish's price plus its options, or the first refusal. */
  function ItemCost(dishes: seq<Dish>, item: CreateOrderItemInput): (r: Result<int>)
    ensures FindDish(dishes, item.dishId).None? ==> r == Err(DishNotFound)
    ensures r.Ok? <==>
      FindDish(dishes, item.dishId).Some? &&
      (item.options.Some? ==> forall k :: 0 <= k < |item.options.value| ==>
         OptionCost(FindDish(dishes, item.dishId).value, item.options.value[k]).Ok?)
  {
    match FindDish(dishes, item.dishId)
    case None => Err(DishNotFound)
    case Some(dish) =>
      if item.options.None? then Ok(dish.price)
      else
        SumCostsOkIffAll(dish, item.options.value, OptionCost);
        match SumCosts(dish, item.options.value, OptionCost)
        case Err(e) => Err(e)
        case Ok(extra) => Ok(dish.price + extra)
  }

  /** The order's `total`, or the message of the first invalid reference in the cart. */
  function OrderTotal(dishes: seq<Dish>, items: seq<CreateOrderItemInput>): (r: Result<int>)
    ensures r.Ok? <==> forall k :: 0 <= k < |items| ==> ItemCost(dishes, items[k]).Ok?
  {
    SumCostsOkIffAll(dishes, items, ItemCost);
    SumCosts(dishes, items, ItemCost)
  }

  /** How many leading elements are processed without a refusal: all of them when the sum
      succeeds, otherwise the position of the first refused element, whose message is the
      message of the whole sum. */
  function PricedPrefix<C, T>(ctx: C, s: seq<T>, cost: (C, T) -> Result<int>): (k: nat)
    ensures k <= |s|
    ensures k == |s| <==> SumCosts(ctx, s, cost).Ok?
    ensures SumCosts(ctx, s[..k], cost).Ok?
    ensures k < |s| ==> cost(ctx, s[k]).Err? && SumCosts(ctx, s, cost) == Err(cost(ctx, s[k]).error)
    decreases |s|
  {
    if s == [] || SumCosts(ctx, s, cost).Ok? then
      assert s[..|s|] == s;
      |s|
    else
      var init := s[..|s| - 1];
      var k := PricedPrefix(ctx, init, cost);
      assert init[..k] == s[..k];
      if k < |init| then
        assert init[k] == s[k];
        k
      else
        k
  }

  /** Once a prefix is refused, the whole sequence is refused with the same message, and
      processing stops at the same element. */
  lemma {:induction false} RefusalPersists<C, T>(ctx: C, s: seq<T>, cost: (C, T) -> Result<int>, j: nat)
    requires j <= |s| && SumCosts(ctx, s[..j], cost).Err?
    ensures SumCosts(ctx, s, cost) == SumCosts(ctx, s[..j], cost)
    ensures PricedPrefix(ctx, s, cost) == PricedPrefix(ctx, s[..j], cost)
    decreases |s| - j
  {
    if j < |s| {
      var init := s[..|s| - 1];
      assert init[..j] == s[..j];
      RefusalPersists(ctx, init, cost, j);
    } else {
      assert s[..j] == s;
    }
  }

  /** The step the pricing loop takes: a successful prefix extended by one element. */
  lemma ExtendPrefix<C, T>(ctx: C, s: seq<T>, cost: (C, T) -> Result<int>, i: nat)
    requires i < |s| && SumCosts(ctx, s[..i], cost).Ok?
    ensures SumCosts(ctx, s[..i + 1], cost) ==
      match cost(ctx, s[i])
      case Err(e) => Err(e)
      case Ok(c) => Ok(SumCosts(ctx, s[..i], cost).value + c)
  {
    assert s[..i + 1][..i] == s[..i];
  }

  /** The step the pricing loop takes when the next element is accepted with cost `c`. */
  lemma ExtendAccepted<C, T>(ctx: C, s: seq<T>, cost: (C, T) -> Result<int>, i: nat, sum: int, c: int)
    requires i < |s| && SumCosts(ctx, s[..i], cost).Ok? && SumCosts(ctx, s[..i], cost).value == sum
    requires cost(ctx, s[i]) == Ok(c)
    ensures SumCosts(ctx, s[..i + 1], cost).Ok? && SumCosts(ctx, s[..i + 1], cost).value == sum + c
  {
    ExtendPrefix(ctx, s, cost, i);
  }

  /** Where the pricing loop stops: if element `i` is the first refused one, the sum is
      refused with its message and exactly `i` elements were processed. */
  lemma StopsAt<C, T>(ctx: C, s: seq<T>, cost: (C, T) -> Result<int>, i: nat)
    requires i < |s| && SumCosts(ctx, s[..i], cost).Ok? && cost(ctx, s[i]).Err?
    ensures SumCosts(ctx, s, cost) == Err(cost(ctx, s[i]).error)
    ensures PricedPrefix(ctx, s, cost) == i
  {
    ExtendPrefix(ctx, s, cost, i);
    RefusalPersists(ctx, s, cost, i + 1);
    assert s[..i + 1][..i] == s[..i];
  }

  /** The sum succeeds exactly when every element is accepted (fail-fast drops nothing). */
  lemma {:induction false} SumCostsOkIffAll<C, T>(ctx: C, s: seq<T>, cost: (C, T) -> Result<int>)
    ensures SumCosts(ctx, s, cost).Ok? <==> forall k :: 0 <= k < |s| ==> cost(ctx, s[k]).Ok?
    decreases |s|
  {
    if s != [] {
      var init := s[..|s| - 1];
      SumCostsOkIffAll(ctx, init, cost);
      assert forall k :: 0 <= k < |init| ==> init[k] == s[k];
    }
  }

  /** Pricing a concatenation: the first part's refusal wins, then the second's; otherwise
      the totals add up. This is what makes the total a sum of per-item contributions. */
  lemma {:induction false} SumCostsAppend<C, T>(ctx: C, a: seq<T>, b: seq<T>, cost: (C, T) -> Result<int>)
    ensures SumCosts(ctx, a + b, cost) ==
      match SumCosts(ctx, a, cost)
      case Err(e) => Err(e)
      case Ok(x) =>
        match SumCosts(ctx, b, cost)
        case Err(e) => Err(e)
        case Ok(y) => Ok(x + y)
    decreases |b|
  {
    if b == [] {
      assert a + b == a;
    } else {
      var initB := b[..|b| - 1];
      SumCostsAppend(ctx, a, initB, cost);
      assert (a + b)[..|a + b| - 1] == a + initB;
      assert (a + b)[|a + b| - 1] == b[|b| - 1];
    }
  }

  /** Reordering the cart as a rotation keeps the total: each item's contribution is
      independent of the others. */
  lemma RotationKeepsTotal(dishes: seq<Dish>, a: seq<CreateOrderItemInput>, b: seq<CreateOrderItemInput>)
    requires OrderTotal(dishes, a + b).Ok?
    ensures OrderTotal(dishes, b + a) == OrderTotal(dishes, a + b)
  {
    SumCostsAppend(dishes, a, b, ItemCost);
    SumCostsAppend(dishes, b, a, ItemCost);
  }

  /** Every refusal a cost function gives is among `messages`, so is every refusal of the sum. */
  lemma {:induction false} SumCostsMessages<C, T>(ctx: C, s: seq<T>, cost: (C, T) -> Result<int>, messages: set<string>)
    requires forall k :: 0 <= k < |s| && cost(ctx, s[k]).Err? ==> cost(ctx, s[k]).error in messages
    ensures SumCosts(ctx, s, cost).Err? ==> SumCosts(ctx, s, cost).error in messages
    decreases |s|
  {
    if s != [] {
      var init := s[..|s| - 1];
      assert forall k :: 0 <= k < |init| ==> init[k] == s[k];
      SumCostsMessages(ctx, init, cost, messages);
    }
  }

  /** createOrder reports only the three pricing messages. */
  lemma OrderTotalMessages(dishes: seq<Dish>, items: seq<CreateOrderItemInput>)
    ensures OrderTotal(dishes, items).Err? ==>
      OrderTotal(dishes, items).error in {DishNotFound, DishOptionNotFound, DishChoiceNotFound}
  {
    var messages := {DishNotFound, DishOptionNotFound, DishChoiceNotFound};
    forall k | 0 <= k < |items| && ItemCost(dishes, items[k]).Err?
      ensures ItemCost(dishes, items[k]).error in messages
    {
      match FindDish(dishes, items[k].dishId)
      case None =>
      case Some(dish) =>
        if items[k].options.Some? {
          SumCostsMessages(dish, items[k].options.value, OptionCost, messages);
        }
    }
    SumCostsMessages(dishes, items, ItemCost, messages);
  }

  /** The dish is looked up first: an unknown dish id is refused with 'Dish not found'
      whatever options come with it; a known dish without options costs its price. */
  lemma ItemCostDish(dishes: seq<Dish>, item: CreateOrderItemInput)
    ensures FindDish(dishes, item.dishId).None? <==> ItemCost(dishes, item) == Err(DishNotFound)
    ensures (forall k :: 0 <= k < |dishes| ==> dishes[k].id != item.dishId) ==>
      ItemCost(dishes, item) == Err(DishNotFound)
    ensures FindDish(dishes, item.dishId).Some? && (item.options.None? || item.options == Some([])) ==>
      ItemCost(dishes, item) == Ok(FindDish(dishes, item.dishId).value.price)
  {
    match FindDish(dishes, item.dishId)
    case None =>
    case Some(dish) =>
      if item.options.Some? {
        SumCostsMessages(dish, item.options.value, OptionCost, {DishOptionNotFound, DishChoiceNotFound});
      }
  }

  /** The option's own surcharge is added whether or not a choice is named: a named choice
      that resolves adds its surcharge on top of what the option alone costs. */
  lemma ChoiceAddsToOption(dish: Dish, option: OrderItemOption, choice: DishChoice)
    requires FindOption(dish.options, option.name).Some?
    requires IsTruthyName(option.choice)
    requires FindChoice(FindOption(dish.options, option.name).value.choices, option.choice.value) == Some(choice)
    ensures OptionCost(dish, option.(choice := None)).Ok?
    ensures OptionCost(dish, option) == Ok(OptionCost(dish, option.(choice := None)).value + Surcharge(choice.cost))
  {
  }

  /** Only names are read from a submitted option: its `cost` field is ignored, and an
      empty choice name is no choice at all. */
  lemma SubmittedNamesOnly(dish: Dish, option: OrderItemOption, cost: Option<int>)
    ensures OptionCost(dish, option.(cost := cost)) == OptionCost(dish, option)
    ensures OptionCost(dish, option.(choice := Some(""))) == OptionCost(dish, option.(choice := None))
  {
  }

  /** Clearing a surcharge of 0 changes neither which option a name finds nor what it adds. */
  lemma ZeroCostSameOption(options: seq<DishOption>, name: string, k: nat)
    requires k < |options| && options[k].cost == Some(0)
    ensures var cleared := FindOption(options[k := options[k].(cost := None)], name);
      && cleared.Some? == FindOption(options, name).Some?
      && (cleared.Some? ==>
            && cleared.value.choices == FindOption(options, name).value.choices
            && Surcharge(cleared.value.cost) == Surcharge(FindOption(options, name).value.cost))
  {
    var cleared := options[k := options[k].(cost := None)];
    var p := (o: DishOption) => o.name == name;
    FindFirstAgree(options, p, cleared, p);
  }

  /** A stored surcharge of 0 prices exactly like an absent one. */
  lemma ZeroCostIsNoCost(dish: Dish, option: OrderItemOption, k: nat)
    requires k < |dish.options| && dish.options[k].cost == Some(0)
    ensures OptionCost(dish.(options := dish.options[k := dish.options[k].(cost := None)]), option) ==
      OptionCost(dish, option)
  {
    ZeroCostSameOption(dish.options, option.name, k);
  }

  /** Clearing a choice surcharge of 0 changes neither which choice an item finds nor what
      it adds. */
  lemma ZeroCostSameChoice(choices: seq<DishChoice>, item: string, m: nat)
    requires m < |choices| && choices[m].cost == Some(0)
    ensures var cleared := FindChoice(choices[m := choices[m].(cost := None)], item);
      && cleared.Some? == FindChoice(choices, item).Some?
      && (cleared.Some? ==> Surcharge(cleared.value.cost) == Surcharge(FindChoice(choices, item).value.cost))
  {
    var cleared := choices[m := choices[m].(cost := None)];
    var q := (c: DishChoice) => c.item == item;
    FindFirstAgree(choices, q, cleared, q);
  }

  /** Replacing the choices of option `k` keeps which option a name finds and its surcharge;
      the choices found are the new ones exactly when the option found is option `k`. */
  lemma NewChoicesSameOption(options: seq<DishOption>, name: string, k: nat, choices: seq<DishChoice>)
    requires k < |options|
    ensures var found := FindOption(options[k := options[k].(choices := choices)], name);
      && found.Some? == FindOption(options, name).Some?
      && (found.Some? ==>
            && found.value.cost == FindOption(options, name).value.cost
            && (found.value.choices == FindOption(options, name).value.choices ||
                (FindOption(options, name).value == options[k] && found.value.choices == choices)))
  {
    var replaced := options[k := options[k].(choices := choices)];
    var p := (o: DishOption) => o.name == name;
    FindFirstAgree(options, p, replaced, p);
  }

  /** A stored choice surcharge of 0 prices exactly like an absent one. */
  lemma ZeroChoiceCostIsNoCost(dish: Dish, option: OrderItemOption, k: nat, m: nat)
    requires k < |dish.options| && m < |dish.options[k].choices|
    requires dish.options[k].choices[m].cost == Some(0)
    ensures
      var choices := dish.options[k].choices;
      var cleared := dish.options[k := dish.options[k].(choices := choices[m := choices[m].(cost := None)])];
      OptionCost(dish.(options := cleared), option) == OptionCost(dish, option)
  {
    var choices := dish.options[k].choices;
    var clearedChoices := choices[m := choices[m].(cost := None)];
    var cleared := dish.options[k := dish.options[k].(choices := clearedChoices)];
    NewChoicesSameOption(dish.options, option.name, k, clearedChoices);
    var before, after := FindOption(dish.options, option.name), FindOption(cleared, option.name);
    if before.Some? && IsTruthyName(option.choice) {
      var item := option.choice.value;
      if after.value.choices == clearedChoices && before.value == dish.options[k] {
        ZeroCostSameChoice(choices, item, m);
        assert FindChoice(after.value.choices, item).Some? == FindChoice(before.value.choices, item).Some?;
      } else {
        assert after.value.choices == before.value.choices;
      }
    }
  }

  /** With repeated option names the first one is priced: the dish prices the option as if
      that first match were its only option. */
  lemma FirstOptionPriced(dish: Dish, option: OrderItemOption, k: nat)
    requires k < |dish.options| && dish.options[k].name == option.name
    requires forall j :: 0 <= j < k ==> dish.options[j].name != option.name
    ensures OptionCost(dish, option) == OptionCost(dish.(options := [dish.options[k]]), option)
  {
    var p := (o: DishOption) => o.name == option.name;
    assert FindFirst(dish.options, p) == Some(k);
    assert FindFirst([dish.options[k]], p) == Some(0);
  }

  /** A dish price 10 with option "Size" (cost 2) whose choice "Large" costs 3: one item
      picking Size/Large totals 15; an unknown dish id is refused. */
  lemma SizeLargeScenario()
    ensures
      var dish := Dish(1, 1, 10, [DishOption("Size", [DishChoice("Large", Some(3))], Some(2))]);
      var item := CreateOrderItemInput(1, Some([OrderItemOption("Size", Some("Large"), None)]));
      && OrderTotal([dish], [item]) == Ok(15)
      && OrderTotal([dish], [CreateOrderItemInput(2, None)]) == Err(DishNotFound)
  {
    var dish := Dish(1, 1, 10, [DishOption("Size", [DishChoice("Large", Some(3))], Some(2))]);
    var option := OrderItemOption("Size", Some("Large"), None);
    var item := CreateOrderItemInput(1, Some([option]));
    assert FindDish([dish], 1) == Some(dish);
    assert FindOption(dish.options, "Size") == Some(dish.options[0]);
    assert FindChoice(dish.options[0].choices, "Large") == Some(DishChoice("Large", Some(3)));
    assert OptionCost(dish, option) == Ok(5);
    assert [option][..0] == [];
    assert SumCosts(dish, [option], OptionCost) == Ok(5);
    assert ItemCost([dish], item) == Ok(15);
    assert [item][..0] == [];
    var missing := CreateOrderItemInput(2, None);
    assert FindDish([dish], 2) == None;
    assert [missing][..0] == [];
  }
}
