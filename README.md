# nuber-eats backend: business rules in Dafny

This project models the business rules of a food-ordering backend. Customers (role `Client`)
place orders with restaurants, restaurant owners (`Owner`) manage their restaurants and pay to
promote them, and drivers (`Delivery`) deliver orders. Every operation answers with the
`{ ok, error? }` shape, and the error strings are those of the source.

The model covers:

- `OrdersService`:
  - `createOrder` prices a cart item by item. It looks up each dish by id, resolves each
    submitted option by name and each named choice by item. Costs are added only when truthy.
    It stops at the first reference that does not resolve. It saves one OrderItem per priced
    line and one Order at the end.
  - `getOrders` lists orders per role. For an Owner it flattens the orders of the owned
    restaurants and then filters them by status.
  - `isAuthorized`, `getOrder`, `isValidStatus` and `editOrder`.
- The two `findAndValidate` ownership checks, in the restaurant repository and the dish
  repository.
- `AuthGuard.canActivate`: the role, token, verification and lookup chain, and the one write
  it makes into the request context.
- `PaymentsService`:
  - `createPayment` promotes a restaurant for 7 days and records the payment;
  - `getPayments` lists the caller's payments;
  - `checkPromotedRestaurant` is the expiry sweep.
- `UsersService`: `createUser` (unique-email insert) and `login`.

Modelling choices:

- **Tables.** Each service is a class. Its fields are the tables it reads or writes, held as
  sequences, plus the next primary key to hand out. `Valid()` states the key constraints.
- **Stateful code.** Code that changes tables is a method proved against specification
  functions:
  - `CreateOrder` against `Pricing.OrderTotal`, `Pricing.PricedPrefix` and `Orders.SavedItems`;
  - `EditOrder` against `Orders.WithStatus`;
  - `CheckPromotedRestaurant` against `Payments.Sweep`.
- **Read-only code.** It is written as functions of the tables.
- **The request context** is a small class whose `user` field the guard writes.
- **Parameters.** Token verification (the JWT check), the user lookup by id and the password
  check (bcrypt) are function parameters.
- **Time** is a whole number of days. `now` is an argument.

`isValidStatus` restricts only Owner and Delivery and returns `true` for a Client
(src/orders/orders.service.ts:213-227). So a customer who may see an order may set it to any
status, and the model keeps that (`OrderAccess.IsValidStatus`,
`OrderAccess.DeliveryNeedsAssignedDriver`).

## Model

| member | source | states |
|---|---|---|
| Common.FindFirst | src/orders/orders.service.ts:54 | `Array.find` semantics: the index found satisfies the predicate and no earlier element does; nothing is found exactly when no element satisfies it |
| Common.Find | src/orders/orders.service.ts:63-65 | the element found is the one at the first position satisfying the predicate; something is found iff some element satisfies it |
| Common.FindFirstAgree | src/orders/orders.service.ts:54 | two searches whose predicates agree position by position find the same position |
| Common.Filter | src/orders/orders.service.ts:135 | `filter` keeps exactly the elements satisfying the predicate and never lengthens the list |
| Entities.FindRestaurantUnique | src/restaurants/repositories/restaurant.repository.ts:9 | under unique ids, `findOne({ id })` returns exactly the row stored under that id |
| RestaurantRepository.FindAndValidate | src/restaurants/repositories/restaurant.repository.ts:8-27 | an unknown id gives 'Could not find restaurant'; `ok` iff the first row with that id belongs to the caller; only the two messages occur; success carries nothing else |
| RestaurantRepository.FindAndValidateOwned | src/restaurants/repositories/restaurant.repository.ts:9-22 | for a stored restaurant, `ok` iff the caller owns it, and a non-owner gets 'You cannot delete restaurant you do not own' (not-found takes precedence) |
| DishRepository.FindAndValidate | src/restaurants/repositories/dish.repository.ts:7-27 | an unknown id gives 'Could not find dish'; `Ok` iff the dish exists and its restaurant's owner is the caller; the dish returned is the stored one with that id; only the two messages occur |
| DishRepository.OwnerOf | src/restaurants/repositories/dish.repository.ts:16 | `dish.restaurant.ownerId`: the owner of the stored restaurant with that id, if any; `FindAndValidate` states its use |
| DishRepository.ExistingDishNeedsOwnership | src/restaurants/repositories/dish.repository.ts:8-21 | a stored dish is only ever refused with 'Not authorized' |
| Pricing.IsTruthyCost | src/orders/orders.service.ts:73 | JavaScript truthiness of an optional cost: `undefined` and `0` are falsy |
| Pricing.IsTruthyName | src/orders/orders.service.ts:62 | JavaScript truthiness of an optional choice name: `undefined` and `""` are falsy |
| Pricing.Surcharge | src/orders/orders.service.ts:73-80 | what `if (cost) total += cost` adds; `ZeroCostIsNoCost` and `ZeroChoiceCostIsNoCost` state its consequence for pricing |
| Pricing.SumCosts | src/orders/orders.service.ts:42-88 | the left-to-right fail-fast accumulation of `total`; `SumCostsOkIffAll`, `SumCostsAppend`, `SumCostsMessages` and `PricedPrefix` state its behaviour |
| Pricing.PricedPrefix | src/orders/orders.service.ts:42-88 | the number of cart lines processed before the loop stops: all of them iff pricing succeeds, otherwise the first refused line, whose message is the message of the whole order |
| Pricing.RefusalPersists | src/orders/orders.service.ts:42-88 | once a prefix of the cart is refused, the whole cart is refused with the same message at the same line |
| Pricing.ExtendPrefix | src/orders/orders.service.ts:42-88 | pricing one more line after a successful prefix adds that line's cost or stops with its refusal |
| Pricing.StopsAt | src/orders/orders.service.ts:44-49 | if line `i` is the first refused one, the order is refused with its message and exactly `i` lines were processed |
| Pricing.SumCostsOkIffAll | src/orders/orders.service.ts:42-88 | the fail-fast sum succeeds iff every element is accepted |
| Pricing.SumCostsAppend | src/orders/orders.service.ts:42-88 | pricing a concatenation: the first part's refusal wins, then the second's, otherwise the totals add |
| Pricing.RotationKeepsTotal | src/orders/orders.service.ts:42-88 | rotating the cart of a priceable order leaves its total unchanged |
| Pricing.SumCostsMessages | src/orders/orders.service.ts:42-88 | every refusal of the sum is a refusal of some element |
| Pricing.OrderTotalMessages | src/orders/orders.service.ts:44-72 | pricing fails only with 'Dish not found', 'DishOption not found' or 'DishChoice not found' |
| Pricing.ItemCostDish | src/orders/orders.service.ts:43-52 | an unknown dish id is refused with 'Dish not found' whatever the options; a dish without options costs its price |
| Pricing.OptionCost | src/orders/orders.service.ts:53-80 | what one submitted option costs: an unknown option name gives 'DishOption not found' before any choice is looked at; a named choice that does not resolve under a found option gives 'DishChoice not found'; these are the only refusals, and priced iff the option's name resolves and, when a choice is named, the choice does too |
| Pricing.ItemCost | src/orders/orders.service.ts:43-81 | what one cart line costs: 'Dish not found' when the dish id is unknown; priced iff the dish exists and every submitted option of it can be priced |
| Pricing.OrderTotal | src/orders/orders.service.ts:42-88 | the order's total: it exists iff every cart line can be priced |
| Pricing.ChoiceAddsToOption | src/orders/orders.service.ts:53-80 | the option's own surcharge is added whether or not a choice is named; a resolved choice adds its surcharge on top of the option's price without a choice |
| Pricing.SubmittedNamesOnly | src/orders/orders.service.ts:53-66 | only names are read from a submitted option: its `cost` is ignored, and an empty choice name prices like no choice |
| Pricing.ZeroCostSameOption | src/orders/orders.service.ts:54-56 | clearing a stored surcharge of 0 changes neither which option a name finds nor what it adds |
| Pricing.ZeroCostIsNoCost | src/orders/orders.service.ts:78-80 | an option's stored surcharge of 0 prices exactly like an absent one (`if (dishOption.cost)` truthiness) |
| Pricing.ZeroCostSameChoice | src/orders/orders.service.ts:63-65 | clearing a choice surcharge of 0 changes neither whether an item finds a choice nor what it adds |
| Pricing.NewChoicesSameOption | src/orders/orders.service.ts:54 | replacing one option's choices keeps which option a name finds and its surcharge; the choices found are the new ones only when that option is found |
| Pricing.ZeroChoiceCostIsNoCost | src/orders/orders.service.ts:62-76 | a choice's stored surcharge of 0 prices exactly like an absent one (`if (dishChoice.cost)` truthiness) |
| Pricing.FirstOptionPriced | src/orders/orders.service.ts:54 | with repeated option names the first one is priced, as if it were the dish's only option |
| Pricing.SizeLargeScenario | src/orders/orders.service.ts:42-88 | price 10, option "Size" costing 2 and choice "Large" costing 3 total 15; an unknown dish id is refused |
| Orders.SavedItems | src/orders/orders.service.ts:84-87 | one saved OrderItem per priced cart line |
| Orders.PriceOption | src/orders/orders.service.ts:53-80 | one pass of the option loop computes exactly `Pricing.OptionCost`: the amount the option and its named choice add, or the refusal |
| Orders.AddOptionCosts | src/orders/orders.service.ts:53-81 | the option loop adds to `total` exactly the options' summed costs, or stops with the first option's refusal |
| Orders.AddItemCost | src/orders/orders.service.ts:43-82 | one pass of the item loop adds the line's cost (`Pricing.ItemCost`) to `total`, or stops with its refusal |
| Orders.PriceCart | src/orders/orders.service.ts:39-88 | the item loop computes `Pricing.OrderTotal` and the OrderItems of exactly the lines priced before it stops, numbered from the next id |
| Orders.OrdersService.constructor | src/orders/orders.service.ts:14-22 | empty order tables over the given restaurants and dishes, keys valid |
| Orders.OrdersService.SaveCart | src/orders/orders.service.ts:39-88 | the loop's effect on the tables: the OrderItems of the priced prefix are appended, orders untouched |
| Orders.OrdersService.CreateOrder | src/orders/orders.service.ts:24-108 | unknown restaurant: 'Restaurant not found' and no save; pricing refused: its message, no Order, but the OrderItems of earlier lines saved; otherwise one Order with the caller as customer, the items in cart order and the computed total |
| OrderAccess.IsAuthorized | src/orders/orders.service.ts:160-176 | Client iff it is the customer; Owner iff it owns the loaded restaurant (a missing relation throws); Delivery iff it is the assigned driver |
| OrderAccess.IsValidStatus | src/orders/orders.service.ts:213-227 | Owner iff Cooking or Cooked; Delivery iff PickedUp or Delivered; a Client is never refused |
| OrderAccess.GetOrder | src/orders/orders.service.ts:178-211 | no order with that id: 'Order not found'; for the first order with that id, granted by `isAuthorized` gives the order, refused gives 'Not authorized', a throwing owner read gives 'Cannot get order'; only these three messages occur |
| OrderAccess.GetOrderOfStored | src/orders/orders.service.ts:192-206 | under unique order ids, asking for a stored order's id is decided by `isAuthorized` on that order alone, in all three outcomes |
| OrderAccess.HasStatus | src/orders/orders.service.ts:122 | the `...(status && { status })` filter: no status keeps every order; `GetOrdersMembership` states its use |
| OrderAccess.OrdersOf | src/orders/orders.service.ts:131-133 | `restaurant.orders` loaded through `relations: ['orders']`: the orders whose restaurant is that one; `FlatOrdersMembership` states its contents |
| OrderAccess.LoadRestaurant | src/orders/orders.service.ts:183-186 | the `restaurant` relation loaded with an order: none without a restaurant id, otherwise a stored restaurant with that id, found whenever one is stored |
| OrderAccess.OwnedRestaurants | src/orders/orders.service.ts:127-132 | exactly the stored restaurants owned by the caller |
| OrderAccess.FlatOrders | src/orders/orders.service.ts:133 | `restaurants.map(r => r.orders).flat(1)`; `FlatOrdersMembership` states its contents and `OwnerFilterCommutes` its order |
| OrderAccess.GetOrders | src/orders/orders.service.ts:110-158 | the listing per role; its contents are stated by `GetOrdersMembership` and `GetOrdersAreAuthorized`, its order by `OwnerFilterCommutes` |
| OrderAccess.FlatOrdersMembership | src/orders/orders.service.ts:133 | an order is in the flattened list iff it belongs to one of the listed restaurants |
| OrderAccess.GetOrdersMembership | src/orders/orders.service.ts:117-145 | a Client sees its own orders, a driver the ones assigned to it, an Owner those of any restaurant it owns; always restricted to the given status |
| OrderAccess.GetOrdersAreAuthorized | src/orders/orders.service.ts:117-176 | under unique restaurant ids, `getOrders` lists exactly the orders of that status that `isAuthorized` grants the caller (no cross-role visibility) |
| OrderAccess.OwnerFilterCommutes | src/orders/orders.service.ts:133-136 | filtering the Owner's flattened list by status equals flattening the status-filtered orders, order included |
| OrderAccess.DeliveryNeedsAssignedDriver | src/orders/orders.service.ts:171-173 | a driver is never authorized for an order without a driver; a Client passes `isValidStatus` for every status |
| Orders.WithStatus | src/orders/orders.service.ts:249-254 | saving `{ id, status }`: the table keeps its length, only `status` can change in any row, and it becomes the new status exactly in the rows with that id |
| Orders.OrdersService.EditOrder | src/orders/orders.service.ts:229-265 | `getOrder`'s failure is passed on, then 'Invalid status'; on success only the `status` of the order with that id changes (items, total, ids untouched), and setting the current status again changes nothing |
| Auth.HasToken | src/auth/auth.guard.ts:25-27 | `if (!token)`: a missing or empty token is falsy |
| Auth.Authenticate | src/auth/auth.guard.ts:29-43 | a user is resolved iff verification succeeds with an object payload carrying an `id` and the lookup finds it; a throwing verification resolves nobody |
| Auth.Decide | src/auth/auth.guard.ts:16-47 | no roles metadata: granted and nothing attached; no token, or verification throws: denied and nothing attached; a user is attached iff one is resolved; with roles, granted iff a user is attached and the roles list 'Any' or the user's role |
| Auth.GqlContext.constructor | src/auth/auth.guard.ts:23-24 | a request context carrying the token and no user |
| Auth.CanActivate | src/auth/auth.guard.ts:16-47 | answers `Decide`'s verdict and writes the context's `user` exactly when `Decide` attaches one, leaving it as it was on every other path |
| Auth.Admits | src/auth/auth.guard.ts:46 | the role check: the roles include 'Any' or the user's role; its consequences are stated by `MoreRolesAdmitMore` and `AnyAdmitsAuthenticated` |
| Auth.MoreRolesAdmitMore | src/auth/auth.guard.ts:46 | a larger role list admits every request a smaller one admits |
| Auth.AnyAdmitsAuthenticated | src/auth/auth.guard.ts:46 | with 'Any', exactly the requests whose token resolves to a user are granted |
| Auth.GrantedMeansAuthenticated | src/auth/auth.guard.ts:21-46 | a granted request to a guarded route had a token resolving to the attached user, whose role is listed unless 'Any' is |
| Auth.DeniedButAttached | src/auth/auth.guard.ts:43-46 | an Owner on a Client-only route is denied yet attached to the context |
| Payments.GetPayments | src/payments/payments.service.ts:63-78 | the listed payments are exactly the stored ones whose user is the caller |
| Payments.CreatePaymentAsWritten | src/payments/payments.service.ts:21-61 | as sequenced in the source: a failed validation is returned as it is, and no call ever succeeds |
| Payments.OwnerPaymentRefusedAsWritten | src/payments/payments.service.ts:26-42 | the owner of restaurant 5 passes validation, and the payment is still refused with 'Cannot create payment' |
| Payments.PaymentsService.constructor | src/payments/payments.service.ts:16-19 | no payments, the given restaurants, keys valid |
| Payments.PaymentsService.CreatePayment | src/payments/payments.service.ts:21-61 | failed validation: returned unchanged, nothing modified; success: the restaurant with that id is promoted until `now + 7`, no other row changes, and one Payment with the transaction id, user and restaurant is appended |
| Payments.PaymentsService.CheckPromotedRestaurant | src/payments/payments.service.ts:80-92 | the restaurant table becomes `Sweep(old table, now)`; payments are untouched |
| Payments.Promoted | src/payments/payments.service.ts:37-40 | the paid row: `isPromoted` set and `promotedUntil` seven days after `now`; `CreatePayment` and `PromotionLastsAWeek` state its effect |
| Payments.Unpromoted | src/payments/payments.service.ts:88-89 | the swept row: `isPromoted` false and `promotedUntil` null; `SweepChangesOnlyExpired` states that every expired row ends so |
| Payments.Expired | src/payments/payments.service.ts:83-86 | the `isPromoted: true, promotedUntil: LessThan(now)` condition, with a null `promotedUntil` never less than `now` |
| Payments.PromotionExpired | src/payments/payments.service.ts:83-86 | the query returns exactly the stored restaurants that are expired at `now` |
| Payments.SaveRestaurant | src/payments/payments.service.ts:42 | `save` of a row with an id keeps the table's length; `SaveRestaurantOnly` states that exactly the row with that id is replaced |
| Payments.Sweep | src/payments/payments.service.ts:80-92 | the table after the sweep keeps its length; `SweepLeavesNoneExpired`, `SweepChangesOnlyExpired`, `SweepIdempotent` and `SweepKeepsIds` state what it changes |
| Payments.SweepStep | src/payments/payments.service.ts:87-91 | saving one expired row unpromoted advances the partial sweep by that row's id |
| Payments.SweepComplete | src/payments/payments.service.ts:83-91 | once every row the query returned is saved, the partial sweep is the whole sweep |
| Payments.SweepKeepsIds | src/payments/payments.service.ts:87-91 | the sweep keeps restaurant ids unique |
| Payments.SweepLeavesNoneExpired | src/payments/payments.service.ts:82-91 | after the sweep no restaurant is promoted with `promotedUntil` before `now` |
| Payments.SweepChangesOnlyExpired | src/payments/payments.service.ts:83-91 | a row changes iff it was expired, and then it ends with `isPromoted` false and `promotedUntil` null, id and owner kept; a promotion ending today survives (strict comparison) |
| Payments.SweepIdempotent | src/payments/payments.service.ts:83-91 | sweeping twice at the same time is sweeping once |
| Payments.PromotionLastsAWeek | src/payments/payments.service.ts:37-42 | a freshly paid promotion survives every sweep up to `now + 7` and is ended by the sweep of any later day |
| Payments.SaveRestaurantOnly | src/payments/payments.service.ts:42 | under unique ids, saving a row with a stored id replaces that row and no other |
| Users.Login | src/users/users.service.ts:32-53 | unknown email or a password check that rejects: "Couln't log in user"; success iff the check of the user found answers a match, and the token is 'Test token'; 'Check your email and password' iff it answers a mismatch |
| Users.FailingCheckRefusesAll | src/users/users.service.ts:35-51 | when the password check rejects for every user, every login answers "Couln't log in user" |
| Users.FindUserUnique | src/users/users.service.ts:34 | with unique emails, `findOne({ email })` is the user stored with that email |
| Users.LoginAfterSignUp | src/users/users.service.ts:24-46 | a user appended under an unused email logs in with its password when the check accepts it |
| Users.WrongPasswordMessage | src/users/users.service.ts:35-41 | a stored user whose password is refused gets 'Check your email and password' |
| Users.InsertKeepsEmailsUnique | src/users/users.service.ts:20-26 | appending a user with an unused email keeps emails unique |
| Users.UsersService.constructor | src/users/users.service.ts:10-12 | an empty, valid user table |
| Users.UsersService.CreateUser | src/users/users.service.ts:14-30 | email in use: 'There is a user with that email already' and no change; otherwise exactly one user with that email, password and role is appended; the email is in use afterwards |
| Users.SignUpTwice | test/app.e2e-spec.ts:49-95 | a second sign-up with the same email is refused, whatever the first one answered |

## Left out

- Persistence: the TypeORM repositories, SQL, relations and eager loading. Tables are sequences inside each service class. Each service holds its own copy of the tables it uses, and consistency between copies is not modelled.
- Catch-all errors that only a database failure raises.
  - These messages are out: 'Cannot create order', 'Cannot get orders', 'Cannot edit order', 'Cannot get payments' and "Couldn't create user".
  - Two caught exceptions come from the rules themselves, and they are modelled:
    - the null `order.restaurant` read gives 'Cannot get order';
    - the null user in `login`, and a rejecting `checkPassword`, give "Couln't log in user".
- OrderAccess.GetOrders: returns the list itself. With no database error, `ok` is always true.
- Orders.OrdersService.CreateOrder: the OrderItems are appended together once the loop stops, not one at a time inside it. Nothing else runs in between, so the resulting tables are the same.
- Auth: the JWT library, `Reflector` metadata and `token.toString()` are left out. `verify` is a parameter, and a payload `id` is taken to be a number.
- Auth: `usersService.userProfile` is not part of this model. It is the `lookup` parameter, and a lookup that throws is the same as one that finds nobody: both deny and attach nothing.
- Users: bcrypt hashing is left out. The password is stored as given, and `checkPassword` is a parameter that may reject (`CheckFailed`) or answer. Whether it rejects for users loaded without their `select: false` password column is not decided by the model; `Users.FailingCheckRefusesAll` states what follows if it does.
- Users: JWT signing is left out. `login` answers the fixed 'Test token' the service returns.
- The `verified` flag of users, mail sending and verification codes are left out. They belong to a users service other than the one modelled.
- Date arithmetic is modelled on whole days (`now + 7`). The daily cron schedule is left out; the sweep is a method taking `now`.
- Promotion columns: the restaurant entity file in the repository has no `isPromoted`/`promotedUntil` columns. They are modelled as the payments service uses them.
- JavaScript numbers are modelled as unbounded integers, without floating point or overflow.
- The `async` interleaving of service calls is left out; every call runs to completion in sequence.
- DishRepository.FindAndValidate: requires every dish's restaurant to be stored. This is an assumption about the data, not a schema guarantee: the `dish.restaurant` relation is declared only with `onDelete: 'CASCADE'` and is nullable by default. The model therefore does not cover the throw on `dish.restaurant.ownerId` of a dish without a restaurant.
- Payments.PaymentsService.CreatePayment: acts on the restaurant found by `restaurantId` rather than on a `restaurant` returned by the validator, which returns none (see Findings).

## Findings

| source | as written | input that shows it | evidently intended | confidence | as-written member | corrected member |
|---|---|---|---|---|---|---|
| src/payments/payments.service.ts:26-42 | `createPayment` destructures a `restaurant` from the restaurant repository's `findAndValidate`, whose result never has one (src/restaurants/repositories/restaurant.repository.ts:24-26). Setting `restaurant.isPromoted` then throws, and the `catch` answers 'Cannot create payment' | owner 1 pays for restaurant 5, which owner 1 owns: validation passes and the payment is refused | promote the validated restaurant for 7 days and record the payment | high, not executed | Payments.CreatePaymentAsWritten (counterexample Payments.OwnerPaymentRefusedAsWritten) | Payments.PaymentsService.CreatePayment |
