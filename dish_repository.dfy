/** `DishRepository.findAndValidate`: look the dish up with its restaurant, then check
    that the caller owns that restaurant. Reads only. */
module DishRepository {
  import opened Common
  import opened Entities

  const CouldNotFindDish := "Could not find dish"
  const NotAuthorized := "Not authorized"

  /** The `ownerId` of the restaurant stored under `restaurantId`, if there is one. */
  function OwnerOf(restaurants: seq<Restaurant>, restaurantId: nat): Option<nat>
  {
    match FindRestaurant(restaurants, restaurantId)
    case None => None
    case Some(x) => Some(x.ownerId)
  }

  /** The dish with id `id`, or why the caller may not change it. The owner read is only
      defined when the dish's restaurant is stored, which `DishesHaveRestaurants` assumes
      of the data; a dish without one, on which the source throws, is not covered. */
  function FindAndValidate(dishes: seq<Dish>, restaurants: seq<Restaurant>, id: nat, owner: User): (r: Result<Dish>)
    requires DishesHaveRestaurants(dishes, restaurants)
    ensures (forall k :: 0 <= k < |dishes| ==> dishes[k].id != id) ==> r == Err(CouldNotFindDish)
    ensures r.Ok? ==> r.value in dishes && r.value.id == id && Some(r.value) == FindDish(dishes, id)
    ensures r.Ok? <==>
      (FindDish(dishes, id).Some? && OwnerOf(restaurants, FindDish(dishes, id).value.restaurantId) == Some(owner.id))
    ensures r.Err? ==> r.error == CouldNotFindDish || r.error == NotAuthorized
  {
    match FindDish(dishes, id)
    case None => Err(CouldNotFindDish)
    case Some(dish) =>
      var restaurant := FindRestaurant(restaurants, dish.restaurantId);
      assert restaurant.Some? by {
        var k :| 0 <= k < |dishes| && dishes[k] == dish;
      }
      if owner.id != restaurant.value.ownerId then Err(NotAuthorized) else Ok(dish)
  }

  /** The not-found check takes precedence: a found dish is refused only for ownership. */
  lemma {:induction false} ExistingDishNeedsOwnership(dishes: seq<Dish>, restaurants: seq<Restaurant>, k: nat, owner: User)
    requires DishesHaveRestaurants(dishes, restaurants) && k < |dishes|
    ensures FindAndValidate(dishes, restaurants, dishes[k].id, owner).Err? ==>
      FindAndValidate(dishes, restaurants, dishes[k].id, owner) == Err(NotAuthorized)
  {
    assert FindDish(dishes, dishes[k].id).Some?;
  }
}
