/** `RestaurantRepository.findAndValidate`: look the restaurant up, then check that the
    caller owns it. It reads the table and changes nothing, so it is a function of it. */
module RestaurantRepository {
  import opened Common
  import opened Entities

  const CouldNotFindRestaurant := "Could not find restaurant"
  const NotYourRestaurant := "You cannot delete restaurant you do not own"

  /** The not-found check comes first, then the ownership check; the result carries no
      restaurant, exactly as the repository's `CoreOutput` return type says. */
  function FindAndValidate(restaurants: seq<Restaurant>, id: nat, owner: User): (r: CoreOutput)
    ensures (forall k :: 0 <= k < |restaurants| ==> restaurants[k].id != id) ==>
      r == Failure(CouldNotFindRestaurant)
    ensures r.ok <==>
      exists k :: 0 <= k < |restaurants| && restaurants[k].id == id && restaurants[k].ownerId == owner.id
        && forall j :: 0 <= j < k ==> restaurants[j].id != id
    ensures !r.ok ==> r.error == Some(CouldNotFindRestaurant) || r.error == Some(NotYourRestaurant)
    ensures r.ok ==> r == Success()
  {
    match FindRestaurantIndex(restaurants, id)
    case None => Failure(CouldNotFindRestaurant)
    case Some(k) =>
      if owner.id != restaurants[k].ownerId then Failure(NotYourRestaurant) else Success()
  }

  /** Under the primary-key constraint: validation passes exactly when the stored restaurant
      with that id belongs to the caller, and a restaurant that exists but belongs to someone
      else is refused with the ownership message. */
  lemma {:induction false} FindAndValidateOwned(restaurants: seq<Restaurant>, k: nat, owner: User)
    requires UniqueRestaurantIds(restaurants) && k < |restaurants|
    ensures FindAndValidate(restaurants, restaurants[k].id, owner).ok <==> restaurants[k].ownerId == owner.id
    ensures restaurants[k].ownerId != owner.id ==>
      FindAndValidate(restaurants, restaurants[k].id, owner) == Failure(NotYourRestaurant)
  {
    FindRestaurantUnique(restaurants, k);
  }
}
