/** `PaymentsService`: paying for a promotion marks a restaurant promoted for a week and
    records the payment; a daily sweep ends the promotions that have expired. Time is a
    whole number of days. */
module Payments {
  import opened Common
  import opened Entities
  import RestaurantRepository

  const PromotionDays := 7
  const CannotCreatePayment := "Cannot create payment"

  /** `save(entity)` for an entity that has an id: the stored row with that id becomes it. */
  function SaveRestaurant(restaurants: seq<Restaurant>, restaurant: Restaurant): (r: seq<Restaurant>)
    ensures |r| == |restaurants|
  {
    seq(|restaurants|, k requires 0 <= k < |restaurants| =>
      if restaurants[k].id == restaurant.id then restaurant else restaurants[k])
  }

  /** The row that `createPayment` saves for the paid restaurant. */
  function Promoted(restaurant: Restaurant, now: int): Restaurant
  {
    restaurant.(isPromoted := true, promotedUntil := Some(now + PromotionDays))
  }

  /** `find({ isPromoted: true, promotedUntil: LessThan(now) })`, row by row; a null
      `promotedUntil` is never less than anything. */
  predicate Expired(restaurant: Restaurant, now: int)
  {
    restaurant.isPromoted && restaurant.promotedUntil.Some? && restaurant.promotedUntil.value < now
  }

  /** The row the sweep saves for an expired restaurant. */
  function Unpromoted(restaurant: Restaurant): Restaurant
  {
    restaurant.(isPromoted := false, promotedUntil := None)
  }

  function PromotionExpired(restaurants: seq<Restaurant>, now: int): (r: seq<Restaurant>)
    ensures forall x :: x in r <==> x in restaurants && Expired(x, now)
  {
    Filter(restaurants, (r: Restaurant) => Expired(r, now))
  }

  /** The table once the expired rows whose ids are in `done` have been saved. */
  function SweptSoFar(restaurants: seq<Restaurant>, now: int, done: set<nat>): (r: seq<Restaurant>)
    ensures |r| == |restaurants|
  {
    seq(|restaurants|, k requires 0 <= k < |restaurants| =>
      if Expired(restaurants[k], now) && restaurants[k].id in done then Unpromoted(restaurants[k])
      else restaurants[k])
  }

  /** The table after `checkPromotedRestaurant` at time `now`. */
  function Sweep(restaurants: seq<Restaurant>, now: int): (r: seq<Restaurant>)
    ensures |r| == |restaurants|
  {
    seq(|restaurants|, k requires 0 <= k < |restaurants| =>
      if Expired(restaurants[k], now) then Unpromoted(restaurants[k]) else restaurants[k])
  }

  /** `getPayments(user)`: `find({ user })` on the payment table. */
  function GetPayments(payments: seq<Payment>, user: User): (r: seq<Payment>)
    ensures forall p :: p in r <==> p in payments && p.userId == user.id
    ensures |r| <= |payments|
  {
    Filter(payments, (p: Payment) => p.userId == user.id)
  }

  /** `createPayment` exactly as the source sequences it. The repository's validation
      result has no `restaurant`, so the destructured `restaurant` is `undefined`, setting
      `isPromoted` on it throws, and the `catch` answers the generic message. */
  function CreatePaymentAsWritten(restaurants: seq<Restaurant>, user: User, restaurantId: nat): (r: CoreOutput)
    ensures !RestaurantRepository.FindAndValidate(restaurants, restaurantId, user).ok ==>
      r == RestaurantRepository.FindAndValidate(restaurants, restaurantId, user)
    ensures !r.ok
  {
    var validation := RestaurantRepository.FindAndValidate(restaurants, restaurantId, user);
    if !validation.ok then validation else Failure(CannotCreatePayment)
  }

  /** The owner of a restaurant pays for it, and the payment as written is still refused. */
  lemma OwnerPaymentRefusedAsWritten()
    ensures
      var owner := User(1, "owner@example.com", "secret", Owner);
      var restaurants := [Restaurant(5, 1, false, None)];
      RestaurantRepository.FindAndValidate(restaurants, 5, owner).ok &&
      CreatePaymentAsWritten(restaurants, owner, 5) == Failure(CannotCreatePayment)
  {
    var restaurants := [Restaurant(5, 1, false, None)];
    assert FindRestaurantIndex(restaurants, 5) == Some(0);
  }

  class PaymentsService {
    var restaurants: seq<Restaurant>
    var payments: seq<Payment>
    var nextPaymentId: nat

    /** Primary keys are unique, and payment ids are below the next generated one. */
    ghost predicate Valid()
      reads this
    {
      && UniqueRestaurantIds(restaurants)
      && (forall k :: 0 <= k < |payments| ==> payments[k].id < nextPaymentId)
    }

    constructor (restaurants: seq<Restaurant>)
      requires UniqueRestaurantIds(restaurants)
      ensures Valid()
      ensures this.restaurants == restaurants && payments == []
    {
      this.restaurants := restaurants;
      payments := [];
      nextPaymentId := 1;
    }

    /** `createPayment(user, { transactionId, restaurantId }, now)`, acting on the restaurant
        that `findAndValidate` looked up by `restaurantId` (the repository does not hand it
        back). A failed validation is returned as it is and changes nothing. */
    method CreatePayment(user: User, transactionId: string, restaurantId: nat, now: int) returns (r: CoreOutput)
      requires Valid()
      modifies this
      ensures Valid()
      ensures !RestaurantRepository.FindAndValidate(old(restaurants), restaurantId, user).ok ==>
        && r == RestaurantRepository.FindAndValidate(old(restaurants), restaurantId, user)
        && restaurants == old(restaurants) && payments == old(payments)
      ensures RestaurantRepository.FindAndValidate(old(restaurants), restaurantId, user).ok ==>
        && r == Success()
        && restaurants == SaveRestaurant(old(restaurants), Promoted(FindRestaurant(old(restaurants), restaurantId).value, now))
        && payments == old(payments) + [Payment(old(nextPaymentId), transactionId, user.id, restaurantId)]
      ensures RestaurantRepository.FindAndValidate(old(restaurants), restaurantId, user).ok ==>
        && FindRestaurant(restaurants, restaurantId).Some?
        && FindRestaurant(restaurants, restaurantId).value.isPromoted
        && FindRestaurant(restaurants, restaurantId).value.promotedUntil == Some(now + PromotionDays)
        && |restaurants| == |old(restaurants)|
        && forall k :: 0 <= k < |restaurants| && old(restaurants)[k].id != restaurantId ==>
             restaurants[k] == old(restaurants)[k]
    {
      var validation := RestaurantRepository.FindAndValidate(restaurants, restaurantId, user);
      if !validation.ok {
        return validation;
      }
      var k := FindRestaurantIndex(restaurants, restaurantId).value;
      var restaurant := restaurants[k];
      FindRestaurantUnique(restaurants, k);
      SaveRestaurantOnly(restaurants, k, Promoted(restaurant, now));
      restaurants := SaveRestaurant(restaurants, Promoted(restaurant, now));
      FindRestaurantUnique(restaurants, k);
      payments := payments + [Payment(nextPaymentId, transactionId, user.id, restaurantId)];
      nextPaymentId := nextPaymentId + 1;
      r := Success();
    }

    /** `checkPromotedRestaurant(now)`: saves every expired restaurant as unpromoted. */
    method CheckPromotedRestaurant(now: int)
      requires Valid()
      modifies this
      ensures Valid()
      ensures restaurants == Sweep(old(restaurants), now)
      ensures payments == old(payments) && nextPaymentId == old(nextPaymentId)
    {
      var promotionExpired := PromotionExpired(restaurants, now);
      ghost var done: set<nat> := {};
      var i := 0;
      while i < |promotionExpired|
        invariant 0 <= i <= |promotionExpired|
        invariant forall j :: 0 <= j < i ==> promotionExpired[j].id in done
        invariant restaurants == SweptSoFar(old(restaurants), now, done)
        invariant payments == old(payments) && nextPaymentId == old(nextPaymentId)
      {
        var restaurant := promotionExpired[i];
        SweepStep(old(restaurants), now, done, restaurant);
        restaurants := SaveRestaurant(restaurants, Unpromoted(restaurant));
        done := done + {restaurant.id};
        i := i + 1;
      }
      SweepComplete(old(restaurants), now, done);
      SweepKeepsIds(old(restaurants), now);
    }
  }

  /** One pass of the sweep loop: saving an expired row unpromoted marks its id done. */
  lemma SweepStep(restaurants: seq<Restaurant>, now: int, done: set<nat>, restaurant: Restaurant)
    requires UniqueRestaurantIds(restaurants)
    requires restaurant in restaurants && Expired(restaurant, now)
    ensures SaveRestaurant(SweptSoFar(restaurants, now, done), Unpromoted(restaurant)) ==
      SweptSoFar(restaurants, now, done + {restaurant.id})
  {
    var before := SweptSoFar(restaurants, now, done);
    var after := SweptSoFar(restaurants, now, done + {restaurant.id});
    var saved := SaveRestaurant(before, Unpromoted(restaurant));
    forall k | 0 <= k < |restaurants|
      ensures saved[k] == after[k]
    {
      if restaurants[k].id == restaurant.id {
        var m :| 0 <= m < |restaurants| && restaurants[m] == restaurant;
        assert k == m;
      }
    }
  }

  /** Once every expired row is done, the partial sweep is the whole sweep. */
  lemma SweepComplete(restaurants: seq<Restaurant>, now: int, done: set<nat>)
    requires forall r :: r in PromotionExpired(restaurants, now) ==> r.id in done
    ensures SweptSoFar(restaurants, now, done) == Sweep(restaurants, now)
  {
    forall k | 0 <= k < |restaurants| && Expired(restaurants[k], now)
      ensures restaurants[k].id in done
    {
      assert restaurants[k] in PromotionExpired(restaurants, now);
    }
  }

  /** The sweep rewrites promotion fields only, so the primary keys stay unique. */
  lemma SweepKeepsIds(restaurants: seq<Restaurant>, now: int)
    requires UniqueRestaurantIds(restaurants)
    ensures UniqueRestaurantIds(Sweep(restaurants, now))
  {
    var swept := Sweep(restaurants, now);
    assert forall k :: 0 <= k < |restaurants| ==> swept[k].id == restaurants[k].id;
  }

  /** After the sweep no restaurant is still promoted with a `promotedUntil` before `now`. */
  lemma SweepLeavesNoneExpired(restaurants: seq<Restaurant>, now: int)
    ensures forall k :: 0 <= k < |restaurants| ==> !Expired(Sweep(restaurants, now)[k], now)
  {
  }

  /** The sweep touches exactly the expired rows and, on them, only the promotion fields;
      a promotion that ends today (`promotedUntil == now`) survives, the comparison being
      strict. */
  lemma SweepChangesOnlyExpired(restaurants: seq<Restaurant>, now: int, k: nat)
    requires k < |restaurants|
    ensures Sweep(restaurants, now)[k] != restaurants[k] <==> Expired(restaurants[k], now)
    ensures Sweep(restaurants, now)[k].id == restaurants[k].id
    ensures Sweep(restaurants, now)[k].ownerId == restaurants[k].ownerId
    ensures restaurants[k].promotedUntil == Some(now) ==> Sweep(restaurants, now)[k] == restaurants[k]
    ensures Expired(restaurants[k], now) ==>
      !Sweep(restaurants, now)[k].isPromoted && Sweep(restaurants, now)[k].promotedUntil.None?
  {
  }

  /** Sweeping twice at the same time is sweeping once. */
  lemma SweepIdempotent(restaurants: seq<Restaurant>, now: int)
    ensures Sweep(Sweep(restaurants, now), now) == Sweep(restaurants, now)
  {
  }

  /** A freshly paid promotion is the row with that id, and it survives every sweep up to
      and including the day it ends; the sweep of the next day ends it. */
  lemma PromotionLastsAWeek(restaurants: seq<Restaurant>, k: nat, now: int, later: int)
    requires UniqueRestaurantIds(restaurants) && k < |restaurants|
    ensures SaveRestaurant(restaurants, Promoted(restaurants[k], now))[k] == Promoted(restaurants[k], now)
    ensures later <= now + PromotionDays ==>
      Sweep(SaveRestaurant(restaurants, Promoted(restaurants[k], now)), later)[k].isPromoted
    ensures later > now + PromotionDays ==>
      !Sweep(SaveRestaurant(restaurants, Promoted(restaurants[k], now)), later)[k].isPromoted
  {
  }

  /** `save` of a row with a stored id changes that row and no other. */
  lemma SaveRestaurantOnly(restaurants: seq<Restaurant>, k: nat, restaurant: Restaurant)
    requires UniqueRestaurantIds(restaurants) && k < |restaurants| && restaurant.id == restaurants[k].id
    ensures SaveRestaurant(restaurants, restaurant) == restaurants[k := restaurant]
  {
    var saved := SaveRestaurant(restaurants, restaurant);
    forall j | 0 <= j < |restaurants| && j != k
      ensures saved[j] == restaurants[j]
    {
      assert restaurants[j].id != restaurants[k].id;
    }
  }
}
