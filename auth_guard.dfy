/** `AuthGuard.canActivate`: whether a GraphQL request may reach its resolver, from the
    roles the handler declares, the request's token, token verification and the user
    lookup. Verification and lookup are parameters: `verify` stands for the JWT check and
    `lookup` for the user-by-id query. */
module Auth {
  import opened Common
  import opened Entities

  /** A role a handler accepts: one of the user roles, or 'Any'. */
  datatype AllowedRole = Any | Role(role: UserRole)

  /** What a verified token decodes to: a non-object value, or an object that may or may
      not carry an `id` property. */
  datatype Payload = NotAnObject | Object(id: Option<int>)

  /** The outcome of `verify`: it throws (`Rejected`) or returns a payload. */
  datatype Verified = Rejected | Verified(payload: Payload)

  /** The guard's answer, and the user it stores into the request context, if any. */
  datatype Decision = Decision(granted: bool, attached: Option<User>)

  /** JS truthiness of the context's `token`: missing and empty are both falsy. */
  predicate HasToken(token: Option<string>)
  {
    token.Some? && token.value != []
  }

  /** The user the token resolves to: verification must succeed, the payload must be an
      object with an `id`, and the lookup must find a user. */
  function Authenticate(token: string, verify: string -> Verified, lookup: int -> Option<User>): (u: Option<User>)
    ensures verify(token).Rejected? ==> u.None?
    ensures u.Some? <==>
      (verify(token).Verified? && verify(token).payload.Object? && verify(token).payload.id.Some? &&
       lookup(verify(token).payload.id.value).Some?)
    ensures u.Some? ==> u == lookup(verify(token).payload.id.value)
  {
    match verify(token)
    case Rejected => None
    case Verified(NotAnObject) => None
    case Verified(Object(None)) => None
    case Verified(Object(Some(id))) => lookup(id)
  }

  /** Whether a role list admits a user: it lists 'Any' or the user's own role. */
  predicate Admits(roles: seq<AllowedRole>, user: User)
  {
    Any in roles || Role(user.role) in roles
  }

  /** The decision `canActivate` takes. Without roles metadata the route is public and
      nothing is attached; an empty role list is still metadata and admits nobody. */
  function Decide(roles: Option<seq<AllowedRole>>, token: Option<string>,
                  verify: string -> Verified, lookup: int -> Option<User>): (d: Decision)
    ensures roles.None? ==> d == Decision(true, None)
    ensures roles.Some? && !HasToken(token) ==> d == Decision(false, None)
    ensures roles.Some? && HasToken(token) && verify(token.value).Rejected? ==> d == Decision(false, None)
    ensures d.attached.Some? <==>
      (roles.Some? && HasToken(token) && Authenticate(token.value, verify, lookup).Some?)
    ensures d.attached.Some? ==> d.attached == Authenticate(token.value, verify, lookup)
    ensures roles.Some? ==> (d.granted <==> d.attached.Some? && Admits(roles.value, d.attached.value))
  {
    if roles.None? then Decision(true, None)
    else if !HasToken(token) then Decision(false, None)
    else
      match Authenticate(token.value, verify, lookup)
      case None => Decision(false, None)
      case Some(user) => Decision(Admits(roles.value, user), Some(user))
  }

  /** The GraphQL request context: the token the request carried and the `user` slot the
      guard fills in. */
  class GqlContext {
    var token: Option<string>
    var user: Option<User>

    constructor (token: Option<string>)
      ensures this.token == token && user.None?
    {
      this.token := token;
      user := None;
    }
  }

  /** `canActivate(context)`: the early returns of the guard, with its single write into the
      request context made right before the role check. */
  method CanActivate(roles: Option<seq<AllowedRole>>, context: GqlContext,
                     verify: string -> Verified, lookup: int -> Option<User>) returns (granted: bool)
    modifies context
    ensures granted == Decide(roles, old(context.token), verify, lookup).granted
    ensures context.token == old(context.token)
    ensures context.user ==
      (if Decide(roles, old(context.token), verify, lookup).attached.Some?
       then Decide(roles, old(context.token), verify, lookup).attached
       else old(context.user))
  {
    if roles.None? {
      return true;
    }
    var token := context.token;
    if !HasToken(token) {
      return false;
    }
    var user: Option<User> := None;
    var decoded := verify(token.value);
    if decoded.Rejected? {
      return false;
    }
    if decoded.payload.Object? && decoded.payload.id.Some? {
      user := lookup(decoded.payload.id.value);
    }
    if user.None? {
      return false;
    }
    context.user := user;
    granted := Any in roles.value || Role(user.value.role) in roles.value;
  }

  /** Adding roles to a handler never locks out a request it admitted before. */
  lemma MoreRolesAdmitMore(roles: seq<AllowedRole>, more: seq<AllowedRole>, token: Option<string>,
                           verify: string -> Verified, lookup: int -> Option<User>)
    requires forall a :: a in roles ==> a in more
    ensures Decide(Some(roles), token, verify, lookup).granted ==> Decide(Some(more), token, verify, lookup).granted
    ensures Decide(Some(more), token, verify, lookup).attached == Decide(Some(roles), token, verify, lookup).attached
  {
  }

  /** 'Any' admits exactly the requests whose token resolves to a user. */
  lemma AnyAdmitsAuthenticated(roles: seq<AllowedRole>, token: Option<string>,
                               verify: string -> Verified, lookup: int -> Option<User>)
    requires Any in roles
    ensures Decide(Some(roles), token, verify, lookup).granted <==>
      HasToken(token) && Authenticate(token.value, verify, lookup).Some?
  {
  }

  /** A guarded route is only ever entered by the user the token names, and that user is
      in the context; a role list without 'Any' admits only the roles it lists. */
  lemma GrantedMeansAuthenticated(roles: seq<AllowedRole>, token: Option<string>,
                                  verify: string -> Verified, lookup: int -> Option<User>)
    requires Decide(Some(roles), token, verify, lookup).granted
    ensures HasToken(token)
    ensures Decide(Some(roles), token, verify, lookup).attached == Authenticate(token.value, verify, lookup)
    ensures Authenticate(token.value, verify, lookup).Some?
    ensures Any !in roles ==> Role(Authenticate(token.value, verify, lookup).value.role) in roles
  {
  }

  /** The user is attached even when the role check then refuses: an Owner calling a
      Client-only route ends up in the context but is denied. */
  lemma DeniedButAttached()
    ensures
      var owner := User(7, "owner@example.com", "secret", Owner);
      var d := Decide(Some([Role(Client)]), Some("t"), (s: string) => Verified(Object(Some(7))),
                      (id: int) => if id == 7 then Some(owner) else None);
      !d.granted && d.attached == Some(owner)
  {
  }
}
