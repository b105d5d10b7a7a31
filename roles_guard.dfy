/**
 * The roles guard: a route's required roles come from handler metadata,
 * falling back to class metadata, and the request's user passes when its role
 * is listed. The reflector lookup and the execution context become inputs.
 */
module RolesGuard {
  import opened Wrappers
  import opened Tokens
  import opened JwtStrategy

  /** reflector.getAllAndOverride(ROLES_KEY, [handler, class]): the first metadata that is set. */
  function RequiredRoles(handler: Option<seq<string>>, cls: Option<seq<string>>): (roles: Option<seq<string>>)
    ensures handler.Some? ==> roles == handler
    ensures handler.None? ==> roles == cls
  {
    if handler.Some? then handler else cls
  }

  /** canActivate: true without metadata, otherwise `roles.includes(user?.role)`. */
  function CanActivate(handler: Option<seq<string>>, cls: Option<seq<string>>, user: Option<Principal>): (allowed: bool)
    ensures handler.None? && cls.None? ==> allowed
    ensures RequiredRoles(handler, cls).Some? ==>
              (allowed <==> user.Some? && user.value.role in RequiredRoles(handler, cls).value)
    ensures RequiredRoles(handler, cls).Some? && user.None? ==> !allowed
    ensures RequiredRoles(handler, cls) == Some([]) ==> !allowed
  {
    var roles := RequiredRoles(handler, cls);
    if roles.None? then true
    else user.Some? && user.value.role in roles.value
  }

  /** Handler roles, when set, decide alone: class roles are ignored. */
  lemma HandlerRolesOverrideClass(handler: Option<seq<string>>, cls: Option<seq<string>>, user: Option<Principal>)
    requires handler.Some?
    ensures CanActivate(handler, cls, user) == CanActivate(handler, None, user)
  {
  }

  /** Without handler roles, the class roles decide as if they were on the handler. */
  lemma ClassRolesApplyWithoutHandler(cls: Option<seq<string>>, user: Option<Principal>)
    ensures CanActivate(None, cls, user) == CanActivate(cls, None, user)
  {
  }

  /**
   * The admin-only route (`@Roles('ADMIN')` on the handler): a user
   * authenticated from an access token signed for an account passes exactly
   * when that account's role is ADMIN.
   */
  lemma AdminOnlyRoute(config: Config, id: string, role: string, email: string, now: int)
    requires Present(config.accessSecret)
    ensures CanActivate(Some(["ADMIN"]), None,
                        Some(Validate(SignAccessToken(config, id, role, email, now).value.payload)))
            <==> role == "ADMIN"
  {
    ValidateSignedAccessToken(config, id, role, email, now);
  }
}
