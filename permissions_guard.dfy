// The permissions guard: which requests reach a handler that declares
// required permissions.
module PermissionsGuard {
  import opened Common

  /** The `user` a request carries after authentication; `permissions` is
      absent when no strategy put it there. */
  datatype RequestUser = RequestUser(permissions: Option<seq<string>>)

  /** `required.some(p => granted.includes(p))`. */
  function AnyGranted(required: seq<string>, granted: seq<string>): (r: bool)
    ensures r <==> exists p :: p in required && p in granted
  {
    if required == [] then false
    else if required[0] in granted then true
    else
      assert forall p :: p in required ==> p == required[0] || p in required[1..];
      AnyGranted(required[1..], granted)
  }

  /** `canActivate`: no or no required permissions allow; otherwise a
      missing user or permission list denies, and at least one required
      permission (any of them, not all) must be granted. */
  function CanActivate(required: Option<seq<string>>, user: Option<RequestUser>): (r: bool)
    ensures required.None? || required.value == [] ==> r
    ensures required.Some? && required.value != [] && (user.None? || user.value.permissions.None?) ==> !r
    ensures required.Some? && required.value != [] && user.Some? && user.value.permissions.Some? ==>
      (r <==> exists p :: p in required.value && p in user.value.permissions.value)
  {
    if required.None? || |required.value| == 0 then true
    else if user.None? || user.value.permissions.None? then false
    else AnyGranted(required.value, user.value.permissions.value)
  }

  /** Granting a user more permissions never turns an allowed request into
      a denied one. */
  lemma GuardMonotonic(required: Option<seq<string>>, granted: seq<string>, more: seq<string>)
    requires forall p :: p in granted ==> p in more
    ensures CanActivate(required, Some(RequestUser(Some(granted)))) ==> CanActivate(required, Some(RequestUser(Some(more))))
  {
    if required.Some? && required.value != [] && CanActivate(required, Some(RequestUser(Some(granted)))) {
      var p :| p in required.value && p in granted;
      assert p in more;
    }
  }

  /** One granted permission among several required ones is enough: the
      guard asks for any of them, not all. */
  lemma OneRequiredPermissionSuffices(required: seq<string>, granted: seq<string>, p: string)
    requires p in required && p in granted
    ensures CanActivate(Some(required), Some(RequestUser(Some(granted))))
  {
  }
}
