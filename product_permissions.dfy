/** products/permissions.py: the read-only-unless-staff permission class. */
module ProductPermissions {
  import opened Accounts

  /** DRF's SAFE_METHODS. */
  const SafeMethods: set<string> := {"GET", "HEAD", "OPTIONS"}

  /** `IsAdminOrReadOnly.has_permission`: safe methods for everyone, writes for staff. */
  predicate IsAdminOrReadOnly(httpMethod: string, requester: Requester)
  {
    httpMethod in SafeMethods || requester.IsStaff()
  }

  /** GET, HEAD and OPTIONS are granted to every requester, anonymous ones included. */
  lemma SafeMethodsAlwaysGranted(httpMethod: string, requester: Requester)
    requires httpMethod == "GET" || httpMethod == "HEAD" || httpMethod == "OPTIONS"
    ensures IsAdminOrReadOnly(httpMethod, requester)
  {
  }

  /** Any other httpMethod is granted exactly to staff users; anonymous and non-staff writes are denied. */
  lemma WritesNeedStaff(httpMethod: string, requester: Requester)
    requires httpMethod !in SafeMethods
    ensures IsAdminOrReadOnly(httpMethod, requester) <==> requester.Authenticated? && requester.user.isStaff
    ensures requester.Anonymous? ==> !IsAdminOrReadOnly(httpMethod, requester)
  {
  }

  /** The decision depends on the method and the staff flag only, never on who the user is. */
  lemma DependsOnlyOnStaffFlag(httpMethod: string, a: Requester, b: Requester)
    requires a.IsStaff() == b.IsStaff()
    ensures IsAdminOrReadOnly(httpMethod, a) == IsAdminOrReadOnly(httpMethod, b)
  {
  }
}
