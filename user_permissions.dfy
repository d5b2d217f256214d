/** users/permissions.py: ownership and staff permission classes. */
module UserPermissions {
  import opened Accounts

  /**
   * `IsOwner.has_object_permission`: `obj == request.user`. Django compares
   * model instances by primary key; AnonymousUser equals no account.
   */
  predicate IsOwner(requester: Requester, obj: User)
  {
    requester.Authenticated? && requester.user.id == obj.id
  }

  /** `IsAdmin.has_permission`, which takes no object and ignores the view. */
  predicate IsAdmin(requester: Requester)
  {
    requester.IsStaff()
  }

  /** The owner is granted access to its own object, and nobody is granted another user's object. */
  lemma OwnerOnly(requester: Requester, obj: User)
    ensures IsOwner(requester, obj) <==> requester.Authenticated? && requester.user.id == obj.id
    ensures requester.Authenticated? && requester.user.id != obj.id ==> !IsOwner(requester, obj)
    ensures requester.Anonymous? ==> !IsOwner(requester, obj)
  {
  }

  /** IsAdmin grants access exactly to authenticated staff. */
  lemma AdminIsStaff(requester: Requester)
    ensures IsAdmin(requester) <==> requester.Authenticated? && requester.user.isStaff
  {
  }
}
