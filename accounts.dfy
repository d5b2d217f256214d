/**
 * The authenticated principal of a request. Only the primary key and the
 * staff flag matter to the rules of the shop; names, e-mail and phone are
 * carried where a rule reads them.
 */
module Accounts {

  datatype User = User(id: nat, isStaff: bool)

  /** `request.user`: either Django's AnonymousUser or a real account. */
  datatype Requester = Anonymous | Authenticated(user: User) {

    /** `request.user.is_staff`; AnonymousUser's flag is always false. */
    predicate IsStaff() {
      Authenticated? && user.isStaff
    }
  }
}
