/** Small value types shared by every module: optional values, the outcome of a
    route, and the page a successful login lands on. */
module Base {

  datatype Option<T> = None | Some(value: T)

  /** What a route reports instead of success: one constructor per distinct
      redirect-with-flash branch of the handlers. */
  datatype Error =
    | LoginRequired       // `login_required` bounced a request without a live session
    | AccessDenied        // the actor's role is not the one the route insists on
    | DuplicateUsername   // a user with that username already exists
    | InvalidCredentials  // no such user, or the password does not verify
    | PendingApproval     // the password verifies but the account is not approved
    | NotFound            // `get_or_404` found no such product
    | Unavailable         // the product is missing or has too little stock
    | InvalidQuantity     // the quantity field is out of range
    | NotOwner            // the product belongs to another merchant
    | ServerError         // the request fails inside the handler: an order's buyer is gone, or a redirect names no route

  datatype Result<T> = Ok(value: T) | Err(error: Error)

  /** The dashboard a login redirects to; `LoginPage` when the role is none
      of the three known ones. */
  datatype Landing = UserHome | MerchantDashboard | AdminDashboard | LoginPage

  /** The session `login_user` establishes: who is logged in and where they land. */
  datatype Session = Session(userId: int, landing: Landing)
}
