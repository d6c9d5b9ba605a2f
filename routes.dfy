/** The read-only protected handlers of index.js, each composed with the
    middleware it is mounted behind: `/admin-stats` and `/order-stats`
    (token and admin role), `/users/admin/:email` and `/payment/:email`
    (token and self-only email). */
module Routes {
  import opened Wrappers
  import opened Records
  import opened Gate
  import opened Analytics

  /** `find({email})` on `payments`. */
  function PaymentsOf(payments: seq<Payment>, email: string): (r: seq<Payment>)
    ensures forall p :: p in r <==> p in payments && p.email == email
    ensures forall q :: multiset(r)[q] == if q.email == email then multiset(payments)[q] else 0
  {
    if payments == [] then []
    else
      assert payments == [payments[0]] + payments[1..];
      if payments[0].email == email then [payments[0]] + PaymentsOf(payments[1..], email)
      else PaymentsOf(payments[1..], email)
  }

  /** `GET /admin-stats`, revenue part: admins only, and 0 when nothing was paid. */
  function AdminStatsRoute(header: Option<string>, verify: string -> Option<Claims>,
                           users: seq<User>, payments: seq<Payment>): (r: Outcome<int>)
    ensures r.Proceed? <==> AdminGate(header, verify, users).Proceed?
    ensures r.Reject? ==> r.status == AdminGate(header, verify, users).status
    ensures r.Proceed? ==> r.value == ReducePrices(0, payments)
    ensures r.Proceed? && payments == [] ==> r.value == 0
  {
    RevenueIsReduce(payments);
    match AdminGate(header, verify, users)
    case Reject(status) => Reject(status)
    case Proceed(_) => Proceed(Revenue(payments))
  }

  /** `GET /order-stats`: admins only; with a unique-id menu, one entry per
      category that some ordered item joins to, with its count and the sum
      of the menu prices. */
  function OrderStatsRoute(header: Option<string>, verify: string -> Option<Claims>,
                           users: seq<User>, payments: seq<Payment>, menu: seq<MenuItem>)
    : (r: Outcome<seq<CategoryStat>>)
    ensures r.Proceed? <==> AdminGate(header, verify, users).Proceed?
    ensures r.Reject? ==> r.status == AdminGate(header, verify, users).status
    ensures r.Proceed? ==> Distinct(r.value) && AllCounted(r.value)
    ensures r.Proceed? && MenuIdsUnique(menu) ==> forall c ::
      QuantityOf(r.value, c) == CategoryQuantity(Unwind(payments), menu, c)
      && RevenueOf(r.value, c) == CategoryRevenue(Unwind(payments), menu, c)
  {
    match AdminGate(header, verify, users)
    case Reject(status) => Reject(status)
    case Proceed(_) =>
      assert MenuIdsUnique(menu) ==> forall c ::
        QuantityOf(OrderStats(payments, menu), c) == CategoryQuantity(Unwind(payments), menu, c)
        && RevenueOf(OrderStats(payments, menu), c) == CategoryRevenue(Unwind(payments), menu, c)
      by {
        if MenuIdsUnique(menu) {
          OrderStatsCorrect(payments, menu);
        }
      }
      Proceed(OrderStats(payments, menu))
  }

  /** `GET /users/admin/:email`: a caller may ask only about their own email,
      whatever their role; an unknown email reports `admin: false`. */
  function AdminFlagRoute(header: Option<string>, verify: string -> Option<Claims>,
                          pathEmail: string, users: seq<User>): (r: Outcome<bool>)
    ensures Authenticate(header, verify) == Unauthorized ==> r == Reject(Unauthorized401)
    ensures Authenticate(header, verify).Authenticated? && Authenticate(header, verify).claims.email != pathEmail
            ==> r == Reject(Forbidden403)
    ensures r.Proceed? <==> Authenticate(header, verify) == Authenticated(Claims(pathEmail))
    ensures r == Proceed(true) <==>
      Authenticate(header, verify) == Authenticated(Claims(pathEmail)) && IsAdmin(users, pathEmail)
    ensures r.Proceed? && !HasEmail(users, pathEmail) ==> r.value == false
  {
    match SelfGate(header, verify, pathEmail)
    case Reject(status) => Reject(status)
    case Proceed(claims) =>
      match FindByEmail(users, pathEmail)
      case None => Proceed(false)
      case Some(u) => Proceed(u.role == Some(Admin))
  }

  /** `GET /payment/:email`: a caller sees exactly their own payments and no
      one else's; any other email is 403, admin or not. */
  function PaymentHistoryRoute(header: Option<string>, verify: string -> Option<Claims>,
                               pathEmail: string, payments: seq<Payment>): (r: Outcome<seq<Payment>>)
    ensures Authenticate(header, verify) == Unauthorized ==> r == Reject(Unauthorized401)
    ensures Authenticate(header, verify).Authenticated? && Authenticate(header, verify).claims.email != pathEmail
            ==> r == Reject(Forbidden403)
    ensures r.Proceed? <==> Authenticate(header, verify) == Authenticated(Claims(pathEmail))
    ensures r.Proceed? ==> r.value == PaymentsOf(payments, pathEmail)
    ensures r.Proceed? ==> forall q :: multiset(r.value)[q] == if q.email == pathEmail then multiset(payments)[q] else 0
  {
    match SelfGate(header, verify, pathEmail)
    case Reject(status) => Reject(status)
    case Proceed(claims) => Proceed(PaymentsOf(payments, pathEmail))
  }
}
