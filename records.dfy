/** The documents of the `bistroDB` database that the core reads or writes,
    as values. The document store itself is the class in module Store. */
module Records {
  import opened Wrappers

  /** A document `_id`. `new ObjectId(s)` and `$convert: {to: 'objectId'}`
      are identity on these abstract ids. */
  type Id = nat

  /** The one role value the access checks compare against. */
  const Admin: string := "admin"

  /** A posted `users` document before the store assigns its `_id`.
      `role` is absent unless the client sends one. */
  datatype UserBody = UserBody(email: string, name: string, role: Option<string>)

  /** A stored `users` document. */
  datatype User = User(id: Id, email: string, name: string, role: Option<string>)

  /** A `carts` document: one menu item a customer intends to buy. */
  datatype Cart = Cart(id: Id, email: string, menuId: Id, name: string, price: int)

  /** A `menu` document. */
  datatype MenuItem = MenuItem(id: Id, name: string, category: string, price: int)

  /** A `payments` document as posted by the client and stored verbatim. */
  datatype Payment = Payment(
    email: string,
    price: int,
    transactionId: string,
    cartIds: seq<Id>,
    menuItemIds: seq<Id>)

  /** True iff some user document has this email. */
  predicate HasEmail(users: seq<User>, email: string)
  {
    exists i :: 0 <= i < |users| && users[i].email == email
  }

  /** No two user documents share an email. */
  predicate EmailsUnique(users: seq<User>)
  {
    forall i, j :: 0 <= i < j < |users| ==> users[i].email != users[j].email
  }

  /** No two user documents share an `_id`. */
  predicate UserIdsUnique(users: seq<User>)
  {
    forall i, j :: 0 <= i < j < |users| ==> users[i].id != users[j].id
  }

  /** No two cart documents share an `_id`. */
  predicate CartIdsUnique(carts: seq<Cart>)
  {
    forall i, j :: 0 <= i < j < |carts| ==> carts[i].id != carts[j].id
  }

  /** No two menu documents share an `_id`. */
  predicate MenuIdsUnique(menu: seq<MenuItem>)
  {
    forall i, j :: 0 <= i < j < |menu| ==> menu[i].id != menu[j].id
  }

  /** `findOne({email})`: the first user document, in collection order,
      whose email matches. */
  function FindByEmail(users: seq<User>, email: string): (r: Option<User>)
    ensures r.None? <==> !HasEmail(users, email)
    ensures r.Some? ==> exists i :: 0 <= i < |users| && users[i] == r.value && r.value.email == email
                                    && forall j :: 0 <= j < i ==> users[j].email != email
  {
    if users == [] then None
    else if users[0].email == email then Some(users[0])
    else
      var r := FindByEmail(users[1..], email);
      assert forall i :: 0 < i < |users| ==> users[i] == users[1..][i - 1];
      r
  }
}
