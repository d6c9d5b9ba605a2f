/** The writes of index.js against the `users`, `carts` and `payments`
    collections: `POST /users` (create if absent), `PATCH /users/admin/:id`
    (role elevation, behind the admin gate) and `POST /payment` (record a
    payment, then delete the carts it paid for). The collections are fields
    of an in-memory Database object that the handlers update in place; the
    functions before the class say what each update does to a collection. */
module Store {
  import opened Wrappers
  import opened Records
  import opened Gate
  import Analytics

  // ------------------------------------------------------------ settlement

  /** `deleteMany({_id: {$in: cartIds}})`: the carts whose id is not listed,
      in their original order. */
  function Retire(carts: seq<Cart>, cartIds: seq<Id>): (r: seq<Cart>)
    ensures forall c :: c in r <==> c in carts && c.id !in cartIds
    ensures |r| <= |carts|
  {
    if carts == [] then []
    else if carts[0].id in cartIds then Retire(carts[1..], cartIds)
    else [carts[0]] + Retire(carts[1..], cartIds)
  }

  /** Deletion distributes over any split of the collection, so the carts
      that survive keep their relative order. */
  lemma {:induction false} RetireAppend(a: seq<Cart>, b: seq<Cart>, cartIds: seq<Id>)
    ensures Retire(a + b, cartIds) == Retire(a, cartIds) + Retire(b, cartIds)
  {
    if a == [] {
      assert a + b == b;
    } else {
      RetireAppend(a[1..], b, cartIds);
      assert (a + b)[0] == a[0] && (a + b)[1..] == a[1..] + b;
      if a[0].id in cartIds {
        calc {
          Retire(a + b, cartIds);
          Retire(a[1..] + b, cartIds);
          Retire(a[1..], cartIds) + Retire(b, cartIds);
        }
      } else {
        calc {
          Retire(a + b, cartIds);
          [a[0]] + Retire(a[1..] + b, cartIds);
          [a[0]] + (Retire(a[1..], cartIds) + Retire(b, cartIds));
          ([a[0]] + Retire(a[1..], cartIds)) + Retire(b, cartIds);
        }
      }
    }
  }

  /** Listing ids that no cart has changes nothing: such ids are a no-op,
      not an error. */
  lemma {:induction false} RetireAbsentIds(carts: seq<Cart>, cartIds: seq<Id>, absent: seq<Id>)
    requires forall k :: 0 <= k < |carts| ==> carts[k].id !in absent
    ensures Retire(carts, cartIds + absent) == Retire(carts, cartIds)
    ensures Retire(carts, absent) == carts
  {
    if carts != [] {
      RetireAbsentIds(carts[1..], cartIds, absent);
      assert carts == [carts[0]] + carts[1..];
    }
  }

  /** Settling the same cart ids a second time deletes nothing more. */
  lemma {:induction false} RetireIdempotent(carts: seq<Cart>, cartIds: seq<Id>)
    ensures Retire(Retire(carts, cartIds), cartIds) == Retire(carts, cartIds)
  {
    if carts != [] {
      RetireIdempotent(carts[1..], cartIds);
    }
  }

  // ---------------------------------------------------------- user creation

  /** `findOne({email})` then `insertOne(body)`: the body is stored verbatim
      under a fresh id unless its email is already taken. */
  function Registered(users: seq<User>, body: UserBody, id: Id): (r: seq<User>)
    ensures HasEmail(r, body.email)
  {
    if HasEmail(users, body.email) then users
    else
      var r := users + [User(id, body.email, body.name, body.role)];
      assert r[|users|].email == body.email;
      r
  }

  /** Posting the same user twice leaves the collection as after the first. */
  lemma RegisterIdempotent(users: seq<User>, body: UserBody, id1: Id, id2: Id)
    ensures Registered(Registered(users, body, id1), body, id2) == Registered(users, body, id1)
  {
  }

  /** Create-if-absent never introduces a second user with the same email. */
  lemma RegisterKeepsEmailsUnique(users: seq<User>, body: UserBody, id: Id)
    requires EmailsUnique(users)
    ensures EmailsUnique(Registered(users, body, id))
  {
  }

  /** A user appended under a new email is the one `findOne` finds for it,
      whatever duplicates the other users have. */
  lemma {:induction false} FindAppended(users: seq<User>, u: User)
    requires !HasEmail(users, u.email)
    ensures FindByEmail(users + [u], u.email) == Some(u)
  {
    if users == [] {
      assert users + [u] == [u];
    } else {
      assert !HasEmail(users[1..], u.email) by {
        assert forall k :: 0 <= k < |users[1..]| ==> users[1..][k] == users[k + 1];
      }
      FindAppended(users[1..], u);
      assert (users + [u])[1..] == users[1..] + [u];
    }
  }

  /** The body's `role` is stored as sent, so a new user posted with role
      `admin` passes the admin role check at once. */
  lemma RegisterAsAdmin(users: seq<User>, body: UserBody, id: Id)
    requires !HasEmail(users, body.email) && body.role == Some(Admin)
    ensures IsAdmin(Registered(users, body, id), body.email)
  {
    FindAppended(users, User(id, body.email, body.name, body.role));
  }

  // -------------------------------------------------------- role elevation

  /** The first user with this `_id`: the document `updateOne({_id: id}, …)`
      selects. It has the same shape as the menu lookup of the `/order-stats`
      join, but ranges over the `users` collection, whose documents are a
      different type. */
  function FindById(users: seq<User>, id: Id): (r: Option<User>)
    ensures r.Some? ==> r.value in users && r.value.id == id
    ensures r.None? <==> forall k :: 0 <= k < |users| ==> users[k].id != id
  {
    if users == [] then None
    else if users[0].id == id then Some(users[0])
    else
      var r := FindById(users[1..], id);
      assert forall k :: 0 < k < |users| ==> users[k] == users[1..][k - 1];
      r
  }

  /** `updateOne({_id: id}, {$set: {role: 'admin'}})`: the first user with
      this id gets role `admin`. */
  function Elevated(users: seq<User>, id: Id): (r: seq<User>)
    ensures |r| == |users|
    ensures forall k :: 0 <= k < |r| ==>
      r[k].id == users[k].id && r[k].email == users[k].email && r[k].name == users[k].name
  {
    if users == [] then []
    else if users[0].id == id then [users[0].(role := Some(Admin))] + users[1..]
    else [users[0]] + Elevated(users[1..], id)
  }

  /** With unique ids, elevation changes the role of the user with that id
      and nothing else: every other field and every other user is kept. */
  lemma {:induction false} ElevatedAt(users: seq<User>, id: Id, k: nat)
    requires UserIdsUnique(users) && k < |users|
    ensures Elevated(users, id)[k] == if users[k].id == id then users[k].(role := Some(Admin)) else users[k]
  {
    if users[0].id != id && k > 0 {
      ElevatedAt(users[1..], id, k - 1);
    }
  }

  /** Elevating twice is the same as elevating once. */
  lemma {:induction false} ElevateIdempotent(users: seq<User>, id: Id)
    ensures Elevated(Elevated(users, id), id) == Elevated(users, id)
  {
    if users != [] && users[0].id != id {
      ElevateIdempotent(users[1..], id);
    }
  }

  /** After elevating a user's id, that user's email passes the admin check. */
  lemma ElevateGrantsAdmin(users: seq<User>, k: nat)
    requires UserIdsUnique(users) && EmailsUnique(users) && k < |users|
    ensures IsAdmin(Elevated(users, users[k].id), users[k].email)
  {
    var r := Elevated(users, users[k].id);
    ElevatedAt(users, users[k].id, k);
    assert r[k].role == Some(Admin);
    assert EmailsUnique(r);
  }

  /** The `updateOne` acknowledgement. */
  datatype UpdateResult = UpdateResult(matchedCount: nat, modifiedCount: nat)

  /** Largest user id plus one: a first id the store has not handed out. */
  function NextFreeId(users: seq<User>): (n: Id)
    ensures forall k :: 0 <= k < |users| ==> users[k].id < n
  {
    if users == [] then 0
    else
      var rest := NextFreeId(users[1..]);
      var n := if users[0].id + 1 > rest then users[0].id + 1 else rest;
      assert forall k :: 0 < k < |users| ==> users[k] == users[1..][k - 1];
      n
  }

  // ------------------------------------------------------------- the store

  /** The `bistroDB` collections the core touches. */
  class Database {
    var users: seq<User>
    var carts: seq<Cart>
    var payments: seq<Payment>
    var menu: seq<MenuItem>
    /** The id the store will give the next inserted user. */
    var nextId: Id

    /** `_id` is unique in every collection, and no user holds an id the
        store may still hand out. */
    ghost predicate Valid()
      reads this
    {
      UserIdsUnique(users) && CartIdsUnique(carts) && MenuIdsUnique(menu)
      && forall k :: 0 <= k < |users| ==> users[k].id < nextId
    }

    constructor (users0: seq<User>, carts0: seq<Cart>, payments0: seq<Payment>, menu0: seq<MenuItem>)
      requires UserIdsUnique(users0) && CartIdsUnique(carts0) && MenuIdsUnique(menu0)
      ensures Valid()
      ensures users == users0 && carts == carts0 && payments == payments0 && menu == menu0
    {
      users, carts, payments, menu := users0, carts0, payments0, menu0;
      nextId := NextFreeId(users0);
    }

    /** `POST /users`. */
    method CreateUser(body: UserBody) returns (insertedId: Option<Id>)
      requires Valid()
      modifies this
      ensures Valid()
      ensures users == Registered(old(users), body, old(nextId))
      ensures insertedId == if HasEmail(old(users), body.email) then None else Some(old(nextId))
      ensures insertedId.None? ==> users == old(users) && nextId == old(nextId)
      ensures EmailsUnique(old(users)) ==> EmailsUnique(users)
      ensures carts == old(carts) && payments == old(payments) && menu == old(menu)
    {
      var existing := FindByEmail(users, body.email);
      if existing.Some? {
        return None;
      }
      users := users + [User(nextId, body.email, body.name, body.role)];
      insertedId := Some(nextId);
      nextId := nextId + 1;
      if EmailsUnique(old(users)) {
        RegisterKeepsEmailsUnique(old(users), body, old(nextId));
      }
    }

    /** The handler body of `PATCH /users/admin/:id`. */
    method ElevateUser(id: Id) returns (result: UpdateResult)
      requires Valid()
      modifies this
      ensures Valid()
      ensures users == Elevated(old(users), id)
      ensures forall k :: 0 <= k < |users| ==>
        users[k] == if old(users)[k].id == id then old(users)[k].(role := Some(Admin)) else old(users)[k]
      ensures result.matchedCount == if FindById(old(users), id).Some? then 1 else 0
      ensures result.modifiedCount ==
        if FindById(old(users), id).Some? && FindById(old(users), id).value.role != Some(Admin) then 1 else 0
      ensures carts == old(carts) && payments == old(payments) && menu == old(menu) && nextId == old(nextId)
    {
      var target := FindById(users, id);
      users := Elevated(users, id);
      forall k | 0 <= k < |users|
        ensures users[k] == if old(users)[k].id == id then old(users)[k].(role := Some(Admin)) else old(users)[k]
      {
        ElevatedAt(old(users), id, k);
      }
      match target
      case None =>
        result := UpdateResult(0, 0);
      case Some(u) =>
        result := UpdateResult(1, if u.role != Some(Admin) then 1 else 0);
    }

    /** `PATCH /users/admin/:id` with its `verifyToken` and `verifyAdmin`
        middleware: nothing changes unless the caller is an admin. */
    method HandleElevate(header: Option<string>, verify: string -> Option<Claims>, id: Id)
      returns (reply: Outcome<UpdateResult>)
      requires Valid()
      modifies this
      ensures Valid()
      ensures AdminGate(header, verify, old(users)).Reject? ==>
        reply == Reject(AdminGate(header, verify, old(users)).status) && users == old(users)
      ensures AdminGate(header, verify, old(users)).Proceed? ==>
        reply.Proceed? && users == Elevated(old(users), id)
      ensures AdminGate(header, verify, old(users)).Proceed? ==>
        reply.value == UpdateResult(
          if FindById(old(users), id).Some? then 1 else 0,
          if FindById(old(users), id).Some? && FindById(old(users), id).value.role != Some(Admin) then 1 else 0)
      ensures carts == old(carts) && payments == old(payments) && menu == old(menu) && nextId == old(nextId)
    {
      match AdminGate(header, verify, users)
      case Reject(status) =>
        reply := Reject(status);
      case Proceed(_) =>
        var result := ElevateUser(id);
        reply := Proceed(result);
    }

    /** `POST /payment`: insert the payment, then delete the carts it lists. */
    method Settle(payment: Payment) returns (deletedCount: nat)
      requires Valid()
      modifies this
      ensures Valid()
      ensures payments == old(payments) + [payment]
      ensures carts == Retire(old(carts), payment.cartIds)
      ensures forall c :: c in carts <==> c in old(carts) && c.id !in payment.cartIds
      ensures deletedCount == |old(carts)| - |carts|
      ensures Analytics.Revenue(payments) == Analytics.Revenue(old(payments)) + payment.price
      ensures users == old(users) && menu == old(menu) && nextId == old(nextId)
    {
      payments := payments + [payment];
      var remaining := Retire(carts, payment.cartIds);
      deletedCount := |carts| - |remaining|;
      carts := remaining;
      RetireKeepsIdsUnique(old(carts), payment.cartIds);
      Analytics.RevenueAppend(old(payments), [payment]);
      assert Analytics.SumPrices([payment]) == payment.price + Analytics.SumPrices([]);
    }
  }

  /** Deleting carts cannot make two remaining carts share an id. */
  lemma {:induction false} RetireKeepsIdsUnique(carts: seq<Cart>, cartIds: seq<Id>)
    requires CartIdsUnique(carts)
    ensures CartIdsUnique(Retire(carts, cartIds))
  {
    if carts != [] {
      RetireKeepsIdsUnique(carts[1..], cartIds);
      var rest := Retire(carts[1..], cartIds);
      assert forall k :: 0 <= k < |rest| ==> rest[k] in carts[1..] && rest[k].id != carts[0].id;
    }
  }
}
