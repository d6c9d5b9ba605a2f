/** The access-control middleware of index.js: `verifyToken` (authentication
    from an `Authorization` header), `verifyAdmin` (role lookup) and the
    self-only email comparison of the personal routes. Everything here is a
    pure decision: a gate either lets the request proceed with the decoded
    claims or rejects it with an HTTP status. */
module Gate {
  import opened Wrappers
  import opened Records

  /** The decoded payload of a token; only the email is read by the core. */
  datatype Claims = Claims(email: string)

  /** What `verifyToken` leaves for later stages: decoded claims, or a 401. */
  datatype Auth = Authenticated(claims: Claims) | Unauthorized

  /** A gate or handler result: go on with a value, or reply with a status. */
  datatype Outcome<+T> = Proceed(value: T) | Reject(status: nat)

  const Unauthorized401: nat := 401
  const Forbidden403: nat := 403

  /** JavaScript's `s.split(' ')`: the maximal space-free runs between single
      spaces, empty runs included (`"a  b"` gives `["a", "", "b"]`). */
  function Split(s: string): (parts: seq<string>)
    ensures |parts| >= 1
    ensures forall i :: 0 <= i < |parts| ==> ' ' !in parts[i]
  {
    if s == [] then [""]
    else if s[0] == ' ' then [""] + Split(s[1..])
    else
      var rest := Split(s[1..]);
      [[s[0]] + rest[0]] + rest[1..]
  }

  /** `parts.join(' ')`, the inverse of Split. */
  function JoinSpace(parts: seq<string>): string
    requires |parts| >= 1
  {
    if |parts| == 1 then parts[0] else parts[0] + " " + JoinSpace(parts[1..])
  }

  /** Joining the segments back restores the header exactly. */
  lemma {:induction false} JoinSplit(s: string)
    ensures JoinSpace(Split(s)) == s
  {
    if s == [] {
    } else if s[0] == ' ' {
      JoinSplit(s[1..]);
      var parts := Split(s);
      assert parts[1..] == Split(s[1..]);
      assert s == " " + s[1..];
    } else {
      JoinSplit(s[1..]);
      var rest := Split(s[1..]);
      var parts := Split(s);
      assert parts[0] == [s[0]] + rest[0];
      if |rest| == 1 {
        assert s == [s[0]] + rest[0];
      } else {
        assert parts[1..] == rest[1..];
        assert JoinSpace(rest) == rest[0] + " " + JoinSpace(rest[1..]);
        assert s == [s[0]] + s[1..];
      }
    }
  }

  /** A space-free string is one segment. */
  lemma {:induction false} SplitWord(w: string)
    requires ' ' !in w
    ensures Split(w) == [w]
  {
    if w != [] {
      assert ' ' !in w[1..] by { assert forall k :: 0 <= k < |w[1..]| ==> w[1..][k] == w[k + 1]; }
      SplitWord(w[1..]);
      assert w == [w[0]] + w[1..];
    }
  }

  /** A space-free word followed by one space is split off as the first segment. */
  lemma {:induction false} SplitAfterWord(w: string, rest: string)
    requires ' ' !in w
    ensures Split(w + " " + rest) == [w] + Split(rest)
  {
    var s := w + " " + rest;
    if w == [] {
      assert s == " " + rest;
      assert s[1..] == rest;
    } else {
      assert s[0] == w[0];
      assert s[1..] == w[1..] + " " + rest;
      assert ' ' !in w[1..] by { assert forall k :: 0 <= k < |w[1..]| ==> w[1..][k] == w[k + 1]; }
      SplitAfterWord(w[1..], rest);
      assert w == [w[0]] + w[1..];
    }
  }

  /** Splitting a join of space-free segments gives the segments back. */
  lemma {:induction false} SplitJoin(parts: seq<string>)
    requires |parts| >= 1
    requires forall i :: 0 <= i < |parts| ==> ' ' !in parts[i]
    ensures Split(JoinSpace(parts)) == parts
  {
    if |parts| == 1 {
      SplitWord(parts[0]);
    } else {
      SplitJoin(parts[1..]);
      SplitAfterWord(parts[0], JoinSpace(parts[1..]));
      assert parts == [parts[0]] + parts[1..];
    }
  }

  /** A header with no space at all is a single segment, and only then. */
  lemma {:induction false} SplitSingle(s: string)
    ensures |Split(s)| == 1 <==> ' ' !in s
  {
    if s != [] {
      SplitSingle(s[1..]);
      assert ' ' in s <==> s[0] == ' ' || ' ' in s[1..] by {
        assert s == [s[0]] + s[1..];
      }
    }
  }

  /** `authorization.split(' ')[1]`: the second segment, when there is one. */
  function BearerToken(header: string): (t: Option<string>)
    ensures t.Some? ==> ' ' !in t.value
    ensures t.None? <==> ' ' !in header
  {
    SplitSingle(header);
    var parts := Split(header);
    if |parts| >= 2 then Some(parts[1]) else None
  }

  /** The header `<scheme> <token>` yields the token, whatever the scheme word
      is: the word `Bearer` itself is never checked. */
  lemma BearerTokenOf(scheme: string, token: string)
    requires ' ' !in scheme && ' ' !in token
    ensures BearerToken(scheme + " " + token) == Some(token)
  {
    SplitAfterWord(scheme, token);
    SplitWord(token);
  }

  /** `verifyToken`. A missing or empty header is rejected before the verifier
      is consulted; a missing or empty second segment is rejected by the
      verification library's own "jwt must be provided" rule; otherwise the
      verifier decides, and only its claims are passed on. */
  function Authenticate(header: Option<string>, verify: string -> Option<Claims>): (r: Auth)
    ensures header == None || header == Some("") ==> r == Unauthorized
    ensures r.Authenticated? <==>
      header.Some? && BearerToken(header.value).Some? && BearerToken(header.value).value != ""
      && verify(BearerToken(header.value).value).Some?
    ensures r.Authenticated? ==> verify(BearerToken(header.value).value) == Some(r.claims)
  {
    match header
    case None => Unauthorized
    case Some(h) =>
      if h == "" then Unauthorized
      else
        match BearerToken(h)
        case None => Unauthorized
        case Some(token) =>
          if token == "" then Unauthorized
          else
            match verify(token)
            case None => Unauthorized
            case Some(claims) => Authenticated(claims)
  }

  /** The outcome on a missing header does not depend on the verifier at all. */
  lemma NoHeaderIgnoresVerifier(verify1: string -> Option<Claims>, verify2: string -> Option<Claims>)
    ensures Authenticate(None, verify1) == Authenticate(None, verify2) == Unauthorized
  {
  }

  /** A well-formed `Bearer <token>` header is decided by the verifier alone. */
  lemma BearerHeaderDecidedByVerifier(scheme: string, token: string, verify: string -> Option<Claims>)
    requires ' ' !in scheme && ' ' !in token && token != ""
    ensures Authenticate(Some(scheme + " " + token), verify) ==
      (if verify(token).Some? then Authenticated(verify(token).value) else Unauthorized)
  {
    BearerTokenOf(scheme, token);
  }

  /** `user?.role === 'admin'` for the first user found by email; a missing
      user or missing role is not an admin. */
  function IsAdmin(users: seq<User>, email: string): (b: bool)
    ensures b ==> HasEmail(users, email)
    ensures EmailsUnique(users) ==>
      (b <==> exists i :: 0 <= i < |users| && users[i].email == email && users[i].role == Some(Admin))
  {
    match FindByEmail(users, email)
    case None => false
    case Some(u) => u.role == Some(Admin)
  }

  /** `verifyToken` followed by `verifyAdmin`. */
  function AdminGate(header: Option<string>, verify: string -> Option<Claims>, users: seq<User>): (r: Outcome<Claims>)
    ensures r.Proceed? ==> Authenticate(header, verify) == Authenticated(r.value) && IsAdmin(users, r.value.email)
    ensures r.Proceed? <==>
      Authenticate(header, verify).Authenticated? && IsAdmin(users, Authenticate(header, verify).claims.email)
    ensures r == Reject(Unauthorized401) <==> Authenticate(header, verify) == Unauthorized
    ensures r == Reject(Forbidden403) <==>
      Authenticate(header, verify).Authenticated? && !IsAdmin(users, Authenticate(header, verify).claims.email)
  {
    match Authenticate(header, verify)
    case Unauthorized => Reject(Unauthorized401)
    case Authenticated(claims) =>
      if IsAdmin(users, claims.email) then Proceed(claims) else Reject(Forbidden403)
  }

  /** `verifyToken` followed by `req.params.email != req.decoded.email`. */
  function SelfGate(header: Option<string>, verify: string -> Option<Claims>, pathEmail: string): (r: Outcome<Claims>)
    ensures r.Proceed? <==> Authenticate(header, verify).Authenticated? && Authenticate(header, verify).claims.email == pathEmail
    ensures r.Proceed? ==> r.value.email == pathEmail
    ensures r == Reject(Forbidden403) <==>
      Authenticate(header, verify).Authenticated? && Authenticate(header, verify).claims.email != pathEmail
    ensures r == Reject(Unauthorized401) <==> Authenticate(header, verify) == Unauthorized
  {
    match Authenticate(header, verify)
    case Unauthorized => Reject(Unauthorized401)
    case Authenticated(claims) =>
      if pathEmail != claims.email then Reject(Forbidden403) else Proceed(claims)
  }

  /** With email-unique users, the admin gate passes exactly for a verified
      token whose email belongs to a user whose role is `admin`; a missing
      record or any other role gives 403. */
  lemma AdminGateIff(header: Option<string>, verify: string -> Option<Claims>, users: seq<User>, claims: Claims)
    requires EmailsUnique(users)
    requires Authenticate(header, verify) == Authenticated(claims)
    ensures AdminGate(header, verify, users) == Proceed(claims) <==>
      exists i :: 0 <= i < |users| && users[i].email == claims.email && users[i].role == Some(Admin)
    ensures AdminGate(header, verify, users) == Reject(Forbidden403) <==>
      forall i :: 0 <= i < |users| && users[i].email == claims.email ==> users[i].role != Some(Admin)
  {
  }
}
