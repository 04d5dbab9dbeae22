/** The admin signup and signin routes (`server/routes/adminRoutes.js`)
    against an in-memory admin collection. The password hash and its
    comparison come from bcrypt and are taken as function parameters; the
    signed JWT is represented by the claims it carries. */
module AdminRoutes {
  import opened Basics

  /** A stored admin document; `password` holds the hash, never the plain text. */
  datatype Admin = Admin(id: string, firstName: string, lastName: string, email: string, password: string, adminId: string)

  /** The body of a signup request. */
  datatype SignupRequest = SignupRequest(firstName: string, lastName: string, email: string, password: string, adminId: string)

  /** The payload of a signed session token and its lifetime in seconds. */
  datatype Claims = Claims(id: string, email: string, expiresInSeconds: nat)

  /** An HTTP reply: status, message field, and the token when one is issued. */
  datatype Reply = Reply(status: nat, message: string, token: Option<Claims>)

  /** `expiresIn: '1h'` */
  const TokenLifetime: nat := 3600

  /** Some stored admin has this email. */
  predicate EmailTaken(store: seq<Admin>, email: string) {
    exists i :: 0 <= i < |store| && store[i].email == email
  }

  /** Some stored admin has this admin id. */
  predicate AdminIdTaken(store: seq<Admin>, adminId: string) {
    exists i :: 0 <= i < |store| && store[i].adminId == adminId
  }

  /** No two stored admins share an email or an admin id. */
  predicate UniqueKeys(store: seq<Admin>) {
    forall i, j :: 0 <= i < j < |store| ==> store[i].email != store[j].email && store[i].adminId != store[j].adminId
  }

  /** `Admin.findOne({ email })`: the first admin with that email, if any. */
  function FindByEmail(store: seq<Admin>, email: string): (r: Option<Admin>)
    ensures r.None? <==> !EmailTaken(store, email)
    ensures r.Some? ==> r.value.email == email && exists i :: 0 <= i < |store| && store[i] == r.value
  {
    if |store| == 0 then None
    else if store[0].email == email then Some(store[0])
    else
      var r := FindByEmail(store[1..], email);
      assert forall i :: 1 <= i < |store| ==> store[i] == store[1..][i - 1];
      assert r.Some? ==> exists i :: 0 <= i < |store[1..]| && store[1..][i] == r.value;
      r
  }

  /** The `/signup` route: a taken email or admin id is refused with a
      message naming what is taken and the store is left alone; otherwise one
      admin is appended, holding the hash of the password. */
  function Signup(store: seq<Admin>, req: SignupRequest, newId: string, hash: string -> string): (r: (Reply, seq<Admin>))
    ensures r.0.token.None?
    ensures r.0.status == 400 <==> EmailTaken(store, req.email) || AdminIdTaken(store, req.adminId)
    ensures EmailTaken(store, req.email) && AdminIdTaken(store, req.adminId) ==>
      r.0.message == "Email and Admin ID are already registered!"
    ensures EmailTaken(store, req.email) && !AdminIdTaken(store, req.adminId) ==>
      r.0.message == "Email is already registered!"
    ensures !EmailTaken(store, req.email) && AdminIdTaken(store, req.adminId) ==>
      r.0.message == "Admin ID is already registered!"
    ensures r.0.status == 400 ==> r.1 == store
    ensures r.0.status != 400 ==>
      && r.0.status == 201 && r.0.message == "Admin registered successfully!"
      && |r.1| == |store| + 1 && r.1[..|store|] == store
      && r.1[|store|] == Admin(newId, req.firstName, req.lastName, req.email, hash(req.password), req.adminId)
  {
    var byEmail := FindByEmail(store, req.email);
    var byId := exists i :: 0 <= i < |store| && store[i].adminId == req.adminId;
    if byEmail.Some? && byId then (Reply(400, "Email and Admin ID are already registered!", None), store)
    else if byEmail.Some? then (Reply(400, "Email is already registered!", None), store)
    else if byId then (Reply(400, "Admin ID is already registered!", None), store)
    else
      var admin := Admin(newId, req.firstName, req.lastName, req.email, hash(req.password), req.adminId);
      (Reply(201, "Admin registered successfully!", None), store + [admin])
  }

  /** Signup keeps emails and admin ids unique across the store. */
  lemma SignupPreservesUniqueKeys(store: seq<Admin>, req: SignupRequest, newId: string, hash: string -> string)
    requires UniqueKeys(store)
    ensures UniqueKeys(Signup(store, req, newId, hash).1)
  {
    var (reply, after) := Signup(store, req, newId, hash);
    if reply.status != 400 {
      forall i, j | 0 <= i < j < |after|
        ensures after[i].email != after[j].email && after[i].adminId != after[j].adminId
      {
        if j == |store| {
          assert after[i] == store[i];
          assert store[i].email != req.email;
          assert store[i].adminId != req.adminId;
        } else {
          assert after[i] == store[i] && after[j] == store[j];
        }
      }
    }
  }

  /** The `/signin` route: an unknown email and a wrong password are refused
      with distinct 401 messages; otherwise a token carrying the admin's id
      and email, valid for one hour, is issued. The store is only read. */
  function Signin(store: seq<Admin>, email: string, password: string, compare: (string, string) -> bool): (r: Reply)
    ensures r.status == 401 && r.message == "Invalid email!" <==> !EmailTaken(store, email)
    ensures EmailTaken(store, email) && !compare(password, FindByEmail(store, email).value.password) <==>
      r == Reply(401, "Invalid password!", None)
    ensures r.status == 200 <==> EmailTaken(store, email) && compare(password, FindByEmail(store, email).value.password)
    ensures r.status == 200 ==>
      && r.message == "Login successful!"
      && r.token == Some(Claims(FindByEmail(store, email).value.id, email, TokenLifetime))
    ensures r.status != 200 ==> r.token.None?
  {
    match FindByEmail(store, email)
    case None => Reply(401, "Invalid email!", None)
    case Some(admin) =>
      if !compare(password, admin.password) then Reply(401, "Invalid password!", None)
      else Reply(200, "Login successful!", Some(Claims(admin.id, admin.email, TokenLifetime)))
  }

  /** With unique emails, a successful signin's token belongs to the one admin
      holding that email. */
  lemma SigninIdentifiesAdmin(store: seq<Admin>, email: string, password: string, compare: (string, string) -> bool, i: nat)
    requires UniqueKeys(store)
    requires i < |store| && store[i].email == email
    requires Signin(store, email, password, compare).status == 200
    ensures Signin(store, email, password, compare).token == Some(Claims(store[i].id, email, TokenLifetime))
  {
  }

  /** `findOne` returns the first admin holding the email. */
  lemma {:induction false} FindFirst(store: seq<Admin>, email: string, k: nat)
    requires k < |store| && store[k].email == email
    requires forall i :: 0 <= i < k ==> store[i].email != email
    ensures FindByEmail(store, email) == Some(store[k])
  {
    if k > 0 {
      FindFirst(store[1..], email, k - 1);
    }
  }

  /** Round trip: once signup succeeds, signing in with the same email and
      password succeeds and names the new admin, provided the hash matches
      the password it was made from (bcrypt's own guarantee). */
  lemma SignupThenSignin(store: seq<Admin>, req: SignupRequest, newId: string, hash: string -> string, compare: (string, string) -> bool)
    requires compare(req.password, hash(req.password))
    requires Signup(store, req, newId, hash).0.status == 201
    ensures Signin(Signup(store, req, newId, hash).1, req.email, req.password, compare)
         == Reply(200, "Login successful!", Some(Claims(newId, req.email, TokenLifetime)))
  {
    var after := Signup(store, req, newId, hash).1;
    assert !EmailTaken(store, req.email);
    forall i | 0 <= i < |store| ensures after[i].email != req.email {
      assert after[i] == store[i];
    }
    FindFirst(after, req.email, |store|);
  }
}
