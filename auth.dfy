/** src/lib/auth.ts: the PIN credential check and the two callbacks that carry
    the user's id and role from the sign-in into the token and the session. */
module Auth {
  import opened Wrappers
  import opened Records
  import opened Strings
  import Seqs
  import Users

  /** What `authorize` returns to the sign-in: the id as its decimal string and no e-mail. */
  datatype AuthorizedUser = AuthorizedUser(id: string, name: string, email: Option<string>, role: string)

  /** `authorize(credentials)`. `pin` is `credentials?.pin`: `None` when the
      credentials or the PIN are missing. */
  function Authorize(users: seq<User>, pin: Option<string>): (r: Option<AuthorizedUser>)
    requires WellFormedUsers(users)
    ensures (pin.None? || pin == Some("")) ==> r.None?
    ensures pin.Some? && pin.value != "" ==> (r.None? <==> forall u :: u in users ==> u.pin != pin.value)
    ensures forall u :: u in users && pin == Some(u.pin) && u.pin != "" ==>
              r == Some(AuthorizedUser(IntToDecimal(u.id), u.name, None, u.role))
  {
    if pin.None? || pin.value == "" then None
    else
      match Seqs.FindFirst(users, Users.PinIs(pin.value))
      case None => None
      case Some(u) => Some(AuthorizedUser(IntToDecimal(u.id), u.name, None, u.role))
  }

  /** Signing in with a PIN finds the same user `getUser` finds, and the id the
      session carries reads back as that user's numeric id. */
  lemma AuthorizeAgreesWithGetUser(users: seq<User>, pin: string)
    requires WellFormedUsers(users) && pin != ""
    ensures Authorize(users, Some(pin)).Some? <==> Users.GetUser(users, pin).Some?
    ensures Authorize(users, Some(pin)).Some? ==>
              var a, g := Authorize(users, Some(pin)).value, Users.GetUser(users, pin).value;
              ParseDecimal(a.id) == Some(g.id) && a.name == g.name && a.role == g.role
  {
    if Users.GetUser(users, pin).Some? {
      var u :| u in users && u.pin == pin;
      DecimalRoundTrip(u.id);
    }
  }

  /** The JWT. `id` and `role` are absent until the sign-in callback sets them. */
  class Token {
    var id: Option<string>
    var role: Option<string>
    var name: Option<string>
    var email: Option<string>
    var sub: Option<string>

    constructor (name: Option<string>, email: Option<string>, sub: Option<string>)
      ensures this.id == None && this.role == None
      ensures this.name == name && this.email == email && this.sub == sub
    {
      this.id := None;
      this.role := None;
      this.name := name;
      this.email := email;
      this.sub := sub;
    }
  }

  /** `session.user`; `id` and `role` hold whatever the token carried. */
  class SessionUser {
    var id: Option<string>
    var name: Option<string>
    var email: Option<string>
    var image: Option<string>
    var role: Option<string>

    constructor (name: Option<string>, email: Option<string>, image: Option<string>)
      ensures this.id == None && this.role == None
      ensures this.name == name && this.email == email && this.image == image
    {
      this.id := None;
      this.role := None;
      this.name := name;
      this.email := email;
      this.image := image;
    }
  }

  class Session {
    var user: SessionUser?

    constructor (user: SessionUser?)
      ensures this.user == user
    {
      this.user := user;
    }

    /** What `auth()` hands to a server action. */
    function View(): Claims
      reads this, user
    {
      Claims(if user == null then None else Some(UserClaims(user.id, user.role)))
    }
  }

  datatype UserClaims = UserClaims(id: Option<string>, role: Option<string>)

  /** A session as the server actions see it; `user` is `None` when `session.user` is missing. */
  datatype Claims = Claims(user: Option<UserClaims>)

  /** The `jwt` callback: on sign-in (`user` present) the token takes the user's
      role and id; on every other call the token is returned unchanged. */
  method Jwt(token: Token, user: Option<AuthorizedUser>) returns (r: Token)
    modifies token
    ensures r == token
    ensures user.Some? ==> token.role == Some(user.value.role) && token.id == Some(user.value.id)
    ensures user.None? ==> token.role == old(token.role) && token.id == old(token.id)
    ensures token.name == old(token.name) && token.email == old(token.email) && token.sub == old(token.sub)
  {
    if user.Some? {
      token.role := Some(user.value.role);
      token.id := Some(user.value.id);
    }
    r := token;
  }

  /** The `session` callback: when there is a token and a `session.user`, the
      user's id and role are copied from the token; nothing else changes. */
  method SessionCallback(session: Session, token: Token?) returns (r: Session)
    modifies session.user
    ensures r == session && session.user == old(session.user)
    ensures token != null && session.user != null ==>
              session.user.id == token.id && session.user.role == token.role
    ensures (token == null || session.user == null) ==> session.user == null || unchanged(session.user)
    ensures session.user != null ==>
              && session.user.name == old(session.user.name)
              && session.user.email == old(session.user.email)
              && session.user.image == old(session.user.image)
  {
    if token != null && session.user != null {
      session.user.id := token.id;
      session.user.role := token.role;
    }
    r := session;
  }
}
