/** The mock session of src/context/AuthContext.tsx: the user, the loading flag
    and the browser's key-value store, with `login`, `signup`, `logout` and the
    initial session check as transitions. The one-second delays and the JSON
    encoding of the stored user are left out; the store holds the user itself. */
module Auth {
  import opened Base
  import opened Text

  datatype Role = AdminRole | UserRole

  datatype User = User(id: string, email: string, fullName: string, role: Role)

  datatype Session = Session(user: Option<User>, isLoading: bool, store: map<string, User>)

  /** The store key the session lives under. */
  const StorageKey := "eduauth_user"

  /** A fresh provider: no user yet, loading, over whatever the store holds. */
  function Initial(store: map<string, User>): Session {
    Session(None, true, store)
  }

  /** `isAuthenticated`. */
  predicate IsAuthenticated(s: Session) {
    s.user.Some?
  }

  /** `checkUser`: restore a stored user, then stop loading. */
  function CheckSession(s: Session): (r: Session)
    ensures !r.isLoading && r.store == s.store
    ensures StorageKey in s.store ==> r.user == Some(s.store[StorageKey])
    ensures StorageKey !in s.store ==> r.user == s.user
  {
    if StorageKey in s.store then Session(Some(s.store[StorageKey]), false, s.store)
    else s.(isLoading := false)
  }

  /** `email.split('@')[0]`. */
  function FullNameOf(email: string): (r: string)
    ensures r <= email && '@' !in r
    ensures |r| < |email| ==> email[|r|] == '@'
  {
    SplitOn(email, '@')[0]
  }

  /** `login`: the password is never looked at. */
  function Login(s: Session, email: string, password: string): (r: Session)
    ensures r.user.Some? && !r.isLoading
    ensures r.user.value.id == "1" && r.user.value.email == email
    ensures r.user.value.fullName == FullNameOf(email)
    ensures r.user.value.role == AdminRole <==> Contains(email, "admin")
    ensures StorageKey in r.store && r.store[StorageKey] == r.user.value
    ensures forall k :: k != StorageKey ==> (k in r.store <==> k in s.store)
    ensures forall k :: k != StorageKey && k in s.store ==> r.store[k] == s.store[k]
  {
    var u := User("1", email, FullNameOf(email), if Contains(email, "admin") then AdminRole else UserRole);
    Session(Some(u), false, s.store[StorageKey := u])
  }

  /** `signup`: always a plain user; `id` stands for `Date.now().toString()`. */
  function Signup(s: Session, email: string, password: string, fullName: string, id: string): (r: Session)
    ensures r.user == Some(User(id, email, fullName, UserRole)) && !r.isLoading
    ensures StorageKey in r.store && r.store[StorageKey] == r.user.value
    ensures forall k :: k != StorageKey ==> (k in r.store <==> k in s.store)
    ensures forall k :: k != StorageKey && k in s.store ==> r.store[k] == s.store[k]
  {
    var u := User(id, email, fullName, UserRole);
    Session(Some(u), false, s.store[StorageKey := u])
  }

  /** `logout`: forget the user and the stored entry. */
  function Logout(s: Session): (r: Session)
    ensures !IsAuthenticated(r) && StorageKey !in r.store
    ensures r.isLoading == s.isLoading
    ensures forall k :: k != StorageKey ==> (k in r.store <==> k in s.store)
    ensures forall k :: k != StorageKey && k in s.store ==> r.store[k] == s.store[k]
  {
    Session(None, s.isLoading, s.store - {StorageKey})
  }

  /** `isAuthenticated` after each transition: login and signup leave a user
      signed in, logout signs them out, and the initial check signs in exactly
      when the store holds a session. */
  lemma AuthenticationAfterTransitions(s: Session, email: string, password: string, fullName: string, id: string,
                                       store: map<string, User>)
    ensures IsAuthenticated(Login(s, email, password))
    ensures IsAuthenticated(Signup(s, email, password, fullName, id))
    ensures !IsAuthenticated(Logout(s))
    ensures IsAuthenticated(CheckSession(Initial(store))) <==> StorageKey in store
  {
  }

  /** The password plays no part in a login. */
  lemma LoginIgnoresPassword(s: Session, email: string, p1: string, p2: string)
    ensures Login(s, email, p1) == Login(s, email, p2)
  {
  }

  /** A reload after a login or signup restores the same user; after a logout
      it restores nobody. */
  lemma ReloadRestoresSession(s: Session, email: string, password: string, fullName: string, id: string)
    ensures CheckSession(Initial(Login(s, email, password).store)).user == Login(s, email, password).user
    ensures CheckSession(Initial(Signup(s, email, password, fullName, id).store)).user
         == Signup(s, email, password, fullName, id).user
    ensures !IsAuthenticated(CheckSession(Initial(Logout(s).store)))
  {
  }

  /** The name is the whole email when it has no '@'. */
  lemma FullNameWithoutAt(email: string)
    requires '@' !in email
    ensures FullNameOf(email) == email
  {
  }
}
