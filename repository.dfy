/**
 * The user store: a map from id to user, with the derived queries the
 * service and the authentication manager use
 * (src/main/kotlin/tripeco/auth/repository/UserRepository.kt).
 */
module Repository {
  import opened Wrappers
  import opened Text
  import opened Model

  type Store = map<string, User>

  /** Every stored user carries the id it is stored under. */
  predicate IdsMatchKeys(store: Store) {
    forall id :: id in store ==> store[id].id == Some(id)
  }

  /** No two stored users have the same email, ignoring case (the unique email index). */
  predicate EmailsUnique(store: Store) {
    forall a, b :: a in store && b in store && a != b ==> !EqualsIgnoreCase(store[a].email, store[b].email)
  }

  /** The invariant every store the service works on keeps. */
  predicate StoreValid(store: Store) {
    IdsMatchKeys(store) && EmailsUnique(store)
  }

  /** The id stores the user whose email equals `email` ignoring case. */
  predicate HasEmail(store: Store, id: string, email: string) {
    id in store && EqualsIgnoreCase(store[id].email, email)
  }

  /** `existsByEmailIgnoreCase`: some stored user has the email, ignoring case. */
  predicate ExistsByEmailIgnoreCase(store: Store, email: string)
    ensures ExistsByEmailIgnoreCase(store, email) <==> exists u :: u in store.Values && EqualsIgnoreCase(u.email, email)
  {
    exists id :: id in store && HasEmail(store, id, email)
  }

  /** `findByEmailIgnoreCase`: the one user with that email ignoring case, or null. */
  function FindByEmailIgnoreCase(store: Store, email: string): (r: Option<User>)
    requires EmailsUnique(store)
    ensures r.None? <==> !ExistsByEmailIgnoreCase(store, email)
    ensures forall id :: HasEmail(store, id, email) ==> r == Some(store[id])
  {
    if ExistsByEmailIgnoreCase(store, email) then
      var id :| id in store && HasEmail(store, id, email);
      Some(store[id])
    else
      None
  }

  /** `findById` (the `Optional` as an `Option`). */
  function FindById(store: Store, id: string): (r: Option<User>)
    ensures r.Some? <==> id in store
    ensures r.Some? ==> r.value == store[id]
  {
    if id in store then Some(store[id]) else None
  }

  /** Adding a user whose email no stored user has, ignoring case, under a new id keeps the store valid. */
  lemma InsertKeepsValid(store: Store, id: string, u: User)
    requires StoreValid(store)
    requires id !in store && u.id == Some(id)
    requires !ExistsByEmailIgnoreCase(store, u.email)
    ensures StoreValid(store[id := u])
  {
    var s := store[id := u];
    forall a, b | a in s && b in s && a != b ensures !EqualsIgnoreCase(s[a].email, s[b].email) {
      if a == id {
        assert !HasEmail(store, b, u.email);
      } else if b == id {
        assert !HasEmail(store, a, u.email);
      }
    }
  }

  /** Overwriting a stored user with one with the same id and email keeps the store valid. */
  lemma ReplaceKeepsValid(store: Store, id: string, u: User)
    requires StoreValid(store)
    requires id in store && u.id == store[id].id && u.email == store[id].email
    ensures StoreValid(store[id := u])
  {
  }

  /** Removing a user keeps the store valid. */
  lemma RemoveKeepsValid(store: Store, id: string)
    requires StoreValid(store)
    ensures StoreValid(store - {id})
  {
  }
}
