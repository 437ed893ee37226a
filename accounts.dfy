/**
 * The browser's credential store: the list of accounts kept under the
 * `cstd_users` key, and the three things the authentication dialog does
 * with it (register, reset a password, log in), as functions on the list.
 * The password digest is whatever digest function the caller passes in; no
 * property of it (not even injectivity) is assumed.
 */
module Accounts {
  import opened Wrappers

  /** A stored record `{username, password, role}`; `password` holds the digest. */
  datatype Account = Account(username: string, password: string, role: string)

  /**
   * `loadUsersFromStorage`: the parsed array, or the empty list when the key
   * is missing, empty, not JSON or not an array (all of which are `None` here).
   */
  function LoadUsers(stored: Option<seq<Account>>): (users: seq<Account>)
    ensures stored.Some? ==> users == stored.value
    ensures stored.None? ==> users == []
  {
    stored.GetOr([])
  }

  /** `users.some(u => u.username === name)` */
  predicate NameTaken(users: seq<Account>, name: string)
  {
    exists i :: 0 <= i < |users| && users[i].username == name
  }

  /** No two records share a username. */
  predicate UniqueNames(users: seq<Account>)
  {
    forall i, j :: 0 <= i < j < |users| ==> users[i].username != users[j].username
  }

  /** `users.findIndex(u => u.username === name)`, with `None` for -1. */
  function FindByName(users: seq<Account>, name: string): (r: Option<nat>)
    ensures r.None? <==> !NameTaken(users, name)
    ensures r.Some? ==> r.value < |users| && users[r.value].username == name
    ensures r.Some? ==> forall j :: 0 <= j < r.value ==> users[j].username != name
  {
    if users == [] then None
    else if users[0].username == name then Some(0)
    else match FindByName(users[1..], name)
         case None => None
         case Some(k) => Some(k + 1)
  }

  /** Whether record `a` matches a login attempt. */
  predicate Matches(a: Account, name: string, digest: string)
  {
    a.username == name && a.password == digest
  }

  /** `users.find(u => u.username === name && u.password === digest)`, as the index found. */
  function FindLogin(users: seq<Account>, name: string, digest: string): (r: Option<nat>)
    ensures r.None? <==> forall i :: 0 <= i < |users| ==> !Matches(users[i], name, digest)
    ensures r.Some? ==> r.value < |users| && Matches(users[r.value], name, digest)
    ensures r.Some? ==> forall j :: 0 <= j < r.value ==> !Matches(users[j], name, digest)
  {
    if users == [] then None
    else if Matches(users[0], name, digest) then Some(0)
    else match FindLogin(users[1..], name, digest)
         case None => None
         case Some(k) => Some(k + 1)
  }

  /** Registration: `None` when the name is taken (nothing saved), else the list with the new record appended. */
  function Register(users: seq<Account>, name: string, digest: string, role: string): (r: Option<seq<Account>>)
    ensures r.None? <==> NameTaken(users, name)
    ensures r.Some? ==> r.value == users + [Account(name, digest, role)]
  {
    if NameTaken(users, name) then None else Some(users + [Account(name, digest, role)])
  }

  /** Password reset: `None` for an unknown name, else the first record with that name gets the new digest. */
  function ResetPassword(users: seq<Account>, name: string, digest: string): (r: Option<seq<Account>>)
    ensures r.None? <==> !NameTaken(users, name)
    ensures r.Some? ==> |r.value| == |users|
    ensures r.Some? ==> (exists k :: 0 <= k < |users| && users[k].username == name
                          && (forall j :: 0 <= j < k ==> users[j].username != name)
                          && r.value == users[k := Account(name, digest, users[k].role)])
  {
    match FindByName(users, name)
    case None => None
    case Some(k) => Some(users[k := users[k].(password := digest)])
  }

  // ---------------------------------------------------------------------
  // Properties
  // ---------------------------------------------------------------------

  /** Registration keeps usernames unique. */
  lemma RegisterKeepsNamesUnique(users: seq<Account>, name: string, digest: string, role: string)
    requires UniqueNames(users)
    ensures Register(users, name, digest, role).Some? ==> UniqueNames(Register(users, name, digest, role).value)
  {
  }

  /** A password reset keeps every username and role, hence keeps usernames unique. */
  lemma ResetKeepsNamesAndRoles(users: seq<Account>, name: string, digest: string)
    requires ResetPassword(users, name, digest).Some?
    ensures forall i :: 0 <= i < |users| ==>
      ResetPassword(users, name, digest).value[i].username == users[i].username &&
      ResetPassword(users, name, digest).value[i].role == users[i].role
    ensures UniqueNames(users) ==> UniqueNames(ResetPassword(users, name, digest).value)
  {
  }

  /** Right after registering a new name, logging in with the same credentials finds the new record. */
  lemma {:induction false} RegisterThenLogin(users: seq<Account>, name: string, digest: string, role: string)
    requires !NameTaken(users, name)
    ensures FindLogin(Register(users, name, digest, role).value, name, digest) == Some(|users|)
  {
    var after := Register(users, name, digest, role).value;
    assert after[|users|] == Account(name, digest, role);
    assert forall j :: 0 <= j < |users| ==> after[j] == users[j] && users[j].username != name;
    var k := FindLogin(after, name, digest).value;
    assert after[k].username == name;
  }

  /** After a reset, the new password logs in to the record that was reset. */
  lemma ResetThenLoginNew(users: seq<Account>, name: string, digest: string)
    requires NameTaken(users, name)
    ensures FindLogin(ResetPassword(users, name, digest).value, name, digest) == FindByName(users, name)
  {
    var k := FindByName(users, name).value;
    var after := ResetPassword(users, name, digest).value;
    assert Matches(after[k], name, digest);
    var found := FindLogin(after, name, digest).value;
    assert after[found].username == name;
  }

  /** With unique usernames, after a reset the old password no longer logs in (when its digest differs). */
  lemma ResetThenLoginOld(users: seq<Account>, name: string, digest: string, oldDigest: string)
    requires UniqueNames(users) && NameTaken(users, name) && oldDigest != digest
    ensures FindLogin(ResetPassword(users, name, digest).value, name, oldDigest).None?
  {
    var k := FindByName(users, name).value;
    var after := ResetPassword(users, name, digest).value;
    forall i | 0 <= i < |after|
      ensures !Matches(after[i], name, oldDigest)
    {
      if i != k {
        assert after[i] == users[i];
      }
    }
  }
}
