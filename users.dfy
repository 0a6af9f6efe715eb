/**
 * UsersService: the registered users loaded from the store, credential lookup, the list of
 * investigators, and the in-place removal of a user by email.
 */
module Users {
  import opened Wrappers
  import opened Seqs
  import opened Model

  /** The users with role 'investigator'. */
  predicate IsInvestigator(u: User) {
    u.role == INVESTIGATOR_ROLE
  }

  /** A user registered with both this email and this password. */
  predicate HasCredentials(u: User, email: string, password: string) {
    u.email == email && u.password == password
  }

  predicate HasEmail(u: User, email: string) {
    u.email == email
  }

  /**
   * The list after `splice(findIndex(u => u.email === email), 1)`: the first user with the
   * email removed, or the list itself when nobody has it.
   */
  function RemoveFirstByEmail(users: seq<User>, email: string): (r: seq<User>)
    ensures (exists i | 0 <= i < |users| :: HasEmail(users[i], email)) <==> |r| == |users| - 1
    ensures (forall i | 0 <= i < |users| :: !HasEmail(users[i], email)) ==> r == users
  {
    match FirstIndex(users, (u: User) => HasEmail(u, email))
    case None => users
    case Some(i) => users[..i] + users[i + 1..]
  }

  /**
   * When some user has the email, exactly the first such user goes: the users before it keep
   * their places, the users after it move up by one, and the multiset loses only that user.
   */
  lemma RemoveFirstByEmailEffect(users: seq<User>, email: string, i: nat)
    requires i < |users| && HasEmail(users[i], email)
    requires forall j | 0 <= j < i :: !HasEmail(users[j], email)
    ensures var r := RemoveFirstByEmail(users, email);
            |r| == |users| - 1 &&
            (forall j | 0 <= j < i :: r[j] == users[j]) &&
            (forall j | i <= j < |r| :: r[j] == users[j + 1]) &&
            multiset(r) + multiset{users[i]} == multiset(users)
  {
    var f := FirstIndex(users, (u: User) => HasEmail(u, email));
    assert f == Some(i);
    assert users == users[..i] + [users[i]] + users[i + 1..];
  }

  /** The remaining users are the original ones in their original order. */
  lemma RemoveFirstByEmailIsSubsequence(users: seq<User>, email: string)
    ensures IsSubsequence(RemoveFirstByEmail(users, email), users)
  {
    match FirstIndex(users, (u: User) => HasEmail(u, email))
    case None =>
      SubsequenceRefl(users);
    case Some(i) =>
      SpliceIsSubsequence(users, i);
  }

  class UsersService {
    var users: seq<User>

    constructor()
      ensures users == []
    {
      users := [];
    }

    /** loadUsers: the reply replaces the list; a failed request (None) leaves it as it was. */
    method LoadUsers(reply: Option<seq<User>>)
      modifies this
      ensures users == (if reply.Some? then reply.value else old(users))
    {
      if reply.Some? {
        users := reply.value;
      }
    }

    /** validateUser: the first user with this email and password, or null. */
    function ValidateUser(email: string, password: string): (r: Option<User>)
      reads this
      ensures r.Some? <==> exists i | 0 <= i < |users| :: HasCredentials(users[i], email, password)
      ensures r.Some? ==> exists i | 0 <= i < |users| ::
                users[i] == r.value && HasCredentials(r.value, email, password) &&
                forall j | 0 <= j < i :: !HasCredentials(users[j], email, password)
    {
      Find(users, (u: User) => HasCredentials(u, email, password))
    }

    /** getInvestigators: exactly the investigators, in registration order. */
    function GetInvestigators(): (r: seq<User>)
      reads this
      ensures forall u :: u in r <==> u in users && IsInvestigator(u)
      ensures forall u :: multiset(r)[u] == if IsInvestigator(u) then multiset(users)[u] else 0
      ensures IsSubsequence(r, users)
    {
      var r := Filter(users, IsInvestigator);
      forall u ensures u in r <==> u in users && IsInvestigator(u) {
        FilterMember(users, IsInvestigator, u);
      }
      forall u ensures multiset(r)[u] == if IsInvestigator(u) then multiset(users)[u] else 0 {
        FilterMultiset(users, IsInvestigator, u);
      }
      FilterIsSubsequence(users, IsInvestigator);
      r
    }

    /** deleteUser: removes the first user with the email; true exactly when there was one. */
    method DeleteUser(email: string) returns (deleted: bool)
      modifies this
      ensures deleted <==> exists i | 0 <= i < |old(users)| :: HasEmail(old(users)[i], email)
      ensures users == RemoveFirstByEmail(old(users), email)
    {
      var index := FirstIndex(users, (u: User) => HasEmail(u, email));
      if index.Some? {
        users := users[..index.value] + users[index.value + 1..];
        return true;
      }
      return false;
    }
  }
}
