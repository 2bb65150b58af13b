/**
 * The user directory: user documents keyed by user id, the profile
 * lookup that hides the password, the partial profile update, the
 * lookup by username that registration and login use, and the follow
 * graph kept as two id lists per user (`following` and `followers`).
 *
 * Ids are handed out in increasing order, and the collection's natural
 * order is taken to be id order.
 */
module Users {

  import opened Http
  import opened Lists

  datatype User = User(
    id: UserId,
    username: string,
    password: string,
    bio: Option<string>,
    profilePicture: Option<string>,
    followers: seq<UserId>,
    following: seq<UserId>)

  /** A user document read with the password deselected. */
  datatype Profile = Profile(
    id: UserId,
    username: string,
    bio: Option<string>,
    profilePicture: Option<string>,
    followers: seq<UserId>,
    following: seq<UserId>)

  /** The reply to a profile update. */
  datatype Summary = Summary(id: UserId, username: string, bio: Option<string>, profilePicture: Option<string>)

  /** The optional fields of a profile-update request body. */
  datatype ProfilePatch = ProfilePatch(
    username: Option<string>,
    bio: Option<string>,
    profilePicture: Option<string>,
    password: Option<string>)

  /** Every user is stored under its own id, and every id is below `nextId`. */
  ghost predicate WellKeyed(users: map<UserId, User>, nextId: nat)
  {
    forall k :: k in users ==> k < nextId && users[k].id == k
  }

  // ---------------------------------------------------------------------
  // Reads

  function WithoutPassword(u: User): Profile
  {
    Profile(u.id, u.username, u.bio, u.profilePicture, u.followers, u.following)
  }

  /** `getUserProfile`: the stored user minus its password, or 404. */
  function GetUserProfile(users: map<UserId, User>, id: UserId): (reply: Reply<Profile>)
    ensures reply.status == StatusNotFound <==> id !in users
    ensures id !in users ==> reply.body == Msg("User not found")
    ensures id in users ==>
      && reply.status == StatusOk && reply.body.Doc?
      && reply.body.doc.id == users[id].id
      && reply.body.doc.username == users[id].username
      && reply.body.doc.bio == users[id].bio
      && reply.body.doc.profilePicture == users[id].profilePicture
      && reply.body.doc.followers == users[id].followers
      && reply.body.doc.following == users[id].following
  {
    if id in users then Reply(StatusOk, Doc(WithoutPassword(users[id])))
    else Reply(StatusNotFound, Msg("User not found"))
  }

  /** The profile reply never depends on the stored password. */
  lemma ProfileHidesPassword(users: map<UserId, User>, id: UserId, password: string)
    requires id in users
    ensures GetUserProfile(users[id := users[id].(password := password)], id) == GetUserProfile(users, id)
  {
  }

  /**
   * `User.findOne({ username })`: the first user in natural order among
   * those with ids below `n` whose username is `name`.
   */
  function FindByUsername(users: map<UserId, User>, n: nat, name: string): (r: Option<UserId>)
    ensures r.Some? ==> r.value < n && r.value in users && users[r.value].username == name
    ensures r.Some? ==> forall k :: k < r.value && k in users ==> users[k].username != name
    ensures r.None? ==> forall k :: k < n && k in users ==> users[k].username != name
  {
    if n == 0 then None
    else
      match FindByUsername(users, n - 1, name)
      case Some(k) => Some(k)
      case None => if n - 1 in users && users[n - 1].username == name then Some(n - 1) else None
  }

  // ---------------------------------------------------------------------
  // Profile update

  /**
   * The fields a profile update writes: each of username, bio, picture and
   * password takes the request's value when that value is truthy and keeps
   * the old one otherwise; id and both follow lists never change.
   */
  function ApplyPatch(u: User, patch: ProfilePatch): (r: User)
    ensures r.username == OrElse(patch.username, u.username)
    ensures r.password == OrElse(patch.password, u.password)
    ensures r.bio == Keep(patch.bio, u.bio)
    ensures r.profilePicture == Keep(patch.profilePicture, u.profilePicture)
    ensures r.id == u.id && r.followers == u.followers && r.following == u.following
  {
    u.(username := OrElse(patch.username, u.username),
       bio := Keep(patch.bio, u.bio),
       profilePicture := Keep(patch.profilePicture, u.profilePicture),
       password := OrElse(patch.password, u.password))
  }

  /** A request with no truthy field leaves the user as it was. */
  lemma EmptyPatchKeepsUser(u: User, patch: ProfilePatch)
    requires !Truthy(patch.username) && !Truthy(patch.bio)
    requires !Truthy(patch.profilePicture) && !Truthy(patch.password)
    ensures ApplyPatch(u, patch) == u
  {
  }

  /** Sending the same update twice is the same as sending it once. */
  lemma ApplyPatchIdempotent(u: User, patch: ProfilePatch)
    ensures ApplyPatch(ApplyPatch(u, patch), patch) == ApplyPatch(u, patch)
  {
  }

  function SummaryOf(u: User): Summary
  {
    Summary(u.id, u.username, u.bio, u.profilePicture)
  }

  // ---------------------------------------------------------------------
  // The follow graph

  /** The directory after `current` follows `target`: one id appended to each side. */
  function Followed(users: map<UserId, User>, current: UserId, target: UserId): (r: map<UserId, User>)
    requires current in users && target in users && current != target
    ensures r.Keys == users.Keys
    ensures r[current].following == users[current].following + [target]
    ensures r[target].followers == users[target].followers + [current]
    ensures r[current] == users[current].(following := r[current].following)
    ensures r[target] == users[target].(followers := r[target].followers)
    ensures forall k :: k in users && k != current && k != target ==> r[k] == users[k]
  {
    var me := users[current];
    var them := users[target];
    users[current := me.(following := me.following + [target])]
         [target := them.(followers := them.followers + [current])]
  }

  /** The directory after `current` unfollows `target`: every occurrence removed on each side. */
  function Unfollowed(users: map<UserId, User>, current: UserId, target: UserId): (r: map<UserId, User>)
    requires current in users && target in users && current != target
    ensures r.Keys == users.Keys
    ensures target !in r[current].following && current !in r[target].followers
    ensures r[current].following == Remove(users[current].following, target)
    ensures r[target].followers == Remove(users[target].followers, current)
    ensures r[current] == users[current].(following := r[current].following)
    ensures r[target] == users[target].(followers := r[target].followers)
    ensures forall k :: k in users && k != current && k != target ==> r[k] == users[k]
  {
    var me := users[current];
    var them := users[target];
    users[current := me.(following := Remove(me.following, target))]
         [target := them.(followers := Remove(them.followers, current))]
  }

  /** Unfollowing twice is the same as unfollowing once. */
  lemma UnfollowIdempotent(users: map<UserId, User>, current: UserId, target: UserId)
    requires current in users && target in users && current != target
    ensures Unfollowed(Unfollowed(users, current, target), current, target) == Unfollowed(users, current, target)
  {
    RemoveIdempotent(users[current].following, target);
    RemoveIdempotent(users[target].followers, current);
  }

  /** From a state where neither list names the other, a follow then an unfollow restores both users exactly. */
  lemma FollowThenUnfollow(users: map<UserId, User>, current: UserId, target: UserId)
    requires current in users && target in users && current != target
    requires target !in users[current].following && current !in users[target].followers
    ensures Unfollowed(Followed(users, current, target), current, target) == users
  {
    AppendThenRemove(users[current].following, target);
    AppendThenRemove(users[target].followers, current);
  }

  /**
   * The follow graph as the two handlers mean to keep it: `b` is in `a`'s
   * following exactly when `a` is in `b`'s followers, nobody follows
   * themselves, and no list names anyone twice.
   */
  ghost predicate FollowGraph(users: map<UserId, User>)
  {
    && (forall a, b :: a in users && b in users ==>
          (b in users[a].following <==> a in users[b].followers))
    && (forall a :: a in users ==> a !in users[a].following && a !in users[a].followers)
    && (forall a :: a in users ==> NoDuplicates(users[a].following) && NoDuplicates(users[a].followers))
  }

  /** A successful follow keeps the follow graph consistent. */
  lemma FollowKeepsGraph(users: map<UserId, User>, current: UserId, target: UserId)
    requires current in users && target in users && current != target
    requires FollowGraph(users)
    requires target !in users[current].following
    ensures FollowGraph(Followed(users, current, target))
  {
    var r := Followed(users, current, target);
    assert current !in users[target].followers;
    forall a | a in r
      ensures r[a].following == users[a].following + (if a == current then [target] else [])
      ensures r[a].followers == users[a].followers + (if a == target then [current] else [])
    {
    }
    forall a, b | a in r && b in r ensures b in r[a].following <==> a in r[b].followers {
      assert b in users[a].following <==> a in users[b].followers;
    }
    forall a | a in r ensures a !in r[a].following && a !in r[a].followers {
    }
    forall a | a in r ensures NoDuplicates(r[a].following) && NoDuplicates(r[a].followers) {
      if a == current {
        AppendKeepsNoDuplicates(users[current].following, target);
      } else if a == target {
        AppendKeepsNoDuplicates(users[target].followers, current);
      }
    }
  }

  /** An unfollow keeps the follow graph consistent. */
  lemma UnfollowKeepsGraph(users: map<UserId, User>, current: UserId, target: UserId)
    requires current in users && target in users && current != target
    requires FollowGraph(users)
    ensures FollowGraph(Unfollowed(users, current, target))
  {
    var r := Unfollowed(users, current, target);
    RemoveKeepsNoDuplicates(users[current].following, target);
    RemoveKeepsNoDuplicates(users[target].followers, current);
    forall a, b | a in r && b in r ensures b in r[a].following <==> a in r[b].followers {
      assert b in users[a].following <==> a in users[b].followers;
    }
  }

  // ---------------------------------------------------------------------
  // The directory and its mutating handlers

  class UserDirectory {
    var users: map<UserId, User>
    var nextId: nat

    ghost predicate Valid()
      reads this
    {
      WellKeyed(users, nextId)
    }

    constructor ()
      ensures Valid() && users == map[]
    {
      users := map[];
      nextId := 0;
    }

    /** `User.create({ username, password })`: a new user with no bio, picture or follow lists. */
    method Create(username: string, password: string) returns (user: User)
      requires Valid()
      modifies this
      ensures Valid()
      ensures user.id !in old(users) && users == old(users)[user.id := user]
      ensures user == User(user.id, username, password, None, None, [], [])
    {
      user := User(nextId, username, password, None, None, [], []);
      users := users[nextId := user];
      nextId := nextId + 1;
    }

    /** `updateUserProfile`: writes the truthy request fields on the requesting user. */
    method UpdateUserProfile(me: UserId, patch: ProfilePatch) returns (reply: Reply<Summary>)
      requires Valid()
      modifies this
      ensures Valid() && nextId == old(nextId)
      ensures me !in old(users) ==>
        reply == Reply(StatusNotFound, Msg("User not found")) && users == old(users)
      ensures me in old(users) ==>
        var updated := ApplyPatch(old(users)[me], patch);
        users == old(users)[me := updated] && reply == Reply(StatusOk, Doc(SummaryOf(updated)))
    {
      if me !in users {
        return Reply(StatusNotFound, Msg("User not found"));
      }
      var user := users[me];
      user := user.(username := OrElse(patch.username, user.username));
      user := user.(bio := Keep(patch.bio, user.bio));
      if Truthy(patch.profilePicture) {
        user := user.(profilePicture := patch.profilePicture);
      }
      if Truthy(patch.password) {
        user := user.(password := patch.password.value);
      }
      users := users[me := user];
      reply := Reply(StatusOk, Doc(SummaryOf(user)));
    }

    /** `followUser`: 404 for a missing user, 400 for a repeated follow, otherwise both lists grow by one. */
    method FollowUser(current: UserId, target: UserId) returns (reply: Reply<User>)
      requires Valid()
      requires current != target
      modifies this
      ensures Valid() && nextId == old(nextId)
      ensures target !in old(users) || current !in old(users) ==>
        reply == Reply(StatusNotFound, Msg("User not found")) && users == old(users)
      ensures target in old(users) && current in old(users) && target in old(users)[current].following ==>
        reply == Reply(StatusBadRequest, Msg("You are already following this user")) && users == old(users)
      ensures target in old(users) && current in old(users) && target !in old(users)[current].following ==>
        && users == Followed(old(users), current, target)
        && reply == Reply(StatusOk, Msg("You are now following " + old(users)[target].username))
    {
      if target !in users || current !in users {
        return Reply(StatusNotFound, Msg("User not found"));
      }
      var userToFollow := users[target];
      var currentUser := users[current];
      if target in currentUser.following {
        return Reply(StatusBadRequest, Msg("You are already following this user"));
      }
      currentUser := currentUser.(following := currentUser.following + [target]);
      userToFollow := userToFollow.(followers := userToFollow.followers + [current]);
      users := users[current := currentUser];
      users := users[target := userToFollow];
      reply := Reply(StatusOk, Msg("You are now following " + userToFollow.username));
    }

    /** `unfollowUser`: 404 for a missing user, otherwise both lists are filtered; succeeds with no relationship too. */
    method UnfollowUser(current: UserId, target: UserId) returns (reply: Reply<User>)
      requires Valid()
      requires current != target
      modifies this
      ensures Valid() && nextId == old(nextId)
      ensures target !in old(users) || current !in old(users) ==>
        reply == Reply(StatusNotFound, Msg("User not found")) && users == old(users)
      ensures target in old(users) && current in old(users) ==>
        && users == Unfollowed(old(users), current, target)
        && reply == Reply(StatusOk, Msg("You have unfollowed " + old(users)[target].username))
    {
      if target !in users || current !in users {
        return Reply(StatusNotFound, Msg("User not found"));
      }
      var userToUnfollow := users[target];
      var currentUser := users[current];
      currentUser := currentUser.(following := Remove(currentUser.following, target));
      userToUnfollow := userToUnfollow.(followers := Remove(userToUnfollow.followers, current));
      users := users[current := currentUser];
      users := users[target := userToUnfollow];
      reply := Reply(StatusOk, Msg("You have unfollowed " + userToUnfollow.username));
    }
  }

  /**
   * A follow, then a repeated follow, then two unfollows: the second follow
   * is refused and changes nothing, both unfollows succeed, and the
   * directory ends as it started.
   */
  method FollowTwiceUnfollowTwice(dir: UserDirectory, current: UserId, target: UserId)
    returns (replies: seq<Reply<User>>)
    requires dir.Valid() && current != target
    requires current in dir.users && target in dir.users
    requires target !in dir.users[current].following && current !in dir.users[target].followers
    modifies dir
    ensures dir.Valid()
    ensures |replies| == 4
    ensures replies[0].status == StatusOk && replies[1].status == StatusBadRequest
    ensures replies[2].status == StatusOk && replies[3].status == StatusOk
    ensures dir.users == old(dir.users)
  {
    var first := dir.FollowUser(current, target);
    var second := dir.FollowUser(current, target);
    var third := dir.UnfollowUser(current, target);
    FollowThenUnfollow(old(dir.users), current, target);
    var fourth := dir.UnfollowUser(current, target);
    UnfollowIdempotent(Followed(old(dir.users), current, target), current, target);
    replies := [first, second, third, fourth];
  }
}
