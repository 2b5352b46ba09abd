/**
 * The user handlers: follow/unfollow, suggested users, password change, and
 * the image-store clean-up done by a profile update.
 */
module UsersController {
  import opened Wrappers
  import opened Mongo
  import opened Strings
  import opened Models

  const UserNotFound := "User Not Found"
  const CannotFollowSelf := "You Can't Follow/UnFollow Your Self!"
  const SuggestedUsersError := "get suggesteduser error"
  const PasswordInputsMissing := "please Out fill Password Inputs"
  const PasswordTooShort := "Password is too Short"
  const OldPasswordWrong := "Old Password Is Not Correct Please Try Again"
  const UpdatePasswordError := "Error in update password"

  /** Shortest new password `updatePassword` accepts. */
  const MinPasswordLength := 6

  /** How many suggestions are kept from the sample (`slice(0, 4)`). */
  const SuggestionCount := 4

  /** The body of a follow/unfollow reply: both accounts without passwords and whether it was a follow. */
  datatype FollowResult = FollowResult(myAccount: User, followUser: User, followed: bool)

  /**
   * `followUnFollowUser`: 400 without a requester or target, 400 when the
   * target is the requester. Otherwise, when the requester's `following`
   * does not hold the target, the requester is pushed onto the target's
   * `followers`, the target onto the requester's `following`, and one
   * "follow" notification goes to the target; when it does, both are pulled
   * and nobody is notified.
   */
  method FollowUnFollowUser(db: Database, me: Option<Id>, target: Id) returns (res: Reply<FollowResult>)
    requires db.Valid()
    requires me.Some? ==> me.value in db.users
    modifies db
    ensures db.Valid()
    ensures me.None? || target !in old(db.users) ==> res == BadRequest(UserNotFound) && unchanged(db)
    ensures me == Some(target) && target in old(db.users) ==> res == BadRequest(CannotFollowSelf) && unchanged(db)
    ensures me.Some? && me.value != target && target in old(db.users) ==>
              var m := me.value;
              var mine := old(db.users[m]);
              var theirs := old(db.users[target]);
              var follow := target !in mine.following;
              var toggled := MirroredToggle(mine.following, target, theirs.followers, m);
              && db.users == old(db.users)[target := theirs.(followers := toggled.1)][m := mine.(following := toggled.0)]
              && db.posts == old(db.posts)
              && (follow ==>
                    && db.notifications == old(db.notifications)[old(db.nextId) :=
                         NewNotification(m, target, FollowKind, None, None)]
                    && old(db.nextId) !in old(db.notifications)
                    && db.nextId == old(db.nextId) + 1)
              && (!follow ==> db.notifications == old(db.notifications) && db.nextId == old(db.nextId))
              && res == Ok(FollowResult(View(db.users[m]), View(db.users[target]), follow))
  {
    if me.None? || target !in db.users {
      return BadRequest(UserNotFound);
    }
    var m := me.value;
    if target == m {
      return BadRequest(CannotFollowSelf);
    }
    var isFollowing := target in db.users[m].following;
    if isFollowing {
      var theirs := db.users[target];
      db.users := db.users[target := theirs.(followers := Pull(theirs.followers, m))];
      var mine := db.users[m];
      db.users := db.users[m := mine.(following := Pull(mine.following, target))];
      res := Ok(FollowResult(View(db.users[m]), View(db.users[target]), false));
    } else {
      var theirs := db.users[target];
      db.users := db.users[target := theirs.(followers := theirs.followers + [m])];
      var mine := db.users[m];
      db.users := db.users[m := mine.(following := mine.following + [target])];
      var nid := db.InsertNotification(NewNotification(m, target, FollowKind, None, None));
      res := Ok(FollowResult(View(db.users[m]), View(db.users[target]), true));
    }
  }

  /**
   * Pressing "follow" twice on another user: the requester's `following`
   * and the target's `followers` end with the memberships they began with;
   * when the first press was a follow, both lists end exactly as they began
   * and the only trace left is the one "follow" notification.
   */
  method FollowTwiceRestores(db: Database, me: Id, target: Id)
    requires db.Valid() && me in db.users && target in db.users && me != target
    requires target in db.users[me].following <==> me in db.users[target].followers
    modifies db
    ensures db.Valid() && me in db.users && target in db.users
    ensures forall u :: u in db.users[me].following <==> u in old(db.users[me].following)
    ensures forall u :: u in db.users[target].followers <==> u in old(db.users[target].followers)
    ensures target !in old(db.users[me].following) ==>
              && db.users[me].following == old(db.users[me].following)
              && db.users[target].followers == old(db.users[target].followers)
              && db.notifications == old(db.notifications)[old(db.nextId) :=
                   NewNotification(me, target, FollowKind, None, None)]
  {
    ghost var following, followers := db.users[me].following, db.users[target].followers;
    var first := FollowUnFollowUser(db, Some(me), target);
    var second := FollowUnFollowUser(db, Some(me), target);
    MirroredToggleTwice(following, target, followers, me);
  }

  /**
   * `users.filter(user => !following.some(fid => fid == user._id))`: the
   * sampled users not followed, in sample order, each as often as the
   * sample holds it.
   */
  function NotFollowed(sample: seq<Id>, following: seq<Id>): (r: seq<Id>)
    ensures forall u :: u in r <==> u in sample && u !in following
    ensures forall u :: multiset(r)[u] == if u in following then 0 else multiset(sample)[u]
    ensures IsSubsequence(r, sample)
    decreases |sample|
  {
    if sample == [] then []
    else
      var rest := NotFollowed(sample[1..], following);
      assert [sample[0]] + sample[1..] == sample;
      assert multiset(sample) == multiset([sample[0]]) + multiset(sample[1..]);
      if sample[0] in following then
        SubsequenceCons(rest, sample[0], sample[1..]);
        rest
      else
        assert ([sample[0]] + rest)[1..] == rest;
        assert multiset([sample[0]] + rest) == multiset([sample[0]]) + multiset(rest);
        [sample[0]] + rest
  }

  /**
   * The suggestions kept from a sample: `filter` then `slice(0, 4)`. At most
   * four, in sample order, none already followed; fewer than four only when
   * every candidate of the sample was kept.
   */
  function Suggest(sample: seq<Id>, following: seq<Id>): (r: seq<Id>)
    ensures |r| <= SuggestionCount
    ensures IsSubsequence(r, sample)
    ensures forall i :: 0 <= i < |r| ==> r[i] in sample && r[i] !in following
    ensures |r| < SuggestionCount ==> forall u :: u in sample && u !in following ==> u in r
    ensures var candidates := NotFollowed(sample, following);
            && |r| == (if |candidates| < SuggestionCount then |candidates| else SuggestionCount)
            && r == candidates[..|r|]
  {
    var candidates := NotFollowed(sample, following);
    var r := if |candidates| <= SuggestionCount then candidates else candidates[..SuggestionCount];
    SubsequencePrefix(candidates, sample, |r|);
    assert r == candidates[..|r|];
    SubsequenceMembers(r, sample);
    r
  }

  /**
   * `isGetSuggestedUsers`, given the store's random sample (`$sample` of ten
   * users other than the requester, which is the input `sample`): the
   * suggested users in order, each with its password set to null. When the
   * requester has no document, the filter's first call throws (500); with an
   * empty sample it is never called and the reply is an empty list.
   */
  method GetSuggestedUsers(db: Database, me: Id, sample: seq<Id>) returns (res: Reply<seq<(Id, User)>>)
    requires forall i :: 0 <= i < |sample| ==> sample[i] in db.users && sample[i] != me
    ensures me !in db.users && |sample| > 0 <==> res == ServerError(SuggestedUsersError)
    ensures me !in db.users && |sample| == 0 ==> res == Ok([])
    ensures !res.Ok? ==> res == ServerError(SuggestedUsersError)
    ensures res.Ok? ==>
              var following := if me in db.users then db.users[me].following else [];
              var ids := Suggest(sample, following);
              && |res.body| == |ids|
              && forall i :: 0 <= i < |ids| ==> res.body[i] == (ids[i], View(db.users[ids[i]]))
    ensures res.Ok? ==>
              && |res.body| <= SuggestionCount
              && forall i :: 0 <= i < |res.body| ==>
                   && res.body[i].0 != me
                   && (me in db.users ==> res.body[i].0 !in db.users[me].following)
                   && res.body[i].1.password.None?
  {
    if me !in db.users && |sample| > 0 {
      return ServerError(SuggestedUsersError);
    }
    var following := if me in db.users then db.users[me].following else [];
    var ids := Suggest(sample, following);
    assert |sample| == 0 ==> NotFollowed(sample, following) == [];
    assert forall j :: 0 <= j < |ids| ==> ids[j] in sample;
    var suggested := WithoutPasswords(db.users, ids);
    res := Ok(suggested);
  }

  /**
   * `suggestedUser.forEach(user => user.password = null)` over the documents
   * of `ids`: the same users in the same order, none with a password.
   */
  method WithoutPasswords(users: map<Id, User>, ids: seq<Id>) returns (r: seq<(Id, User)>)
    requires forall i :: 0 <= i < |ids| ==> ids[i] in users
    ensures |r| == |ids|
    ensures forall i :: 0 <= i < |ids| ==> r[i] == (ids[i], View(users[ids[i]]))
    ensures forall i :: 0 <= i < |r| ==> r[i].1.password.None?
  {
    var suggested := new (Id, User)[|ids|](j requires 0 <= j < |ids| => (ids[j], users[ids[j]]));
    for i := 0 to suggested.Length
      invariant forall j :: 0 <= j < i ==> suggested[j] == (ids[j], View(users[ids[j]]))
      invariant forall j :: i <= j < suggested.Length ==> suggested[j] == (ids[j], users[ids[j]])
    {
      suggested[i] := (suggested[i].0, suggested[i].1.(password := None));
    }
    r := suggested[..];
  }

  /**
   * `updatePassword`: 400 unless both passwords are present, 400 when the
   * new one is shorter than six characters, 400 when the old one does not
   * match the stored hash; otherwise the stored hash becomes the hash of the
   * new password and the reply carries the updated user. A missing user or
   * stored hash makes the comparison throw (500).
   */
  method UpdatePassword(db: Database, me: Id, password: Option<string>, oldPassword: Option<string>,
                        hash: string -> Digest, compare: (string, Digest) -> bool)
    returns (res: Reply<User>)
    requires db.Valid()
    modifies db
    ensures db.Valid()
    ensures !res.Ok? ==> unchanged(db)
    ensures !Truthy(oldPassword) || !Truthy(password) ==> res == BadRequest(PasswordInputsMissing)
    ensures Truthy(oldPassword) && Truthy(password) && |password.value| < MinPasswordLength ==>
              res == BadRequest(PasswordTooShort)
    ensures Truthy(oldPassword) && Truthy(password) && |password.value| >= MinPasswordLength ==>
              if me !in old(db.users) || old(db.users[me]).password.None? then
                res == ServerError(UpdatePasswordError)
              else if !compare(oldPassword.value, old(db.users[me]).password.value) then
                res == BadRequest(OldPasswordWrong)
              else
                && db.users == old(db.users)[me := old(db.users[me]).(password := Some(hash(password.value)))]
                && db.posts == old(db.posts) && db.notifications == old(db.notifications)
                && db.nextId == old(db.nextId)
                && res == Ok(db.users[me])
  {
    if (!Truthy(oldPassword) && Truthy(password)) || (!Truthy(password) && Truthy(oldPassword))
       || (!Truthy(oldPassword) && !Truthy(password)) {
      return BadRequest(PasswordInputsMissing);
    }
    if |password.value| < MinPasswordLength {
      return BadRequest(PasswordTooShort);
    }
    if me !in db.users || db.users[me].password.None? {
      return ServerError(UpdatePasswordError);
    }
    var user := db.users[me];
    var isMatch := compare(oldPassword.value, user.password.value);
    if !isMatch {
      return BadRequest(OldPasswordWrong);
    }
    db.users := db.users[me := user.(password := Some(hash(password.value)))];
    res := Ok(db.users[me]);
  }

  /**
   * The old image one picture field of `updateProfile` destroys, by public
   * id: the stored picture's id when a new picture is given and one is
   * stored, else nothing.
   */
  function DestroyedImage(newPic: Option<string>, stored: Option<string>): (r: seq<string>)
    ensures |r| == if Truthy(newPic) && Truthy(stored) then 1 else 0
    ensures |r| == 1 ==> r[0] == ImageId(stored.value)
  {
    if Truthy(newPic) && Truthy(stored) then [ImageId(stored.value)] else []
  }

  /**
   * The old images `updateProfile` destroys in the image store, by public
   * id: the stored profile picture when a new one is given, then the stored
   * cover picture when a new one is given. Ids never contain `/` or `.`.
   */
  function DestroyedProfileImages(user: User, profilePic: Option<string>, coverPic: Option<string>): (r: seq<string>)
    ensures |r| == (if Truthy(profilePic) && Truthy(user.profilePic) then 1 else 0)
                 + (if Truthy(coverPic) && Truthy(user.coverPic) then 1 else 0)
    ensures Truthy(profilePic) && Truthy(user.profilePic) ==> |r| >= 1 && r[0] == ImageId(user.profilePic.value)
    ensures Truthy(coverPic) && Truthy(user.coverPic) ==> |r| >= 1 && r[|r| - 1] == ImageId(user.coverPic.value)
    ensures forall i :: 0 <= i < |r| ==> '/' !in r[i] && '.' !in r[i]
  {
    var profile := DestroyedImage(profilePic, user.profilePic);
    var cover := DestroyedImage(coverPic, user.coverPic);
    assert forall i :: 0 <= i < |profile| ==> profile[i] == ImageId(user.profilePic.value);
    assert forall i :: 0 <= i < |cover| ==> cover[i] == ImageId(user.coverPic.value);
    profile + cover
  }
}
