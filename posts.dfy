/**
 * The post handlers: create, delete, comment, like/unlike, and the three
 * filtered post lists. Each takes the requester's id (the `req.user` that
 * the login middleware attached) and works on the document store.
 *
 * The handlers answer most writes with the full list of posts, newest first;
 * the model answers with the posts map and leaves the order to the store.
 */
module PostController {
  import opened Wrappers
  import opened Mongo
  import opened Strings
  import opened Models

  const UserNotFound := "User Not Found"
  const PostNeedsContent := "Post should be have text or image"
  const DeletedPostNotFound := " post not found   "
  const NotAuthorized := "You are not authorized"
  const PostNotFound := "Post not found"
  const CommentTextRequired := "Comment text is required"
  const NoSuchUser := "user not found"

  /**
   * The "post" notifications a new post fans out to its author's followers,
   * one per entry of the follower list, the i-th under id `first + i`.
   */
  function FollowerNotifications(author: Id, followers: seq<Id>, post: Id, first: Id): (r: map<Id, Notification>)
    ensures forall id :: id in r <==> first <= id < first + |followers|
    decreases |followers|
  {
    if followers == [] then map[]
    else
      var n := |followers| - 1;
      var earlier := FollowerNotifications(author, followers[..n], post, first);
      assert first + n !in earlier;
      earlier[first + n := NewNotification(author, followers[n], PostKind, None, Some(post))]
  }

  /**
   * The fan-out holds exactly one notification per entry of the follower
   * list: from the author, to that follower, of type "post", about the post.
   */
  lemma {:induction false} FollowerNotificationsExact(author: Id, followers: seq<Id>, post: Id, first: Id)
    ensures var r := FollowerNotifications(author, followers, post, first);
            && |r| == |followers|
            && forall i :: 0 <= i < |followers| ==>
                 r[first + i] == NewNotification(author, followers[i], PostKind, None, Some(post))
    decreases |followers|
  {
    if followers != [] {
      var n := |followers| - 1;
      FollowerNotificationsExact(author, followers[..n], post, first);
    }
  }

  /** One more follower extends the fan-out by exactly that follower's notification. */
  lemma FollowerNotificationsStep(author: Id, followers: seq<Id>, post: Id, first: Id, i: nat)
    requires i < |followers|
    ensures FollowerNotifications(author, followers[..i + 1], post, first)
         == FollowerNotifications(author, followers[..i], post, first)[first + i :=
              NewNotification(author, followers[i], PostKind, None, Some(post))]
  {
    assert followers[..i + 1][..i] == followers[..i];
  }

  /** Updating a union at a key updates its right operand there. */
  lemma UnionUpdate(a: map<Id, Notification>, b: map<Id, Notification>, k: Id, v: Notification)
    ensures (a + b)[k := v] == a + b[k := v]
  {
  }

  /** The `for...of` loop of `createPost`: one saved "post" notification per follower, in order. */
  method NotifyFollowers(db: Database, author: Id, followers: seq<Id>, post: Id)
    requires db.Valid()
    modifies db
    ensures db.Valid()
    ensures db.notifications == old(db.notifications) + FollowerNotifications(author, followers, post, old(db.nextId))
    ensures db.nextId == old(db.nextId) + |followers|
    ensures db.users == old(db.users) && db.posts == old(db.posts)
  {
    ghost var first := db.nextId;
    var i := 0;
    while i < |followers|
      invariant 0 <= i <= |followers|
      invariant db.Valid()
      invariant db.nextId == first + i
      invariant db.notifications == old(db.notifications) + FollowerNotifications(author, followers[..i], post, first)
      invariant db.users == old(db.users) && db.posts == old(db.posts)
    {
      var n := NewNotification(author, followers[i], PostKind, None, Some(post));
      FollowerNotificationsStep(author, followers, post, first, i);
      var nid := db.InsertNotification(n);
      UnionUpdate(old(db.notifications), FollowerNotifications(author, followers[..i], post, first), first + i, n);
      i := i + 1;
    }
    assert followers[..i] == followers;
  }

  /**
   * `createPost`: 400 without an author document, 400 when both text and
   * image are falsy; otherwise one post (its image uploaded first) and one
   * "post" notification per follower, and 201 with every post.
   */
  method CreatePost(db: Database, me: Id, text: Option<string>, image: Option<string>, upload: string -> string)
    returns (res: Reply<map<Id, Post>>)
    requires db.Valid()
    modifies db
    ensures db.Valid()
    ensures me !in old(db.users) ==> res == BadRequest(UserNotFound) && unchanged(db)
    ensures me in old(db.users) && !Truthy(text) && !Truthy(image) ==>
              res == BadRequest(PostNeedsContent) && unchanged(db)
    ensures me in old(db.users) && (Truthy(text) || Truthy(image)) ==>
              var id := old(db.nextId);
              var followers := old(db.users[me].followers);
              var stored := if Truthy(image) then Some(upload(image.value)) else image;
              && db.posts == old(db.posts)[id := Post(me, text, stored, [], [])]
              && db.notifications == old(db.notifications) + FollowerNotifications(me, followers, id, id + 1)
              && db.users == old(db.users)
              && db.nextId == id + 1 + |followers|
              && res == Created(db.posts)
  {
    if me !in db.users {
      return BadRequest(UserNotFound);
    }
    var author := db.users[me];
    if !Truthy(text) && !Truthy(image) {
      return BadRequest(PostNeedsContent);
    }
    var stored := image;
    if Truthy(image) {
      stored := Some(upload(image.value));
    }
    var id := db.NewId();
    db.posts := db.posts[id := Post(me, text, stored, [], [])];
    NotifyFollowers(db, me, author.followers, id);
    res := Created(db.posts);
  }

  /**
   * `deletePost`: 404 for an unknown post, 401 when the requester is not its
   * author; otherwise the image (if any) is destroyed in the image store by
   * its public id, exactly that post is removed, and 201 with every post.
   */
  method DeletePost(db: Database, me: Id, postId: Id) returns (res: Reply<map<Id, Post>>, destroyed: Option<string>)
    requires db.Valid()
    modifies db
    ensures db.Valid()
    ensures postId !in old(db.posts) ==> res == NotFound(DeletedPostNotFound) && destroyed == None && unchanged(db)
    ensures postId in old(db.posts) && old(db.posts[postId]).user != me ==>
              res == Unauthorized(NotAuthorized) && destroyed == None && unchanged(db)
    ensures postId in old(db.posts) && old(db.posts[postId]).user == me ==>
              var image := old(db.posts[postId]).image;
              && db.posts == old(db.posts) - {postId}
              && db.users == old(db.users) && db.notifications == old(db.notifications)
              && db.nextId == old(db.nextId)
              && destroyed == (if Truthy(image) then Some(ImageId(image.value)) else None)
              && res == Created(db.posts)
  {
    destroyed := None;
    if postId !in db.posts {
      return NotFound(DeletedPostNotFound), destroyed;
    }
    var post := db.posts[postId];
    if post.user != me {
      return Unauthorized(NotAuthorized), destroyed;
    }
    if Truthy(post.image) {
      destroyed := Some(ImageId(post.image.value));
    }
    db.posts := db.posts - {postId};
    res := Created(db.posts);
  }

  /**
   * `commentOnPost`: 404 for an unknown post, 400 for falsy text; otherwise
   * one comment appended at the end, a "comment" notification to the owner
   * unless the owner is commenting, and 200 with every post.
   */
  method CommentOnPost(db: Database, me: Id, postId: Id, text: Option<string>) returns (res: Reply<map<Id, Post>>)
    requires db.Valid()
    modifies db
    ensures db.Valid()
    ensures postId !in old(db.posts) ==> res == NotFound(PostNotFound) && unchanged(db)
    ensures postId in old(db.posts) && !Truthy(text) ==> res == BadRequest(CommentTextRequired) && unchanged(db)
    ensures postId in old(db.posts) && Truthy(text) ==>
              var post := old(db.posts[postId]);
              && db.posts == old(db.posts)[postId := post.(comments := post.comments + [Comment(me, text.value)])]
              && db.users == old(db.users)
              && (me != post.user ==>
                    && db.notifications == old(db.notifications)[old(db.nextId) :=
                         NewNotification(me, post.user, CommentKind, text, Some(postId))]
                    && old(db.nextId) !in old(db.notifications)
                    && db.nextId == old(db.nextId) + 1)
              && (me == post.user ==> db.notifications == old(db.notifications) && db.nextId == old(db.nextId))
              && res == Ok(db.posts)
  {
    if postId !in db.posts {
      return NotFound(PostNotFound);
    }
    if !Truthy(text) {
      return BadRequest(CommentTextRequired);
    }
    var post := db.posts[postId];
    db.posts := db.posts[postId := post.(comments := post.comments + [Comment(me, text.value)])];
    if me != post.user {
      var nid := db.InsertNotification(NewNotification(me, post.user, CommentKind, text, Some(postId)));
    }
    res := Ok(db.posts);
  }

  /**
   * `likeUnlike`: 404 for an unknown post. Otherwise, when the requester is
   * not among the post's likes, the requester is pushed onto the post's
   * `likes` and the post onto the requester's `likedPosts`, and the owner,
   * unless liking their own post, gets a "like" notification; when the
   * requester is already there, both are pulled and nobody is notified.
   */
  method LikeUnlike(db: Database, me: Id, postId: Id) returns (res: Reply<map<Id, Post>>)
    requires db.Valid()
    modifies db
    ensures db.Valid()
    ensures postId !in old(db.posts) ==> res == NotFound(PostNotFound) && unchanged(db)
    ensures postId in old(db.posts) ==>
              var post := old(db.posts[postId]);
              var liking := me !in post.likes;
              var liked := if me in old(db.users) then old(db.users[me]).likedPosts else [];
              var toggled := MirroredToggle(post.likes, me, liked, postId);
              && db.posts == old(db.posts)[postId := post.(likes := toggled.0)]
              && db.users == (if me in old(db.users)
                              then old(db.users)[me := old(db.users[me]).(likedPosts := toggled.1)]
                              else old(db.users))
              && (liking && me != post.user ==>
                    && db.notifications == old(db.notifications)[old(db.nextId) :=
                         NewNotification(me, post.user, LikeKind, None, Some(postId))]
                    && old(db.nextId) !in old(db.notifications)
                    && db.nextId == old(db.nextId) + 1)
              && (!liking || me == post.user ==>
                    db.notifications == old(db.notifications) && db.nextId == old(db.nextId))
              && res == Ok(db.posts)
  {
    if postId !in db.posts {
      return NotFound(PostNotFound);
    }
    var post := db.posts[postId];
    var isLike := me in post.likes;
    if !isLike {
      db.posts := db.posts[postId := post.(likes := post.likes + [me])];
      if me in db.users {
        var u := db.users[me];
        db.users := db.users[me := u.(likedPosts := u.likedPosts + [postId])];
      }
      if me != post.user {
        var nid := db.InsertNotification(NewNotification(me, post.user, LikeKind, None, Some(postId)));
      }
    } else {
      db.posts := db.posts[postId := post.(likes := Pull(post.likes, me))];
      if me in db.users {
        var u := db.users[me];
        db.users := db.users[me := u.(likedPosts := Pull(u.likedPosts, postId))];
      }
    }
    res := Ok(db.posts);
  }

  /** `getLikedPosts`: 404 without a requester, else the posts whose id the requester's `likedPosts` holds. */
  function GetLikedPosts(db: Database, me: Option<Id>): (r: Reply<map<Id, Post>>)
    reads db
    requires me.Some? ==> me.value in db.users
    ensures me.None? ==> r == NotFound(NoSuchUser)
    ensures me.Some? ==> r.Ok?
    ensures r.Ok? ==> forall id :: id in r.body <==> id in db.posts && id in db.users[me.value].likedPosts
    ensures r.Ok? ==> forall id :: id in r.body ==> r.body[id] == db.posts[id]
  {
    if me.None? then NotFound(NoSuchUser)
    else
      var liked := db.users[me.value].likedPosts;
      Ok(map id | id in db.posts && id in liked :: db.posts[id])
  }

  /** `getFollowingPosts`: 404 without a requester, else the posts written by someone the requester follows. */
  function GetFollowingPosts(db: Database, me: Option<Id>): (r: Reply<map<Id, Post>>)
    reads db
    requires me.Some? ==> me.value in db.users
    ensures me.None? ==> r == NotFound(NoSuchUser)
    ensures me.Some? ==> r.Ok?
    ensures r.Ok? ==> forall id :: id in r.body <==> id in db.posts && db.posts[id].user in db.users[me.value].following
    ensures r.Ok? ==> forall id :: id in r.body ==> r.body[id] == db.posts[id]
  {
    if me.None? then NotFound(NoSuchUser)
    else
      var following := db.users[me.value].following;
      Ok(map id | id in db.posts && db.posts[id].user in following :: db.posts[id])
  }

  /** `getUserPosts`: 404 for an unknown user, else exactly that user's posts. */
  function GetUserPosts(db: Database, userId: Id): (r: Reply<map<Id, Post>>)
    reads db
    ensures userId !in db.users ==> r == NotFound(NoSuchUser)
    ensures userId in db.users ==> r.Ok?
    ensures r.Ok? ==> forall id :: id in r.body <==> id in db.posts && db.posts[id].user == userId
    ensures r.Ok? ==> forall id :: id in r.body ==> r.body[id] == db.posts[id]
  {
    if userId !in db.users then NotFound(NoSuchUser)
    else Ok(map id | id in db.posts && db.posts[id].user == userId :: db.posts[id])
  }

  /**
   * Pressing "like" twice on a post: the requester's membership in the
   * post's likes and the post's membership in the requester's liked posts
   * end as they began; when the first press was a like, both lists end
   * exactly as they began.
   */
  method LikeTwiceRestores(db: Database, me: Id, postId: Id)
    requires db.Valid() && postId in db.posts && me in db.users
    requires me in db.posts[postId].likes <==> postId in db.users[me].likedPosts
    modifies db
    ensures db.Valid() && postId in db.posts && me in db.users
    ensures forall u :: u in db.posts[postId].likes <==> u in old(db.posts[postId].likes)
    ensures forall p :: p in db.users[me].likedPosts <==> p in old(db.users[me].likedPosts)
    ensures me !in old(db.posts[postId].likes) ==>
              && db.posts[postId].likes == old(db.posts[postId].likes)
              && db.users[me].likedPosts == old(db.users[me].likedPosts)
  {
    ghost var likes, liked := db.posts[postId].likes, db.users[me].likedPosts;
    var first := LikeUnlike(db, me, postId);
    var second := LikeUnlike(db, me, postId);
    MirroredToggleTwice(likes, me, liked, postId);
  }
}
