/**
 * Record shapes of the three collections the handlers work on, the replies
 * they send, and the document store as an object holding one map per
 * collection.
 */
module Models {
  import opened Wrappers
  import opened Mongo

  /** A bcrypt hash, the only thing ever stored in a user's `password` field. */
  datatype Digest = Digest(text: string)

  datatype User = User(
    userName: string,
    email: string,
    password: Option<Digest>,
    followers: seq<Id>,
    following: seq<Id>,
    likedPosts: seq<Id>,
    profilePic: Option<string>,
    coverPic: Option<string>)

  /** A user as sent in a response once its password is removed. */
  function View(u: User): (v: User)
    ensures v.password == None
    ensures v.(password := u.password) == u
  {
    u.(password := None)
  }

  datatype Comment = Comment(user: Id, text: string)

  datatype Post = Post(
    user: Id,
    text: Option<string>,
    image: Option<string>,
    likes: seq<Id>,
    comments: seq<Comment>)

  /** The `type` enum of a notification: "follow", "like", "comment", "post". */
  datatype Kind = FollowKind | LikeKind | CommentKind | PostKind

  datatype Notification = Notification(
    from: Id,
    to: Id,
    kind: Kind,
    text: Option<string>,
    post: Option<Id>,
    read: bool)

  /** A new notification, unread as the schema's default says. */
  function NewNotification(from: Id, to: Id, kind: Kind, text: Option<string>, post: Option<Id>): Notification {
    Notification(from, to, kind, text, post, false)
  }

  /**
   * An HTTP reply: the constructor names the status code (200, 201, 400,
   * 401, 403, 404, 500) and carries the JSON body or message.
   */
  datatype Reply<T> =
    | Ok(body: T)
    | Created(body: T)
    | BadRequest(message: string)
    | Unauthorized(message: string)
    | Forbidden(message: string)
    | NotFound(message: string)
    | ServerError(message: string)

  /**
   * The document store: one map per collection, keyed by document id, and
   * the source of fresh ids. Object ids are unique across collections.
   */
  class Database {
    var users: map<Id, User>
    var posts: map<Id, Post>
    var notifications: map<Id, Notification>
    var nextId: Id

    /** Every id in use is below `nextId`, so `nextId` is fresh. */
    ghost predicate Valid()
      reads this
    {
      && (forall id :: id in users ==> id < nextId)
      && (forall id :: id in posts ==> id < nextId)
      && (forall id :: id in notifications ==> id < nextId)
    }

    constructor ()
      ensures Valid()
      ensures users == map[] && posts == map[] && notifications == map[]
    {
      users, posts, notifications, nextId := map[], map[], map[], 0;
    }

    /** A fresh document id (`new Model(...)` assigns one). */
    method NewId() returns (id: Id)
      requires Valid()
      modifies this`nextId
      ensures Valid()
      ensures id == old(nextId) && nextId == id + 1
      ensures id !in users && id !in posts && id !in notifications
    {
      id := nextId;
      nextId := nextId + 1;
    }

    /** `new Notification({...}).save()`: stores `n` under a fresh id. */
    method InsertNotification(n: Notification) returns (id: Id)
      requires Valid()
      modifies this
      ensures Valid()
      ensures id == old(nextId) && nextId == id + 1
      ensures id !in old(notifications)
      ensures notifications == old(notifications)[id := n]
      ensures users == old(users) && posts == old(posts)
    {
      id := NewId();
      notifications := notifications[id := n];
    }
  }
}
