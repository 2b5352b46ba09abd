# Social-network API core in Dafny

This project models the core of a small social-network REST API (users, posts, likes, comments, follows and notifications, stored in MongoDB).

**The response cache (lib/cache.js).** This is a process-wide key/value store. Each entry has an expiry time (TTL) and an omitted TTL means 300 seconds. A bulk operation evicts every key that starts with a given prefix. The model is the class `Cache.ResponseCache`. It holds a map from key to value and expiry, plus an explicit clock `now` in seconds. Expiry is lazy: an entry answers reads while `now` is before its deadline, and a TTL of 0 never expires. A read that finds its entry expired deletes it, as node-cache does by default.

**The request handlers.** Each handler is a method or function over one `Models.Database` object. That object holds three collections (`users`, `posts`, `notifications`), each a `map<Id, …>`, and a counter that hands out fresh ids. Every handler returns a `Models.Reply`, whose constructors are the HTTP statuses the handler sends and whose payloads are the exact messages it sends. The two list updates MongoDB offers are also modelled:
- `Mongo.Pull` is `$pull`, which removes every equal element;
- appending with `+ [x]` is `$push`.

The like/unlike and follow/unfollow buttons are both `Mongo.MirroredToggle`. It decides on one list and updates two lists that mirror each other.

Calls into code outside the repository become parameters of the model:
- bcrypt's `hash` and `compare` are the function parameters `hash` and `compare`;
- the Cloudinary upload is the function parameter `upload`;
- the Cloudinary destroy is reported as an output: the public id that would be destroyed;
- the random `$sample` of users is the input `sample`.

Some handlers behave differently when the requester (`req.user`) is unset. Those handlers take `me: Option<Id>`, with `None` for the unset requester. This covers the handlers that test `!me`. It also covers the notification handlers that read `me._id` inside their `try`, where the throw becomes the handler's 500 reply. Every other handler takes a plain id. Where the source would throw because of a missing document, the model returns that handler's 500 reply.

Files:
- wrappers.dfy: `Option`.
- mongo.dfy: `$pull`, the mirrored toggle, subsequences.
- strings.dfy: JavaScript `trim`, truthiness, `startsWith`, `split`, and the image public id.
- cache.dfy: the cache.
- models.dfy: the records, replies and the database.
- posts.dfy, users.dfy, notifications.dfy, auth.dfy: the four controllers.

## Model

| member | source | states |
|---|---|---|
| Cache.Lookup | lib/cache.js:6-8 | a read answers only a held value; an entry that never expires always answers; an entry with a deadline answers its value before the deadline and never once it is reached |
| Cache.Pruned | lib/cache.js:6-8 | a read that finds its entry expired deletes exactly that entry; no read from then on answers differently |
| Cache.ExpiryAfter | lib/cache.js:10-12 | the deadline stamped on a write: a TTL of 0 never expires, a positive TTL expires at now + TTL, and a negative one has already expired |
| Cache.EffectiveTtl | lib/cache.js:10 | an omitted TTL argument is 300 seconds; a given one, zero or negative included, is used as is |
| Cache.Stored | lib/cache.js:10-12 | after a set, the key is held; it reads as the value at every time before the deadline (always, for TTL 0) and as absent from the deadline on, at once for a negative TTL; every other key reads as before |
| Cache.Evicted | lib/cache.js:18-24 | after prefix eviction no key starting with the prefix is left, and every other key keeps its value and expiry |
| Cache.WithPrefix | lib/cache.js:20 | the filter keeps exactly the keys that start with the prefix |
| Cache.NeverSetIsAbsent | lib/cache.js:6-8 | a key never set reads as absent |
| Cache.ExpiredStaysAbsent | lib/cache.js:6-8 | once an entry reads as absent it stays absent as time advances |
| Cache.LastWriteWins | lib/cache.js:10-12 | a second set on a key replaces the first completely, so there is one entry per key |
| Cache.DeleteOnlyThatKey | lib/cache.js:14-16 | deleting a key makes it absent, leaves every other key, and is a no-op on an absent key |
| Cache.EvictedLookup | lib/cache.js:19-23 | after eviction a read is absent exactly for keys with the prefix, and unchanged for the rest |
| Cache.EvictedIdempotent | lib/cache.js:20-22 | evicting the same prefix twice equals evicting it once |
| Cache.EvictedNoMatch | lib/cache.js:20-22 | when no key matches, eviction leaves the store unchanged |
| Cache.EvictedEmptyPrefix | lib/cache.js:20-22 | the empty prefix evicts every key |
| Cache.PrefixEvictionExample | lib/cache.js:20 | prefixes compare as strings: "posts_user_4" also evicts user 42's keys, while "posts_user_42" keeps user 99's keys |
| Cache.ResponseCache.constructor | lib/cache.js:4 | the cache starts empty |
| Cache.ResponseCache.Get | lib/cache.js:6-8 | a read answers the stored value exactly when the key is held and its entry is live; an expired entry it finds is deleted, so a later `Del` does not count it |
| Cache.ResponseCache.Set | lib/cache.js:10-12 | the new store is the old store with the key bound to the value and the deadline now + TTL (default 300) |
| Cache.ResponseCache.Del | lib/cache.js:14-16 | exactly the key is removed, and the reply counts the removed entries (1 or 0) |
| Cache.ResponseCache.Keys | lib/cache.js:19 | every held key is listed exactly once |
| Cache.ResponseCache.DelAll | lib/cache.js:22 | exactly the listed keys are removed, and the rest keep their entries |
| Cache.ResponseCache.ClearByPrefix | lib/cache.js:18-24 | the new store is the prefix eviction of the old store |
| Cache.ResponseCache.Flush | lib/cache.js:26-28 | afterwards every key reads as absent |
| Mongo.Pull | Controller/post.controller.js:183-189 | `$pull` removes every occurrence of the element and keeps every other element with its multiplicity |
| Mongo.PullAppend | Controller/post.controller.js:183-189 | `$pull` distributes over concatenation |
| Mongo.PullAbsent | Controller/post.controller.js:183-189 | `$pull` of an absent element changes nothing |
| Mongo.MirroredToggle | Controller/post.controller.js:152-189 | membership in the deciding list flips; the mirror list gains or loses its element accordingly; other members are untouched; a new member is appended at the end, and a removal is `$pull` on both lists |
| Mongo.MirroredToggleKeepsMirror | Controller/users.controller.js:40-51 | a toggle keeps the two lists in step when they were in step |
| Mongo.MirroredToggleTwice | Controller/post.controller.js:152-189 | two toggles restore membership in both lists, and restore both lists exactly when the first toggle appended |
| Strings.Trim | Controller/auth.controller.js:9 | `trim()` gives a string no longer than the input that neither starts nor ends with white space |
| Strings.TrimIsInfix | Controller/auth.controller.js:54 | `trim()` keeps a contiguous part of the input and drops only white space before and after it |
| Strings.TrimEmptyIffAllSpace | Controller/auth.controller.js:9 | `trim()` gives the empty string exactly when every character is white space |
| Strings.BlankIsFalsyTrim | Controller/auth.controller.js:9 | `Blank` (absent or all white space) holds exactly when `!x?.trim()` does |
| Strings.Truthy | Controller/post.controller.js:18 | a string is truthy exactly when present and non-empty, white space only included; "" and an absent value are falsy, and a falsy value is also blank |
| Strings.StartsWith | lib/cache.js:20 | `startsWith` holds exactly when the prefix fits and agrees with the string at every index |
| Strings.Split | Controller/post.controller.js:70 | `split` gives pieces free of the separator that join back to the input |
| Strings.FirstPart | Controller/post.controller.js:70 | `split(sep)[0]` is the longest separator-free prefix |
| Strings.LastPart | Controller/post.controller.js:70 | `split(sep).pop()` is the longest separator-free suffix |
| Strings.ImageId | Controller/post.controller.js:70 | the public id contains neither `/` nor `.` |
| Strings.ImageIdOfPath | Controller/post.controller.js:70 | for `dir/name.ext` the public id is `name` |
| Strings.ImageIdExample | Controller/post.controller.js:70 | the public id of "a/b/c.jpg" is "c" |
| Models.View | Controller/auth.controller.js:36 | a user sent in a reply carries no password, and every other field is the stored one |
| Models.Database.InsertNotification | Controller/post.controller.js:44 | saving a notification stores it under a fresh id and changes nothing else |
| PostController.FollowerNotifications | Controller/post.controller.js:35-46 | the fan-out of a new post occupies one fresh id per follower |
| PostController.FollowerNotificationsExact | Controller/post.controller.js:37-45 | the fan-out holds exactly one "post" notification per follower entry, from the author to that follower, about the new post |
| PostController.NotifyFollowers | Controller/post.controller.js:35-46 | the loop adds exactly the fan-out and advances the id counter by the number of followers |
| PostController.CreatePost | Controller/post.controller.js:15-46 | 400 with no change when the author is missing, or when both text and image are falsy; otherwise one new post with the uploaded image, the follower fan-out, and 201 |
| PostController.DeletePost | Controller/post.controller.js:63-73 | 404 for an unknown post and 401 for a non-author, with no change; otherwise exactly that post is removed and its image's public id is destroyed |
| PostController.CommentOnPost | Controller/post.controller.js:94-123 | 404 for a missing post and 400 for falsy text, with no change; otherwise exactly one comment is appended, and the owner gets a "comment" notification only when the commenter is someone else |
| PostController.LikeUnlike | Controller/post.controller.js:147-189 | 404 with no change for a missing post; otherwise the post's likes and the requester's liked posts toggle in step; a "like" notification goes to the owner only on like and only when the liker is someone else |
| PostController.LikeTwiceRestores | Controller/post.controller.js:146-189 | two like/unlike requests restore both memberships; after a like then an unlike both lists are exactly as before |
| PostController.GetLikedPosts | Controller/post.controller.js:244-250 | 404 without a requester, else exactly the posts whose ids the requester's liked posts hold |
| PostController.GetFollowingPosts | Controller/post.controller.js:262-268 | 404 without a requester, else exactly the posts by users the requester follows |
| PostController.GetUserPosts | Controller/post.controller.js:280-287 | 404 for an unknown user, else exactly that user's posts |
| UsersController.FollowUnFollowUser | Controller/users.controller.js:32-66 | 400 with no change when either user is missing or the target is the requester; follow appends to both lists, sends one "follow" notification and answers true; unfollow pulls from both lists, sends none and answers false |
| UsersController.FollowTwiceRestores | Controller/users.controller.js:40-66 | two follow/unfollow requests on another user restore both memberships; after a follow then an unfollow both lists are exactly as before and one "follow" notification remains |
| UsersController.NotFollowed | Controller/users.controller.js:90 | the filter keeps exactly the sampled users not followed, in sample order, each as many times as the sample holds it |
| UsersController.Suggest | Controller/users.controller.js:90-91 | the first min(4, n) of the n filtered candidates: at most four, in sample order, none followed; fewer than four only when every candidate is kept |
| UsersController.GetSuggestedUsers | Controller/users.controller.js:77-98 | 500 exactly when the requester has no document and the sample is not empty; otherwise the suggestions with their documents, each without a password, never the requester or anyone they follow |
| UsersController.WithoutPasswords | Controller/users.controller.js:92-94 | the same users in the same order, each with its password removed |
| UsersController.UpdatePassword | Controller/users.controller.js:150-179 | 400 unless both passwords are truthy, 400 for a new password under 6 characters, 400 when the old one does not match; only on success the stored hash becomes the hash of the new password |
| UsersController.DestroyedImage | Controller/users.controller.js:112-115 | for one picture field: one id, the one derived from the stored picture's URL, when a new picture is given and one is stored; otherwise none |
| UsersController.DestroyedProfileImages | Controller/users.controller.js:112-126 | a stored picture's public id is destroyed exactly when a new picture of that kind is given |
| NotificationController.AddressedTo | Controller/notification.controller.js:8 | exactly the notifications whose recipient is the requester |
| NotificationController.GetNotifications | Controller/notification.controller.js:6-14 | 404 without a requester, else exactly the notifications addressed to the requester |
| NotificationController.DeleteNotifications | Controller/notification.controller.js:23-31 | every notification addressed to the requester goes, every other one stays, and the reply is an empty list |
| NotificationController.DeleteOneNotification | Controller/notification.controller.js:36-59 | 404 for an unknown id and 403 when addressed to someone else, with no change; otherwise exactly that notification goes, and the reply is the requester's remaining notifications, which exclude it |
| AuthController.EmailTaken | Controller/auth.controller.js:18 | `findOne({ email })` finds a document exactly when the e-mail is one of the registered ones |
| AuthController.StoredHash | Controller/auth.controller.js:58 | login compares against the stored hash, or against the empty string when there is none |
| AuthController.NewUser | Controller/auth.controller.js:26-30 | a new user stores the given user name, e-mail and hash, and starts with empty follower, following and liked lists |
| AuthController.SignupError | Controller/auth.controller.js:9-21 | the validations in order: 400 "All fields are required" when a field is missing or blank, then "Password must be at least 6 characters long" under six untrimmed characters, then "User Already Exists" for a registered e-mail; the request passes exactly when none applies |
| AuthController.Signup | Controller/auth.controller.js:9-37 | a failed validation answers 400 with its message and changes nothing; otherwise exactly one new user under a fresh id, storing `hash(password)` and never the plain password, and 201 with the user without its password |
| AuthController.Login | Controller/auth.controller.js:54-64 | "Email and password are required" exactly when a field is missing or blank; every other failure, an unknown e-mail or a wrong password alike, is "Invalid email or password"; 200 only when a user with that e-mail matches the password, and then without the password; with one user per e-mail, 200 exactly when the password matches |

## Left out

- The node-cache `checkperiod` sweep (lib/cache.js:4) is timer-driven and is not modelled. Reads are the same without it. An expired entry that no read has found, however, stays in the model's store: `Keys` lists it and `Del` counts it, where the sweep could already have deleted it.
- Cache.ResponseCache.Set: TTLs are whole seconds, of either sign. A fractional TTL or a TTL given as a string, which node-cache also accepts, is not modelled.
- Cache.ResponseCache.Get: counts time in whole seconds and treats an entry as expired at its deadline. node-cache counts milliseconds and still answers at the deadline's exact millisecond.
- The cache's value cloning, hit/miss statistics and `maxKeys` limit belong to node-cache and are not modelled.
- No controller imports lib/cache.js, so this code never reads the cache or invalidates it on writes. The model invents no such wiring.
- The post model's `post("save")` hook (Models/post.model.js:36-54) is not modelled. It sends follower notifications again on every save, including the save in `commentOnPost`.
- `getAllPosts`, `getOnePost`, `getUsersProfile`, `getFollowing`, `getFollowers`, `logout` and `getMe` only read and reply, so they are not modelled.
- The field updates of `updateProfile` are not modelled. Only the choice of which old images it destroys is modelled (`UsersController.DestroyedProfileImages`).
- Replies list posts as a map keyed by id, so the `sort({ createdAt: -1 })` order and the `populate` expansion of references are not modelled.
- Failures of MongoDB, bcrypt or Cloudinary (the catch blocks that answer 500) are not modelled. Only the 500 replies that follow from a missing document or a missing requester are modelled.
- JWT issuing and checking (lib/genToken.js, MiddleWare/protectRoute.js) and cookies belong to foreign libraries and are not modelled. The authenticated requester is an input.
- Strings are sequences of characters. A JavaScript `length` counting UTF-16 code units is therefore not distinguished from a count of characters.
- Request fields are either absent or strings. A non-string body field, such as a number or an array, is not modelled.
- `$in` with a single id (Controller/notification.controller.js:8, Controller/notification.controller.js:51, Controller/post.controller.js:283) is modelled as equality with that id.
- Deleting a post leaves its id in users' liked posts and in notifications, as the source does. No lemma states anything about these dangling references.
- UsersController.FollowUnFollowUser: ids are numbers, so the model cannot express a route id spelled differently from its stored form, such as upper-case hex. The source looks the target up by its ObjectId but decides follow or unfollow by comparing `fid.toString()` with the raw route string (Controller/users.controller.js:40). An already-followed target whose id is spelled differently is therefore followed again in the source: a duplicate `$push` and a new "follow" notification. The model always unfollows it.
- UsersController.FollowUnFollowUser: the second test for a missing user (Controller/users.controller.js:53-55) cannot fire after the first, so the model has no branch for it.
- UsersController.GetSuggestedUsers: the sample's size of ten is not required. Any sample of users other than the requester is accepted.
- lib/db.js (connection memoisation), server.js, swagger.js, Routes/*.js, Validators/auth.validator.js and seed.js are wiring, configuration or data generation, so they are not modelled.
- Handlers are modelled one request at a time, each as one atomic step. In the source, every handler awaits between its reads and its writes, and no transaction wraps them. Interleaved requests can therefore push an id twice, leave a post's likes and the user's liked posts (or following and followers) out of step, or create two users with one e-mail (Controller/auth.controller.js:18-24). A unique index in the user schema could reject the second user, but that schema is not part of this model. `Mongo.MirroredToggleKeepsMirror`, `PostController.LikeTwiceRestores` and `UsersController.FollowTwiceRestores` hold only for requests that run one after another.
- Controller/notifiction.controller.js is an unused duplicate of the notification controller, so it is not modelled.
- Models/auth.model.js is not part of this model. The user record's fields follow their use in the controllers.
