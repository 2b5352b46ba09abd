/** The notification handlers: list, delete all, delete one. */
module NotificationController {
  import opened Wrappers
  import opened Mongo
  import opened Models

  const UserNotFound := "User not found"
  const DeleteAllError := "Error in delete notifications"
  const NotificationNotFound := "Notification not found"
  const NotAuthorized := "Not authorized"
  const DeleteOneError := "Error in deleting one notification"

  /** `Notification.find({ to: me })`: exactly the notifications addressed to `me`. */
  function AddressedTo(ns: map<Id, Notification>, me: Id): (r: map<Id, Notification>)
    ensures forall id :: id in r <==> id in ns && ns[id].to == me
    ensures forall id :: id in r ==> r[id] == ns[id]
  {
    map id | id in ns && ns[id].to == me :: ns[id]
  }

  /** `getNotifications`: 404 without a requester, else the requester's notifications. */
  function GetNotifications(db: Database, me: Option<Id>): (r: Reply<map<Id, Notification>>)
    reads db
    ensures me.None? ==> r == NotFound(UserNotFound)
    ensures me.Some? ==> r.Ok? && r.body == AddressedTo(db.notifications, me.value)
  {
    if me.None? then NotFound(UserNotFound) else Ok(AddressedTo(db.notifications, me.value))
  }

  /**
   * `deleteNotifications`: every notification addressed to the requester
   * goes, every other one stays, and the reply is an empty list. Without a
   * requester, reading its id throws (500).
   */
  method DeleteNotifications(db: Database, me: Option<Id>) returns (res: Reply<seq<Notification>>)
    requires db.Valid()
    modifies db
    ensures db.Valid()
    ensures me.None? ==> res == ServerError(DeleteAllError) && unchanged(db)
    ensures me.Some? ==>
              && (forall id :: id in db.notifications <==> id in old(db.notifications) && old(db.notifications[id]).to != me.value)
              && (forall id :: id in db.notifications ==> db.notifications[id] == old(db.notifications[id]))
              && AddressedTo(db.notifications, me.value) == map[]
              && db.users == old(db.users) && db.posts == old(db.posts) && db.nextId == old(db.nextId)
              && res == Ok([])
  {
    if me.None? {
      return ServerError(DeleteAllError);
    }
    var m := me.value;
    db.notifications := map id | id in db.notifications && db.notifications[id].to != m :: db.notifications[id];
    res := Ok([]);
  }

  /**
   * `deleteOneNotification`: 404 for an unknown notification, 403 when it is
   * addressed to someone else; otherwise exactly that notification goes and
   * the reply lists the requester's remaining notifications.
   */
  method DeleteOneNotification(db: Database, me: Option<Id>, notificationId: Id) returns (res: Reply<map<Id, Notification>>)
    requires db.Valid()
    modifies db
    ensures db.Valid()
    ensures notificationId !in old(db.notifications) ==> res == NotFound(NotificationNotFound) && unchanged(db)
    ensures notificationId in old(db.notifications) && me.None? ==> res == ServerError(DeleteOneError) && unchanged(db)
    ensures notificationId in old(db.notifications) && me.Some? && old(db.notifications[notificationId]).to != me.value ==>
              res == Forbidden(NotAuthorized) && unchanged(db)
    ensures notificationId in old(db.notifications) && me.Some? && old(db.notifications[notificationId]).to == me.value ==>
              && db.notifications == old(db.notifications) - {notificationId}
              && db.users == old(db.users) && db.posts == old(db.posts) && db.nextId == old(db.nextId)
              && res.Ok?
              && res.body == AddressedTo(old(db.notifications), me.value) - {notificationId}
              && notificationId !in res.body
  {
    if notificationId !in db.notifications {
      return NotFound(NotificationNotFound);
    }
    var notification := db.notifications[notificationId];
    if me.None? {
      return ServerError(DeleteOneError);
    }
    if notification.to != me.value {
      return Forbidden(NotAuthorized);
    }
    db.notifications := db.notifications - {notificationId};
    res := Ok(AddressedTo(db.notifications, me.value));
  }
}
