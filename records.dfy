/**
 * The document stored in the "tracked" collection: one user watching one
 * marketplace item (src/interfaces/ITracking.ts). Mongo's `_id` is not modelled.
 */
module Records {
  import opened Wrappers

  /** The snapshot of the last alert sent for a record. */
  datatype Notification = Notification(price: int, mapCoords: string)

  datatype Tracking = Tracking(
    id: int,                               // marketplace item id
    itemName: Option<string>,              // filled in lazily by the polling loop
    uuid: string,                          // Discord user id of the watcher
    wantedPrice: int,                      // alert threshold
    lastNotification: Option<Notification> // used to suppress repeated alerts
  )
}
