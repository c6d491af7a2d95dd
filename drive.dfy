/**
 * The Microsoft Graph drive as the vault routes see it: each `children` request
 * for a folder answers with its items, with a non-2xx status, or throws.
 */
module Drive {
  import opened Wrappers

  /**
   * One `driveItem`. `folder` and `file` say whether the item carries the folder
   * or the file facet; `lastModified` is `lastModifiedDateTime` in milliseconds
   * since the epoch; `parentPath` is `parentReference.path`.
   */
  datatype DriveItem = DriveItem(
    id: string,
    name: string,
    folder: bool,
    file: bool,
    lastModified: int,
    parentPath: Option<string>)

  /**
   * The answer to one `children` request: the request throws, returns a non-2xx
   * status, or returns the items (`data.value || []`, so a missing list is empty).
   */
  datatype Listing = ListingThrows | ListingNotOk(status: int) | Listed(entries: seq<Entry>)

  /** An item together with the answer a `children` request on it would get. */
  datatype Entry = Entry(item: DriveItem, children: Listing)
}
