/** The `ShortUrl` entity of Models/ShortUrl.cs and the user it points to. */
module Models {
  import opened Wrappers
  import ClickCounter

  /** An `ApplicationUser` as far as the mappers read it. */
  datatype AppUser = AppUser(id: string, userName: Option<string>)

  /** One stored short link.
      - `id` is assigned by the store (SQL Server identity column);
      - `createdDate` is `DateTime.UtcNow` at creation, as an opaque ordered
        timestamp;
      - `createdBy` is the navigation property, `None` when not loaded;
      - `clickCount` counts successful redirects. */
  datatype ShortUrl = ShortUrl(
    id: int,
    originalUrl: string,
    shortCode: string,
    createdDate: int,
    createdById: string,
    createdBy: Option<AppUser>,
    clickCount: nat)

  /** `new ShortUrl { OriginalUrl, ShortCode, CreatedById, CreatedDate }`
      before the store has saved it: the remaining properties keep their
      initialisers (`Id` 0, `ClickCount` 0, `CreatedBy` not loaded). */
  function NewShortUrl(originalUrl: string, shortCode: string, createdById: string, now: int): (e: ShortUrl)
    ensures e.clickCount == 0 && e.id == 0 && e.createdBy.None?
    ensures e.originalUrl == originalUrl && e.shortCode == shortCode
    ensures e.createdById == createdById && e.createdDate == now
  {
    ShortUrl(0, originalUrl, shortCode, now, createdById, None, 0)
  }

  /** The entity after one more click: only the counter moves. */
  function WithOneMoreClick(e: ShortUrl): (e': ShortUrl)
    ensures e'.clickCount == e.clickCount + 1
    ensures e'.(clickCount := e.clickCount) == e
  {
    e.(clickCount := ClickCounter.IncrementIntended(e.clickCount))
  }
}
