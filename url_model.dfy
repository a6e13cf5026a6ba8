/**
 * The records of the core: the `Url` row, the `UrlStats` visit row, the
 * request body and the two response bodies, with `Url.toResponseDto`.
 */
module UrlModel {
  import opened Common

  /** `id` of an entity the store has not saved yet; the identity column assigns the real one. */
  const UnsavedId: int := 0

  /**
   * A row of table `url`. `shortCode` is unique across the table and
   * `createdAt` is not updatable; the store keeps both (see URLShortenerService).
   * The lazily loaded `stats` collection is the visit log, kept by the service.
   */
  datatype Url = Url(
    id: int,
    shortCode: string,
    originalUrl: string,
    createdAt: Instant,
    updatedAt: Instant,
    expiredAt: Option<Instant>,
    accessLimit: Option<int>)

  /** A row of table `url_stats`: one resolved visit. */
  datatype UrlStats = UrlStats(
    id: int,
    urlId: int,
    ipAccessFrom: Option<string>,
    userAgent: Option<string>,
    accessedAt: Instant)

  /** Body of the create and update requests. */
  datatype UrlShortenRequest = UrlShortenRequest(
    url: string,
    customShortCode: Option<string>,
    accessLimit: Option<int>,
    expiry: Option<Instant>)

  /** `UrlShortenResponse`. */
  datatype UrlShortenResponse = UrlShortenResponse(
    id: int,
    shortCode: string,
    originalUrl: string,
    createdAt: Instant,
    updatedAt: Option<Instant>,
    expiredAt: Option<Instant>,
    accessLimit: Option<int>)

  /** `UrlStatsResponse.VisitStats`. */
  datatype VisitStats = VisitStats(accessedAt: Instant, ipAccessFrom: Option<string>, userAgent: Option<string>)

  /** `UrlStatsResponse`; the core always fills `totalVisits` and `details`. */
  datatype UrlStatsResponse = UrlStatsResponse(
    shortCode: string,
    originalUrl: string,
    createdAt: Instant,
    updatedAt: Option<Instant>,
    expiredAt: Option<Instant>,
    accessLimit: Option<int>,
    totalVisits: int,
    remainingVisits: Option<int>,
    details: seq<VisitStats>)

  /** `toResponseDto`: the seven stored fields, copied unchanged. */
  function ToResponseDto(u: Url): (d: UrlShortenResponse)
    ensures d.id == u.id && d.shortCode == u.shortCode && d.originalUrl == u.originalUrl
    ensures d.createdAt == u.createdAt && d.updatedAt == Some(u.updatedAt)
    ensures d.expiredAt == u.expiredAt && d.accessLimit == u.accessLimit
  {
    UrlShortenResponse(u.id, u.shortCode, u.originalUrl, u.createdAt, Some(u.updatedAt), u.expiredAt, u.accessLimit)
  }

  /** The record read back from its projection. */
  function FromResponseDto(d: UrlShortenResponse): (u: Url)
    requires d.updatedAt.Some?
    ensures ToResponseDto(u) == d
  {
    Url(d.id, d.shortCode, d.originalUrl, d.createdAt, d.updatedAt.value, d.expiredAt, d.accessLimit)
  }

  /** The projection loses nothing: a record is recovered from its response. */
  lemma ResponseDtoRoundTrip(u: Url)
    ensures ToResponseDto(u).updatedAt.Some? && FromResponseDto(ToResponseDto(u)) == u
  {
  }

  /** A visit row as it appears in the stats response. */
  function ToVisitStats(s: UrlStats): (v: VisitStats)
    ensures v.accessedAt == s.accessedAt && v.ipAccessFrom == s.ipAccessFrom && v.userAgent == s.userAgent
  {
    VisitStats(s.accessedAt, s.ipAccessFrom, s.userAgent)
  }
}
