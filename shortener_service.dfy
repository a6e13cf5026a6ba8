/**
 * `URLShortenerService`: create, resolve, read, update and delete short
 * links over two stores, the `url` table keyed by its unique short code and
 * the append-only `url_stats` visit log, plus the sequence counter.
 *
 * `Instant.now()` is the parameter `now`, one instant per operation;
 * `InetAddress.getByName` is the parameter `isValidAddress`.
 */
module ShortenerService {
  import opened Common
  import opened Text
  import opened ShortCodeUtil
  import opened RequestUtil
  import opened UrlModel
  import opened UrlSequenceModel
  import opened SequenceServices

  // ---------------------------------------------------------------------
  // The visit log

  /** `findAllByUrlId`: the visits of one url, in log order. */
  function VisitsOf(log: seq<UrlStats>, urlId: int): (vs: seq<UrlStats>)
    ensures |vs| <= |log|
    ensures forall s :: s in vs ==> s in log && s.urlId == urlId
  {
    if log == [] then []
    else
      var last := log[|log| - 1];
      VisitsOf(log[..|log| - 1], urlId) + (if last.urlId == urlId then [last] else [])
  }

  /** The list query returns exactly the log's visits of that url. */
  lemma {:induction false} VisitsOfMembers(log: seq<UrlStats>, urlId: int)
    ensures forall s :: s in VisitsOf(log, urlId) <==> s in log && s.urlId == urlId
    decreases |log|
  {
    if log != [] {
      var front := log[..|log| - 1];
      VisitsOfMembers(front, urlId);
      assert log == front + [log[|log| - 1]];
    }
  }

  /** `countByUrlId`: how many visits of one url the log holds. */
  function CountByUrlId(log: seq<UrlStats>, urlId: int): nat {
    if log == [] then 0
    else CountByUrlId(log[..|log| - 1], urlId) + (if log[|log| - 1].urlId == urlId then 1 else 0)
  }

  /**
   * The list query keeps log order: the visits of a log split in two are
   * the visits of the first part followed by those of the second.
   */
  lemma {:induction false} VisitsOfAppend(a: seq<UrlStats>, b: seq<UrlStats>, urlId: int)
    ensures VisitsOf(a + b, urlId) == VisitsOf(a, urlId) + VisitsOf(b, urlId)
    decreases |b|
  {
    if b != [] {
      var front := b[..|b| - 1];
      assert (a + b)[..|a + b| - 1] == a + front;
      VisitsOfAppend(a, front, urlId);
    } else {
      assert a + b == a;
    }
  }

  /** The count query and the list query agree. */
  lemma {:induction false} CountIsVisits(log: seq<UrlStats>, urlId: int)
    ensures CountByUrlId(log, urlId) == |VisitsOf(log, urlId)|
    decreases |log|
  {
    if log != [] {
      CountIsVisits(log[..|log| - 1], urlId);
    }
  }

  /** Logging a visit adds one to its url's count and leaves every other url's count alone. */
  lemma CountAfterVisit(log: seq<UrlStats>, s: UrlStats, urlId: int)
    ensures CountByUrlId(log + [s], urlId) == CountByUrlId(log, urlId) + (if s.urlId == urlId then 1 else 0)
    ensures VisitsOf(log + [s], urlId) == VisitsOf(log, urlId) + (if s.urlId == urlId then [s] else [])
  {
    assert (log + [s])[..|log|] == log;
  }

  /** The log less one url's visits: the cascade of deleting that url. */
  function WithoutUrl(log: seq<UrlStats>, urlId: int): (rest: seq<UrlStats>)
    ensures |rest| <= |log|
    ensures forall s :: s in rest ==> s in log && s.urlId != urlId
  {
    if log == [] then []
    else
      var last := log[|log| - 1];
      WithoutUrl(log[..|log| - 1], urlId) + (if last.urlId != urlId then [last] else [])
  }

  /** The cascade keeps exactly the visits of the other urls. */
  lemma {:induction false} WithoutUrlMembers(log: seq<UrlStats>, urlId: int)
    ensures forall s :: s in WithoutUrl(log, urlId) <==> s in log && s.urlId != urlId
    decreases |log|
  {
    if log != [] {
      var front := log[..|log| - 1];
      WithoutUrlMembers(front, urlId);
      assert log == front + [log[|log| - 1]];
    }
  }

  /** The cascade keeps log order: it filters each part of a split log on its own. */
  lemma {:induction false} WithoutUrlAppend(a: seq<UrlStats>, b: seq<UrlStats>, urlId: int)
    ensures WithoutUrl(a + b, urlId) == WithoutUrl(a, urlId) + WithoutUrl(b, urlId)
    decreases |b|
  {
    if b != [] {
      var front := b[..|b| - 1];
      assert (a + b)[..|a + b| - 1] == a + front;
      WithoutUrlAppend(a, front, urlId);
    } else {
      assert a + b == a;
    }
  }

  /** After the cascade the deleted url has no visits, and every other url keeps its visits in order. */
  lemma {:induction false} VisitsWithoutUrl(log: seq<UrlStats>, deleted: int, other: int)
    ensures VisitsOf(WithoutUrl(log, deleted), other) == if other == deleted then [] else VisitsOf(log, other)
    decreases |log|
  {
    if log != [] {
      var front := log[..|log| - 1];
      var last := log[|log| - 1];
      var kept := WithoutUrl(front, deleted);
      VisitsWithoutUrl(front, deleted, other);
      if last.urlId != deleted {
        assert WithoutUrl(log, deleted) == kept + [last];
        CountAfterVisit(kept, last, other);
      } else {
        assert WithoutUrl(log, deleted) == kept + [] == kept;
        assert other != deleted ==> VisitsOf(log, other) == VisitsOf(front, other) + [] == VisitsOf(front, other);
      }
    }
  }

  // ---------------------------------------------------------------------
  // Pure rules of the pipelines

  /** `expiry.isBefore(now)`: strictly in the past, so an expiry equal to `now` is still accepted. */
  predicate IsPast(expiry: Option<Instant>, now: Instant) {
    expiry.Some? && IsBefore(expiry.value, now)
  }

  /** An access limit is set and the url already has at least that many visits. */
  predicate LimitReached(u: Url, visitCount: int) {
    u.accessLimit.Some? && visitCount >= u.accessLimit.value
  }

  /**
   * The custom-code branch of `validateAndGenerateShortCode`: the trimmed
   * code, refused when blank or already stored.
   */
  function CustomCode(code: string, existing: set<string>): (r: Result<string>)
    ensures r.Success? <==> !IsBlank(code) && Trim(code) !in existing
    ensures r.Success? ==> r.value == Trim(code) && r.value != [] && r.value !in existing
    ensures IsBlank(code) ==> r == Failure(RequestError(BlankCustomCode))
    ensures !IsBlank(code) && Trim(code) in existing ==> r == Failure(RequestError(ShortCodeExists))
  {
    var trimmed := Trim(code);
    if trimmed == [] then Failure(RequestError(BlankCustomCode))
    else if trimmed in existing then Failure(RequestError(ShortCodeExists))
    else Success(trimmed)
  }

  /**
   * The code `validateAndGenerateShortCode` settles on, given the counter
   * rows and the stored codes: the custom code when one is given, otherwise
   * the sequential code of counter row 1. It is never a stored code.
   */
  function ChosenCode(customShortCode: Option<string>, rows: map<int, int>, existing: set<string>): (r: Result<string>)
    ensures r.Success? ==> r.value !in existing
    ensures customShortCode.Some? ==> r == CustomCode(customShortCode.value, existing)
    ensures customShortCode.None? && CounterRowId !in rows ==> r == Failure(SequenceEntryNotFound)
    ensures customShortCode.None? && CounterRowId in rows && r.Success? ==> r == Encoding(rows[CounterRowId])
    ensures customShortCode.None? && CounterRowId in rows ==>
              r == SequentialCode(rows[CounterRowId], MaxAttempt, existing)
              && (r.Success? <==> Encoding(rows[CounterRowId]).Success? && Encoding(rows[CounterRowId]).value !in existing)
              && (Encoding(rows[CounterRowId]).Failure? ==> r == Encoding(rows[CounterRowId]))
              && (Encoding(rows[CounterRowId]).Success? && Encoding(rows[CounterRowId]).value in existing ==>
                    r == Failure(GenerationExhausted(MaxAttempt)))
  {
    match customShortCode
    case Some(code) => CustomCode(code, existing)
    case None =>
      if CounterRowId in rows then SequentialCode(rows[CounterRowId], MaxAttempt, existing)
      else Failure(SequenceEntryNotFound)
  }

  /** Counter rows after `validateAndGenerateShortCode`: advanced only on the sequential branch. */
  function RowsAfterChoice(customShortCode: Option<string>, rows: map<int, int>): map<int, int> {
    if customShortCode.None? && CounterRowId in rows then rows[CounterRowId := rows[CounterRowId] + 1] else rows
  }

  /** The record `shortenUrl` builds before the store assigns its id. */
  function Draft(code: string, request: UrlShortenRequest, now: Instant): (u: Url)
    ensures u.id == UnsavedId && u.shortCode == code
    ensures u.originalUrl == request.url && u.expiredAt == request.expiry && u.accessLimit == request.accessLimit
    ensures u.createdAt == now && u.updatedAt == now
  {
    Url(UnsavedId, code, request.url, now, now, request.expiry, request.accessLimit)
  }

  /**
   * The row the store holds after `updateByShortenCode`: id, code and
   * creation time kept, the other fields replaced by the request's (an
   * absent expiry or limit clears it).
   */
  function Revised(u: Url, request: UrlShortenRequest, now: Instant): (v: Url)
    ensures v.id == u.id && v.shortCode == u.shortCode && v.createdAt == u.createdAt
    ensures v.originalUrl == request.url && v.expiredAt == request.expiry && v.accessLimit == request.accessLimit
    ensures v.updatedAt == now
  {
    Url(u.id, u.shortCode, request.url, u.createdAt, now, request.expiry, request.accessLimit)
  }

  class UrlShortenerService {
    /** Table `url`, by short code. */
    var urls: map<string, Url>
    /** Table `url_stats`, in insertion order. */
    var visits: seq<UrlStats>
    /** Next values of the two identity columns. */
    var nextUrlId: int
    var nextStatsId: int
    const sequence: SequenceService

    /** Ids of the stored urls. */
    function UrlIds(): set<int>
      reads this
    {
      set c | c in urls :: urls[c].id
    }

    /**
     * The store's constraints: each row is filed under its own short code
     * (so codes are unique), ids are assigned and unique, and every visit
     * belongs to a stored url.
     */
    ghost predicate StoreValid()
      reads this
    {
      0 < nextUrlId && 0 < nextStatsId
      && (forall c :: c in urls ==> urls[c].shortCode == c && 0 < urls[c].id < nextUrlId)
      && (forall c, d :: c in urls && d in urls && urls[c].id == urls[d].id ==> c == d)
      && (forall s :: s in visits ==> s.urlId in UrlIds() && 0 < s.id < nextStatsId)
    }

    ghost predicate Valid()
      reads this, sequence
    {
      StoreValid() && sequence.Valid()
    }

    constructor (sequence: SequenceService)
      requires sequence.Valid()
      ensures Valid() && this.sequence == sequence
      ensures urls == map[] && visits == [] && nextUrlId == 1 && nextStatsId == 1
    {
      urls := map[];
      visits := [];
      nextUrlId := 1;
      nextStatsId := 1;
      this.sequence := sequence;
    }

    /** `validateAndGenerateShortCode`. */
    method ValidateAndGenerateShortCode(customShortCode: Option<string>) returns (r: Result<string>)
      requires Valid()
      modifies sequence
      ensures Valid()
      ensures r == ChosenCode(customShortCode, old(sequence.rows), urls.Keys)
      ensures sequence.rows == RowsAfterChoice(customShortCode, old(sequence.rows))
    {
      if customShortCode.Some? {
        var trimmedCode := Trim(customShortCode.value);
        if trimmedCode == [] {
          return Failure(RequestError(BlankCustomCode));
        }
        if trimmedCode in urls {
          return Failure(RequestError(ShortCodeExists));
        }
        return Success(trimmedCode);
      }
      var next := sequence.GetNext();
      assert StoreValid();
      if next.Failure? {
        return Failure(next.error);
      }
      r := GenerateSequentialShortCode(next.value, MaxAttempt, urls.Keys);
    }

    /**
     * `urlRepository.save` of a new entity: the identity column assigns the
     * next id and the row is filed under its code, which the table must not
     * hold yet (the unique constraint).
     */
    method InsertUrl(draft: Url) returns (saved: Url)
      requires Valid() && draft.shortCode !in urls
      modifies this
      ensures Valid()
      ensures saved == draft.(id := old(nextUrlId)) && urls == old(urls)[draft.shortCode := saved]
      ensures nextUrlId == old(nextUrlId) + 1
      ensures visits == old(visits) && nextStatsId == old(nextStatsId)
    {
      saved := draft.(id := nextUrlId);
      urls := urls[draft.shortCode := saved];
      nextUrlId := nextUrlId + 1;
      forall x | x in old(UrlIds())
        ensures x in UrlIds()
      {
        var c :| c in old(urls) && old(urls)[c].id == x;
        assert c in urls && urls[c].id == x;
      }
    }

    /**
     * `shortenUrl`: the code is settled first (consuming a counter value on
     * the sequential branch even when the request fails later), then a past
     * expiry is refused; on success exactly one row is inserted, under a
     * code the table did not hold, and its projection is returned.
     */
    method ShortenUrl(request: UrlShortenRequest, now: Instant) returns (r: Result<UrlShortenResponse>)
      requires Valid()
      modifies this, sequence
      ensures Valid()
      ensures visits == old(visits) && nextStatsId == old(nextStatsId)
      ensures sequence.rows == RowsAfterChoice(request.customShortCode, old(sequence.rows))
      ensures var code := ChosenCode(request.customShortCode, old(sequence.rows), old(urls).Keys);
              if code.Failure? then
                r == Failure(code.error) && urls == old(urls) && nextUrlId == old(nextUrlId)
              else if IsPast(request.expiry, now) then
                r == Failure(RequestError(InvalidExpiry)) && urls == old(urls) && nextUrlId == old(nextUrlId)
              else
                var stored := Draft(code.value, request, now).(id := old(nextUrlId));
                code.value !in old(urls)
                && urls == old(urls)[code.value := stored]
                && nextUrlId == old(nextUrlId) + 1
                && r == Success(ToResponseDto(stored))
    {
      var shortCode := ValidateAndGenerateShortCode(request.customShortCode);
      if shortCode.Failure? {
        return Failure(shortCode.error);
      }
      if request.expiry.Some? && IsBefore(request.expiry.value, now) {
        return Failure(RequestError(InvalidExpiry));
      }
      var url := Draft(shortCode.value, request, now);
      var saved := InsertUrl(url);
      r := Success(ToResponseDto(saved));
    }

    /** `urlStatsRepository.save` of a new visit: appended to the log under the next id. */
    method SaveVisit(stats: UrlStats)
      requires Valid() && stats.urlId in UrlIds()
      modifies this
      ensures Valid()
      ensures visits == old(visits) + [stats.(id := old(nextStatsId))] && nextStatsId == old(nextStatsId) + 1
      ensures urls == old(urls) && nextUrlId == old(nextUrlId)
    {
      visits := visits + [stats.(id := nextStatsId)];
      nextStatsId := nextStatsId + 1;
    }

    /**
     * The checks of `redirectToOriginalUrl`, in order: an unknown code, then
     * an expiry strictly before `now`, then an access limit the visit count
     * has reached. The url is returned when all pass.
     */
    function CheckRedirect(shortenCode: string, now: Instant): (r: Result<Url>)
      reads this
      ensures shortenCode !in urls ==> r == Failure(RequestError(InvalidShortCode))
      ensures shortenCode in urls && IsPast(urls[shortenCode].expiredAt, now)
              ==> r == Failure(RequestError(ShortCodeExpired))
      ensures shortenCode in urls && !IsPast(urls[shortenCode].expiredAt, now)
              && LimitReached(urls[shortenCode], |VisitsOf(visits, urls[shortenCode].id)|)
              ==> r == Failure(RequestError(AccessLimitExceeded))
      ensures r.Success? <==> shortenCode in urls && !IsPast(urls[shortenCode].expiredAt, now)
                              && !LimitReached(urls[shortenCode], |VisitsOf(visits, urls[shortenCode].id)|)
      ensures r.Success? ==> r.value == urls[shortenCode]
    {
      if shortenCode !in urls then Failure(RequestError(InvalidShortCode))
      else
        var url := urls[shortenCode];
        if IsPast(url.expiredAt, now) then Failure(RequestError(ShortCodeExpired))
        else
          CountIsVisits(visits, url.id);
          if LimitReached(url, CountByUrlId(visits, url.id)) then Failure(RequestError(AccessLimitExceeded))
          else Success(url)
    }

    /**
     * `redirectToOriginalUrl`: after the checks, one visit is logged for the
     * url and its target returned. Every failure, the missing User-Agent
     * header included, leaves the log as it was; the url table never changes.
     * A limited url never has more visits than its limit after a success.
     */
    method RedirectToOriginalUrl(shortenCode: string, request: ServletRequest, isValidAddress: string -> bool,
                                 now: Instant)
      returns (r: Result<string>)
      requires Valid()
      modifies this
      ensures Valid()
      ensures urls == old(urls) && nextUrlId == old(nextUrlId)
      ensures old(CheckRedirect(shortenCode, now)).Failure? ==>
                r == Failure(old(CheckRedirect(shortenCode, now)).error) && visits == old(visits)
      ensures old(CheckRedirect(shortenCode, now)).Success? && GetUserAgent(request).Failure? ==>
                r == Failure(MissingHeader(UserAgentHeader)) && visits == old(visits)
      ensures old(CheckRedirect(shortenCode, now)).Success? && GetUserAgent(request).Success? ==>
                var url := old(urls)[shortenCode];
                r == Success(url.originalUrl)
                && visits == old(visits) + [UrlStats(old(nextStatsId), url.id, GetClientIpSafe(request, isValidAddress),
                                                     Some(GetUserAgent(request).value), now)]
                && nextStatsId == old(nextStatsId) + 1
      ensures r.Failure? ==> visits == old(visits) && nextStatsId == old(nextStatsId)
      ensures r.Success? && old(urls)[shortenCode].accessLimit.Some? ==>
                |VisitsOf(visits, old(urls)[shortenCode].id)| <= old(urls)[shortenCode].accessLimit.value
    {
      if shortenCode !in urls {
        return Failure(RequestError(InvalidShortCode));
      }
      var url := urls[shortenCode];
      if url.expiredAt.Some? && IsBefore(url.expiredAt.value, now) {
        return Failure(RequestError(ShortCodeExpired));
      }
      CountIsVisits(visits, url.id);
      if url.accessLimit.Some? {
        var accessCount := CountByUrlId(visits, url.id);
        if accessCount >= url.accessLimit.value {
          return Failure(RequestError(AccessLimitExceeded));
        }
      }
      var ip := GetClientIpSafe(request, isValidAddress);
      var userAgent := GetUserAgent(request);
      if userAgent.Failure? {
        return Failure(userAgent.error);
      }
      var urlStats := UrlStats(UnsavedId, url.id, ip, Some(userAgent.value), now);
      assert url.id in UrlIds();
      SaveVisit(urlStats);
      CountAfterVisit(old(visits), urlStats.(id := old(nextStatsId)), url.id);
      r := Success(url.originalUrl);
    }

    /** `getUrlForShortCode`: the stored row's projection; the code itself is its short code. */
    function GetUrlForShortCode(shortenCode: string): (r: Result<UrlShortenResponse>)
      reads this
      ensures r.Success? <==> shortenCode in urls
      ensures r.Failure? ==> r.error == RequestError(InvalidShortCode)
      ensures r.Success? ==> r.value == ToResponseDto(urls[shortenCode])
      ensures StoreValid() && r.Success? ==> r.value.shortCode == shortenCode
    {
      if shortenCode in urls then Success(ToResponseDto(urls[shortenCode]))
      else Failure(RequestError(InvalidShortCode))
    }

    /**
     * `deleteByShortCode`: `deleteById` removes the one row with that id and
     * the cascade removes its visits; every other row and visit stays.
     */
    method DeleteByShortCode(shortenCode: string) returns (r: Result<()>)
      requires Valid()
      modifies this
      ensures Valid()
      ensures nextUrlId == old(nextUrlId) && nextStatsId == old(nextStatsId)
      ensures shortenCode !in old(urls) ==>
                r == Failure(RequestError(InvalidShortCode)) && urls == old(urls) && visits == old(visits)
      ensures shortenCode in old(urls) ==>
                r == Success(()) && urls == old(urls) - {shortenCode}
                && visits == WithoutUrl(old(visits), old(urls)[shortenCode].id)
    {
      if shortenCode !in urls {
        return Failure(RequestError(InvalidShortCode));
      }
      var id := urls[shortenCode].id;
      ghost var before := urls;
      urls := map c | c in urls && urls[c].id != id :: urls[c];
      assert urls == before - {shortenCode};
      WithoutUrlMembers(visits, id);
      visits := WithoutUrl(visits, id);
      forall s | s in visits
        ensures s.urlId in UrlIds()
      {
        var c :| c in before && before[c].id == s.urlId;
        assert c in urls;
      }
      r := Success(());
    }

    /**
     * `updateByShortenCode`: a request naming any custom code is refused
     * before the lookup; then an unknown code, then a past expiry. On success
     * the row keeps its id, code and creation time, and the response carries
     * the merged entity, whose creation time is the `now` the update built.
     * The saved entity's `stats` is empty, and merging it into the managed
     * row with orphan removal deletes every visit of that url, which also
     * resets the count the access limit is checked against.
     */
    method UpdateByShortenCode(shortenCode: string, request: UrlShortenRequest, now: Instant)
      returns (r: Result<UrlShortenResponse>)
      requires Valid()
      modifies this
      ensures Valid()
      ensures nextUrlId == old(nextUrlId) && nextStatsId == old(nextStatsId)
      ensures r.Failure? ==> urls == old(urls) && visits == old(visits)
      ensures request.customShortCode.Some? ==> r == Failure(RequestError(ShortCodeImmutable))
      ensures request.customShortCode.None? && shortenCode !in old(urls) ==>
                r == Failure(RequestError(InvalidShortCode))
      ensures request.customShortCode.None? && shortenCode in old(urls) && IsPast(request.expiry, now) ==>
                r == Failure(RequestError(InvalidExpiry))
      ensures request.customShortCode.None? && shortenCode in old(urls) && !IsPast(request.expiry, now) ==>
                var stored := Revised(old(urls)[shortenCode], request, now);
                urls == old(urls)[shortenCode := stored]
                && visits == WithoutUrl(old(visits), stored.id)
                && r == Success(ToResponseDto(stored.(createdAt := now)))
    {
      if request.customShortCode.Some? {
        return Failure(RequestError(ShortCodeImmutable));
      }
      if shortenCode !in urls {
        return Failure(RequestError(InvalidShortCode));
      }
      var url := urls[shortenCode];
      if request.expiry.Some? && IsBefore(request.expiry.value, now) {
        return Failure(RequestError(InvalidExpiry));
      }
      var updatedUrl := Url(url.id, url.shortCode, request.url, now, now, request.expiry, request.accessLimit);
      // save merges by id: `created_at` is not updatable, so the row keeps its old value
      urls := urls[shortenCode := updatedUrl.(createdAt := url.createdAt)];
      // merging the empty `stats` removes the url's visits as orphans
      visits := WithoutUrl(visits, url.id);
      forall x | x in old(UrlIds())
        ensures x in UrlIds()
      {
        var c :| c in old(urls) && old(urls)[c].id == x;
        assert c in urls && urls[c].id == x;
      }
      r := Success(ToResponseDto(updatedUrl));
    }

    /**
     * `getUrlStats`: the row's fields, its visits in log order, their number,
     * and what is left of the access limit (absent without a limit). The model
     * gives a negative remainder only for a limit below 1, which the request
     * validation would refuse; in the running service it can also stem from
     * concurrent redirects racing past the count, or from visits saved
     * directly through the repository.
     */
    function GetUrlStats(shortenCode: string): (r: Result<UrlStatsResponse>)
      reads this
      ensures r.Success? <==> shortenCode in urls
      ensures r.Failure? ==> r.error == RequestError(InvalidShortCode)
      ensures r.Success? ==>
                var url := urls[shortenCode];
                var count := CountByUrlId(visits, url.id);
                var listed := VisitsOf(visits, url.id);
                r.value.shortCode == url.shortCode && r.value.originalUrl == url.originalUrl
                && r.value.createdAt == url.createdAt && r.value.updatedAt == Some(url.updatedAt)
                && r.value.expiredAt == url.expiredAt && r.value.accessLimit == url.accessLimit
                && r.value.totalVisits == count && |r.value.details| == |listed| == count
                && (forall i :: 0 <= i < |listed| ==> r.value.details[i] == ToVisitStats(listed[i]))
                && r.value.remainingVisits == (if url.accessLimit.Some? then Some(url.accessLimit.value - count) else None)
    {
      if shortenCode !in urls then Failure(RequestError(InvalidShortCode))
      else
        var url := urls[shortenCode];
        var urlStatsList := VisitsOf(visits, url.id);
        var visitStatsList := seq(|urlStatsList|, i requires 0 <= i < |urlStatsList| => ToVisitStats(urlStatsList[i]));
        CountIsVisits(visits, url.id);
        Success(UrlStatsResponse(
          url.shortCode, url.originalUrl, url.createdAt, Some(url.updatedAt), url.expiredAt, url.accessLimit,
          |visitStatsList|,
          if url.accessLimit.Some? then Some(url.accessLimit.value - |visitStatsList|) else None,
          visitStatsList))
    }
  }
}
