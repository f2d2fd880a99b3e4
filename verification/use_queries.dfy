/**
 * The query and mutation hooks of the front end (src/frontend/src/hooks/useQueries.ts):
 * the list query over the `['videos']` key, gated on the actor, and the upload
 * mutation that writes one record through the actor and, on success only,
 * invalidates the `['videos']` cache entry.
 *
 * The backend actor is a possibly-absent handle; the backend's video list is a
 * sequence of records; the query cache is a map from query keys to entries that
 * carry the cached list and a stale flag. Whether a remote call reaches the
 * backend is a parameter (`reachable`), and the wall clock is a parameter
 * (`clockMs`, the value `Date.now()` would return).
 */
module UseQueries {
  import opened Wrappers
  import JsNumber

  /** An `ExternalBlob` built from the bytes of a local file. */
  datatype Blob = FromBytes(bytes: seq<bv8>)

  /** One gallery record as the backend stores it; `uploadDate` is in nanoseconds. */
  datatype VideoMetadata = VideoMetadata(title: string, uploadDate: int, video: Blob, fileSize: int)

  /** A live connection to the backend. */
  datatype ActorHandle = ActorHandle(id: string)

  /** What `useActor()` reports: the actor, if any, and whether it is still being created. */
  datatype ActorState = ActorState(actor: Option<ActorHandle>, isFetching: bool)

  datatype QueryError =
    | ActorNotInitialized  // `throw new Error('Actor not initialized')`
    | Transport            // the remote call failed

  type QueryKey = seq<string>

  /** The key the list query caches under and the key the mutation invalidates. */
  const VideosKey: QueryKey := ["videos"]

  /**
   * An invalidation filter selects every cached key it is a prefix of
   * (react-query's partial key match on array keys).
   */
  predicate KeyMatches(filter: QueryKey, key: QueryKey) {
    |filter| <= |key| && key[..|filter|] == filter
  }

  /** The `['videos']` filter of `onSuccess` selects the list query's key and only keys under it. */
  lemma InvalidationTargetsListKey(key: QueryKey)
    ensures KeyMatches(VideosKey, VideosKey)
    ensures KeyMatches(VideosKey, key) <==> |key| >= 1 && key[0] == "videos"
  {
    if |key| >= 1 && key[0] == "videos" {
      assert key[..1] == [key[0]];
    }
  }

  // ---------------------------------------------------------------------
  // useListVideos

  /** `enabled: !!actor && !isFetching`. */
  predicate ListEnabled(s: ActorState): (r: bool)
    ensures r ==> s.actor.Some?
    ensures s.isFetching ==> !r
  {
    s.actor.Some? && !s.isFetching
  }

  /**
   * `queryFn`: no actor gives the empty list; otherwise the result of
   * `actor.listVideos()`, which is the whole backend list when the call goes through.
   */
  function ListVideosFn(actor: Option<ActorHandle>, store: seq<VideoMetadata>, reachable: bool)
    : (r: Result<seq<VideoMetadata>, QueryError>)
    ensures actor.None? ==> r == Success([])
    ensures actor.Some? ==> (r.Success? <==> reachable)
    ensures actor.Some? && r.Success? ==> r.value == store
    ensures r.Failure? ==> r.error == Transport
  {
    match actor
    case None => Success([])
    case Some(_) => if reachable then Success(store) else Failure(Transport)
  }

  /**
   * An enabled list query never takes the no-actor fallback: when it runs and
   * the call goes through, it yields the backend's list verbatim, and it can
   * fail only in transport.
   */
  lemma EnabledQueryReadsStore(s: ActorState, store: seq<VideoMetadata>, reachable: bool)
    requires ListEnabled(s)
    ensures ListVideosFn(s.actor, store, reachable) == (if reachable then Success(store) else Failure(Transport))
    ensures reachable && store != [] ==> ListVideosFn(s.actor, store, reachable) != ListVideosFn(None, store, reachable)
  {
  }

  // ---------------------------------------------------------------------
  // Upload date

  /**
   * `BigInt(Date.now() * 1_000_000)` as written: both operands are JavaScript
   * numbers, so the product is rounded to binary64 before `BigInt` sees it.
   */
  function UploadDateAsWritten(clockMs: nat): (ns: nat)
    ensures exists q: nat :: ns == q * JsNumber.Ulp(clockMs * 1_000_000)
    ensures ns <= clockMs * 1_000_000 + JsNumber.Ulp(clockMs * 1_000_000) / 2
    ensures clockMs * 1_000_000 - JsNumber.Ulp(clockMs * 1_000_000) / 2 <= ns
    ensures clockMs * 1_000_000 < JsNumber.Pow2(JsNumber.SignificandBits) ==> ns == clockMs * 1_000_000
  {
    JsNumber.RoundToDouble(clockMs * 1_000_000)
  }

  lemma Pow2Of20()
    ensures JsNumber.Pow2(20) == 1048576
  {
    assert JsNumber.Pow2(5) == 32;
    JsNumber.Pow2Add(5, 5);
    JsNumber.Pow2Add(10, 10);
  }

  lemma Pow2Of60()
    ensures JsNumber.Pow2(60) == 1152921504606846976
    ensures JsNumber.Pow2(61) == 2305843009213693952
  {
    Pow2Of20();
    JsNumber.Pow2Add(20, 20);
    JsNumber.Pow2Add(40, 20);
  }

  /**
   * For the clock reading 1760000000001 ms (October 2025) the as-written upload
   * date is 1760000000000999936 ns, 64 ns short of the intended value, and
   * converting it back to milliseconds gives the previous millisecond.
   */
  lemma UploadDateAsWrittenRoundsOff()
    ensures UploadDateAsWritten(1760000000001) == 1760000000000999936
    ensures UploadDateAsWritten(1760000000001) != 1760000000001 * 1_000_000
    ensures UploadDateAsWritten(1760000000001) / 1_000_000 != 1760000000001
  {
    var x: nat := 1760000000001 * 1_000_000;
    UlpNear1760e15();
    assert x / 256 == 6875000000003906 && x % 256 == 64;
  }

  /** Around 1.76e18 consecutive binary64 values are 256 apart. */
  lemma UlpNear1760e15()
    ensures JsNumber.Ulp(1760000000001000000) == 256
  {
    var x: nat := 1760000000001000000;
    Pow2Of60();
    JsNumber.ExponentUnique(x, 60);
    JsNumber.Pow2Monotone(53, 60);
    assert JsNumber.Pow2(8) == 256;
  }

  /**
   * The upload date the model uses: the clock reading converted exactly to
   * nanoseconds (`BigInt(Date.now()) * 1_000_000n`). Converting back to
   * milliseconds recovers the clock reading.
   */
  function UploadDateNs(clockMs: nat): (ns: nat)
    ensures ns / 1_000_000 == clockMs && ns % 1_000_000 == 0
  {
    clockMs * 1_000_000
  }

  /** Later clock readings give strictly later upload dates. */
  lemma UploadDateNsMonotone(a: nat, b: nat)
    requires a < b
    ensures UploadDateNs(a) < UploadDateNs(b)
  {
  }

  // ---------------------------------------------------------------------
  // Query cache

  /** A cached query result and whether it has been invalidated since it was fetched. */
  datatype CacheEntry = CacheEntry(data: seq<VideoMetadata>, stale: bool)

  /**
   * The cache after `invalidateQueries({ queryKey: filter })`: every entry the
   * filter selects is marked stale; no cached data is dropped or changed and no
   * key is added or removed.
   */
  function MarkStale(cache: map<QueryKey, CacheEntry>, filter: QueryKey): (r: map<QueryKey, CacheEntry>)
    ensures r.Keys == cache.Keys
    ensures forall k :: k in r ==> r[k].data == cache[k].data
    ensures forall k :: k in r ==> r[k].stale == (cache[k].stale || KeyMatches(filter, k))
  {
    map k | k in cache :: if KeyMatches(filter, k) then cache[k].(stale := true) else cache[k]
  }

  /** A refetch of key is due: nothing is cached, or the entry has been invalidated. */
  predicate MustFetch(cache: map<QueryKey, CacheEntry>, key: QueryKey) {
    key !in cache || cache[key].stale
  }

  /**
   * The session's view of the backend through the two hooks: the actor as
   * `useActor()` reports it, the backend's list, every `uploadVideo` call issued,
   * and the react-query cache.
   */
  class QueryClient {
    var actorState: ActorState
    /** The backend's list of videos, what `listVideos()` returns. */
    var store: seq<VideoMetadata>
    /** Every `uploadVideo` call issued, in order, whether or not it went through. */
    var writes: seq<VideoMetadata>
    var cache: map<QueryKey, CacheEntry>

    /**
     * The list query is the only query, and the cache never runs ahead of the
     * backend: the cached list is a prefix of the backend's list (the backend is
     * taken to list videos in upload order), and an entry that is not stale is
     * the whole list.
     */
    ghost predicate Valid()
      reads this
    {
      cache.Keys <= {VideosKey} &&
      (VideosKey in cache ==> cache[VideosKey].data <= store) &&
      (VideosKey in cache && !cache[VideosKey].stale ==> cache[VideosKey].data == store)
    }

    constructor (actorState: ActorState, store: seq<VideoMetadata>)
      ensures Valid()
      ensures this.actorState == actorState && this.store == store
      ensures writes == [] && cache == map[]
    {
      this.actorState := actorState;
      this.store := store;
      writes := [];
      cache := map[];
    }

    /** `useActor()` reports a new state (the actor is created, or starts or stops fetching). */
    method SetActorState(s: ActorState)
      requires Valid()
      modifies this`actorState
      ensures Valid() && actorState == s
    {
      actorState := s;
    }

    /** An entry that has not been invalidated holds exactly the backend's list. */
    lemma FreshEntryIsCurrent()
      requires Valid()
      ensures !MustFetch(cache, VideosKey) ==> cache[VideosKey].data == store
      ensures MustFetch(cache, VideosKey) && VideosKey in cache ==> cache[VideosKey].data <= store
    {
    }

    /**
     * One run of the list query. A disabled query does nothing and returns
     * None. An enabled one runs `queryFn`; on success the cache entry is
     * replaced by the fetched list (replacing, not merging) and is fresh; on
     * failure the previous entry stays as it was.
     */
    method FetchVideos(reachable: bool) returns (r: Option<Result<seq<VideoMetadata>, QueryError>>)
      requires Valid()
      modifies this`cache
      ensures Valid()
      ensures !ListEnabled(actorState) ==> r == None && cache == old(cache)
      ensures ListEnabled(actorState) ==> r == Some(ListVideosFn(actorState.actor, store, reachable))
      ensures ListEnabled(actorState) && reachable ==> cache == old(cache)[VideosKey := CacheEntry(store, false)]
      ensures !reachable ==> cache == old(cache)
    {
      if !ListEnabled(actorState) {
        return None;
      }
      var result := ListVideosFn(actorState.actor, store, reachable);
      if result.Success? {
        EnabledQueryReadsStore(actorState, store, reachable);
        cache := cache[VideosKey := CacheEntry(result.value, false)];
      }
      r := Some(result);
    }

    /** `queryClient.invalidateQueries({ queryKey: filter })`. */
    method InvalidateQueries(filter: QueryKey)
      requires Valid()
      modifies this`cache
      ensures Valid()
      ensures cache == MarkStale(old(cache), filter)
    {
      cache := MarkStale(cache, filter);
    }

    /**
     * `mutateAsync` of the upload mutation: with no actor it rejects before any
     * remote call; otherwise it issues exactly one `uploadVideo` call with the
     * given title, blob and size and the upload date in nanoseconds. When that
     * call goes through, the backend list gains that one record and `onSuccess`
     * marks `['videos']` stale; when it fails, the backend and the cache are as
     * they were.
     */
    method UploadVideo(title: string, videoBlob: Blob, fileSize: int, clockMs: nat, reachable: bool)
      returns (r: Result<(), QueryError>)
      requires Valid()
      modifies this`store, this`writes, this`cache
      ensures Valid()
      ensures actorState.actor.None? ==>
        r == Failure(ActorNotInitialized) && writes == old(writes) && store == old(store) && cache == old(cache)
      ensures actorState.actor.Some? ==>
        writes == old(writes) + [VideoMetadata(title, UploadDateNs(clockMs), videoBlob, fileSize)]
      ensures actorState.actor.Some? && reachable ==>
        r == Success(()) &&
        store == old(store) + [VideoMetadata(title, UploadDateNs(clockMs), videoBlob, fileSize)] &&
        cache == MarkStale(old(cache), VideosKey) && MustFetch(cache, VideosKey)
      ensures actorState.actor.Some? && !reachable ==>
        r == Failure(Transport) && store == old(store) && cache == old(cache)
    {
      if actorState.actor.None? {
        return Failure(ActorNotInitialized);
      }
      var uploadDate := UploadDateNs(clockMs);
      var record := VideoMetadata(title, uploadDate, videoBlob, fileSize);
      writes := writes + [record];
      if !reachable {
        return Failure(Transport);
      }
      store := store + [record];
      // onSuccess
      cache := MarkStale(cache, VideosKey);
      r := Success(());
    }
  }
}
