/**
 * Cache bookkeeping stored under the reserved `cache` key of an asset's
 * attribute tree, and the staleness question asked of it.
 */
module CacheState {
  import opened Wrappers
  import opened AttributeTree

  /** Reserved attribute key that holds the cache sub-map. */
  const CACHE := "cache"
  /** Key of the last-verified time inside the cache sub-map. */
  const LAST_VERIFIED := "last_verified"
  /** Key of the cache token inside the cache sub-map. */
  const CACHE_TOKEN := "cache_token"
  /** Sentinel token written when the cached content is invalidated. */
  const INVALIDATED := "invalidated"

  /** When the cached content was last verified, and its optional cache token. */
  datatype CacheInfo = CacheInfo(lastVerified: int, cacheToken: Option<string>)

  /** The cache sub-map that records `info`; an absent token is not written. */
  function ToMap(info: CacheInfo): (m: Attributes)
    ensures LAST_VERIFIED in m && m[LAST_VERIFIED] == Time(info.lastVerified)
    ensures CACHE_TOKEN in m <==> info.cacheToken.Some?
    ensures info.cacheToken.Some? ==> m[CACHE_TOKEN] == Text(info.cacheToken.value)
  {
    var base := map[LAST_VERIFIED := Time(info.lastVerified)];
    match info.cacheToken
    case Some(token) => base[CACHE_TOKEN := Text(token)]
    case None => base
  }

  /**
   * Reads a cache sub-map back: no cache info unless a last-verified time is
   * present; a token that is missing or not a string reads as absent.
   */
  function FromMap(m: Attributes): (r: Option<CacheInfo>)
    ensures r.Some? <==> LAST_VERIFIED in m && m[LAST_VERIFIED].Time?
    ensures r.Some? ==> r.value.lastVerified == m[LAST_VERIFIED].t
  {
    if LAST_VERIFIED in m && m[LAST_VERIFIED].Time? then
      var token := if CACHE_TOKEN in m && m[CACHE_TOKEN].Text? then Some(m[CACHE_TOKEN].s) else None;
      Some(CacheInfo(m[LAST_VERIFIED].t, token))
    else
      None
  }

  /** Writing cache info and reading it back gives the same cache info. */
  lemma FromMapToMap(info: CacheInfo)
    ensures FromMap(ToMap(info)) == Some(info)
  {
  }

  /** The cache info recorded in an attribute tree, if any. */
  function CachedInfo(attrs: Attributes): Option<CacheInfo>
  {
    FromMap(Child(attrs, CACHE))
  }

  /**
   * An asset is stale when it carries cache info and the controller judges
   * that info stale; an asset that was never cached is not stale.
   */
  function IsStale(attrs: Attributes, controller: CacheInfo -> bool): (r: bool)
    ensures CachedInfo(attrs).None? ==> !r
    ensures CachedInfo(attrs).Some? ==> (r <==> controller(CachedInfo(attrs).value))
  {
    match CachedInfo(attrs)
    case None => false
    case Some(info) => controller(info)
  }

  /** The attribute change behind `markAsCached`: SET the whole cache sub-map. */
  function MarkCachedChange(attrs: Attributes, info: CacheInfo): Update
  {
    ApplyAttributeChange(attrs, SET, CACHE, Dict(ToMap(info))).value
  }

  /** The attribute change behind `markAsStale`: OVERLAY the invalidated token. */
  function MarkStaleChange(attrs: Attributes): Update
  {
    ApplyAttributeChange(attrs, OVERLAY, CACHE, Dict(map[CACHE_TOKEN := Text(INVALIDATED)])).value
  }

  /**
   * `markAsCached` replaces the cache sub-map wholesale: afterwards it is
   * exactly the map of `info`, whatever it held before, and no other
   * attribute changes.
   */
  lemma MarkCachedReplacesSubMap(attrs: Attributes, info: CacheInfo)
    ensures var after := MarkCachedChange(attrs, info).attributes;
            Child(after, CACHE) == ToMap(info) &&
            after.Keys == attrs.Keys + {CACHE} &&
            forall k :: k in attrs && k != CACHE ==> after[k] == attrs[k]
  {
  }

  /** Right after `markAsCached(info)` the staleness verdict is the controller's verdict on `info`. */
  lemma MarkCachedThenIsStale(attrs: Attributes, info: CacheInfo, controller: CacheInfo -> bool)
    ensures IsStale(MarkCachedChange(attrs, info).attributes, controller) == controller(info)
  {
    FromMapToMap(info);
  }

  /**
   * `markAsStale` overlays the token: the cache sub-map afterwards holds the
   * invalidated sentinel under the token key and keeps every other key it
   * had, and attributes outside the cache sub-map do not change.
   */
  lemma MarkStaleOverlaysToken(attrs: Attributes)
    ensures var after := MarkStaleChange(attrs).attributes;
            var sub := Child(after, CACHE);
            sub.Keys == Child(attrs, CACHE).Keys + {CACHE_TOKEN} &&
            sub[CACHE_TOKEN] == Text(INVALIDATED) &&
            (forall k :: k in Child(attrs, CACHE) && k != CACHE_TOKEN ==> sub[k] == Child(attrs, CACHE)[k]) &&
            forall k :: k in attrs && k != CACHE ==> after[k] == attrs[k]
  {
  }

  /**
   * After `markAsStale`, an asset that had cache info still has it, with the
   * same last-verified time and the invalidated sentinel as its token; so it
   * is stale under every controller that judges an invalidated token stale.
   */
  lemma MarkStaleThenIsStale(attrs: Attributes, controller: CacheInfo -> bool)
    requires CachedInfo(attrs).Some?
    ensures CachedInfo(MarkStaleChange(attrs).attributes)
            == Some(CachedInfo(attrs).value.(cacheToken := Some(INVALIDATED)))
    ensures (forall i: CacheInfo :: i.cacheToken == Some(INVALIDATED) ==> controller(i)) ==>
            IsStale(MarkStaleChange(attrs).attributes, controller)
  {
    MarkStaleOverlaysToken(attrs);
  }

  /**
   * `markAsStale` on an asset that was never cached writes only the token,
   * no last-verified time, so the asset still has no cache info and is not
   * stale, whatever the controller.
   */
  lemma MarkStaleNeverCachedIsNotStale(attrs: Attributes, controller: CacheInfo -> bool)
    requires CachedInfo(attrs).None?
    ensures CachedInfo(MarkStaleChange(attrs).attributes).None?
    ensures !IsStale(MarkStaleChange(attrs).attributes, controller)
  {
    MarkStaleOverlaysToken(attrs);
  }
}
