# Asset facade of the repository content layer, modelled in Dafny

This project models `FluentAssetImpl`. That class is the facade through which a repository
asset is linked to its binary content, and it has four jobs:

- **Attach.** A temporary upload is promoted by copying it in the blob store under derived
  headers. The copy's composite reference (node, blob-store name, blob id) is computed. The
  asset-blob metadata record for that reference is looked up and reused, or created when there
  is none. The asset is linked to the record and the link is written to the asset store.
- **Download.** Two failures are kept apart: no blob is linked, and the linked blob is missing
  from the blob store. On success the content carries the record's content type and a
  back-reference to the asset.
- **Cache state.** `markAsCached` SETs the whole `cache` sub-map of the attribute tree.
  `markAsStale` OVERLAYs the `invalidated` sentinel under the cache-token key. `isStale` is false
  without cache info and otherwise defers to a cache controller.
- **Guarded writes.** `attributes` writes only when the change altered the attributes. `delete`
  and both `attach` overloads are guarded by the facet's policies.

Layout, one module per file:

- `wrappers.dfy` (`Wrappers`): `Option`, `Result` and `Outcome`. `Result` and `Outcome` stand for
  a call that returns or throws.
- `attributes.dfy` (`AttributeTree`): attribute values, the SET / REMOVE / OVERLAY change algebra,
  and its lemmas.
- `cache.dfy` (`CacheState`): the cache sub-map and `isStale`, with the SET versus OVERLAY lemmas.
- `asset_model.dfy` (`AssetModel`): blobs, `BlobRef`, `AssetBlob`, assets, errors, the headers of
  a promoted blob, the checksum mapping, and lookup-or-create over the asset-blob table.
- `stores.dfy` (`ContentStores`): class `Stores`, which stands in for the blob store, the
  asset-blob store and the asset store. It adds a log of every table write.
- `fluent_asset.dfy` (`FluentAssets`): class `ContentFacet` (node name, stores, policies) and class
  `FluentAsset`. `FluentAsset` holds the current `asset` as a field, which its methods reassign.
- `scenario.dfy` (`Scenario`): a client that uses only the contracts. It attaches an upload,
  re-attaches the promoted blob, downloads, marks the asset cached, then stale, then stale again.

Modelling choices that matter for the proofs:

- The asset-blob table is a sequence of rows and enforces no uniqueness of its own. "One record
  per `BlobRef`" is therefore an invariant (`UniqueRefs`, kept in `Stores.Valid`). The facade's
  read-then-create in `DoAttach` maintains it, and `ResolveKeepsOneRowPerKey` proves this.
- Policies are fields of `ContentFacet` holding total functions: attach-allowed, delete-allowed,
  and a content-type check where `None` means rejected. A denied policy becomes a failure
  outcome in place of the thrown exception.
- The cache controller is a parameter of type `CacheInfo -> bool`. The clock is a `now`
  parameter, used as the copy's creation time.
- `ImmutableMap.Builder.put` rejects null values. So a temporary blob that lacks the repo-name,
  created-by or created-by-ip header makes `makePermanent` fail (`NullHeader`) before anything
  is copied.
- `AttachTemp` and `MakePermanent` require the temporary blob value they are given to be the
  blob-store entry under its id, whenever the store has one. In the code the `TempBlob` wraps the
  store's own blob, so its headers and its size come from one object.

Notes on the code's behaviour:

- `attach(Blob, checksums)` copies nothing. Only the temporary-blob overload promotes a copy.
- A denied `delete` throws. It does not return false.
- `isStale` after `markAsStale` is true under a controller that judges an invalidated token
  stale only if the asset already had cache info. Overlaying the token onto an asset that was
  never cached writes no last-verified time, so the asset still reads as never cached and is not
  stale. Both cases are proved (`MarkStaleThenIsStale`, `MarkStaleNeverCachedIsNotStale`). The second rests on the
  assumed `CacheInfo.fromMap` described under "Left out".

## Model

| member | source | states |
|---|---|---|
| `FluentAssets.FluentAsset.constructor` | components/nexus-repository-content/src/main/java/org/sonatype/nexus/repository/content/fluent/internal/FluentAssetImpl.java:73-76 | the facade holds the given facet and asset |
| `FluentAssets.FluentAsset.Attributes` | components/nexus-repository-content/src/main/java/org/sonatype/nexus/repository/content/fluent/internal/FluentAssetImpl.java:123-129 | the asset's attributes become the change's result; the asset store is written, with one logged write, exactly when the change reports a change, and nothing else in the stores moves; a rejected OVERLAY argument changes nothing |
| `FluentAssets.FluentAsset.AttachTemp` | components/nexus-repository-content/src/main/java/org/sonatype/nexus/repository/content/fluent/internal/FluentAssetImpl.java:131-135 | a denied attach, rejected headers or a missing source leave asset and stores unchanged; otherwise one blob is copied under a fresh id, the asset links to the looked-up-or-created record of the copy, the table holds exactly one row for its reference, the id counter advances by one, and the writes are (record created, if new) then link update |
| `FluentAssets.FluentAsset.AttachBlob` | components/nexus-repository-content/src/main/java/org/sonatype/nexus/repository/content/fluent/internal/FluentAssetImpl.java:137-141 | a denied attach changes nothing; otherwise no blob is copied and the id counter is unchanged, the asset links to the looked-up-or-created record of the blob, with exactly one row for its reference |
| `FluentAssets.FluentAsset.Download` | components/nexus-repository-content/src/main/java/org/sonatype/nexus/repository/content/fluent/internal/FluentAssetImpl.java:143-160 | no linked record fails with `NoBlobAttached`; a linked id missing from the blob store fails with `MissingBlob` of the record's reference; otherwise the content is that blob, with the record's content type and a back-reference to this facade; nothing is modified |
| `FluentAssets.FluentAsset.MarkAsDownloaded` | components/nexus-repository-content/src/main/java/org/sonatype/nexus/repository/content/fluent/internal/FluentAssetImpl.java:162-166 | exactly one download write is logged for the asset's path; no table changes |
| `FluentAssets.FluentAsset.MarkAsCached` | components/nexus-repository-content/src/main/java/org/sonatype/nexus/repository/content/fluent/internal/FluentAssetImpl.java:168-171 | the attributes become the SET of the cache sub-map, after which the asset's cache info is exactly the given info; a write happens exactly when the SET changed something, and the blob store, id counter and asset-blob table stay as they were |
| `FluentAssets.FluentAsset.MarkAsStale` | components/nexus-repository-content/src/main/java/org/sonatype/nexus/repository/content/fluent/internal/FluentAssetImpl.java:173-176 | the attributes become the OVERLAY of the invalidated token; cache info the asset had keeps its last-verified time and gets the invalidated token; a write happens exactly when the overlay changed something, and the blob store, id counter and asset-blob table stay as they were |
| `FluentAssets.FluentAsset.IsStale` | components/nexus-repository-content/src/main/java/org/sonatype/nexus/repository/content/fluent/internal/FluentAssetImpl.java:178-182 | false when the asset has no cache info, otherwise the controller's verdict on it |
| `FluentAssets.FluentAsset.Delete` | components/nexus-repository-content/src/main/java/org/sonatype/nexus/repository/content/fluent/internal/FluentAssetImpl.java:184-188 | denied: `DeleteNotAllowed` and the stores are unchanged; allowed: returns whether the asset row existed, the row is gone, and blobs, the id counter and asset-blob records are untouched |
| `FluentAssets.FluentAsset.CreateAssetBlob` | components/nexus-repository-content/src/main/java/org/sonatype/nexus/repository/content/fluent/internal/FluentAssetImpl.java:195-219 | the new record has the given reference, the blob's size and creation time, content type, created-by and created-by-ip from the blob's headers, and checksums keyed by the algorithms' names; it is appended to the table and its creation logged |
| `FluentAssets.FluentAsset.BlobRefOf` | components/nexus-repository-content/src/main/java/org/sonatype/nexus/repository/content/fluent/internal/FluentAssetImpl.java:221-223 | the reference of a blob is built from exactly this node's name, this blob store's name and the blob's id |
| `FluentAssets.FluentAsset.BlobRefIdentifiesBlob` | components/nexus-repository-content/src/main/java/org/sonatype/nexus/repository/content/fluent/internal/FluentAssetImpl.java:221-223 | a blob's reference is this node, this blob store and the blob's id, so two blobs share a reference exactly when they share an id |
| `FluentAssets.FluentAsset.MakePermanent` | components/nexus-repository-content/src/main/java/org/sonatype/nexus/repository/content/fluent/internal/FluentAssetImpl.java:225-236 | rejected headers or a missing source copy nothing; otherwise the result is a new blob under a fresh id (the counter advances by one) with the derived headers and the source's size, added to the blob store, and no table changes |
| `FluentAssets.FluentAsset.DoAttach` | components/nexus-repository-content/src/main/java/org/sonatype/nexus/repository/content/fluent/internal/FluentAssetImpl.java:238-248 | the asset links to the record stored for the blob's reference, or to one new record; the table then holds exactly that record as the only row for the reference, keeps one row per reference, and the link update is written |
| `AssetModel.PermanentHeaders` | components/nexus-repository-content/src/main/java/org/sonatype/nexus/repository/content/fluent/internal/FluentAssetImpl.java:225-234 | succeeds exactly when the temporary blob has the three copied headers and the content type was accepted; a missing header fails with `NullHeader` of the first one missing in the order repo name, created-by, created-by-ip, and only then is a rejected content type reported; the result has exactly five headers: repo name, created-by and created-by-ip copied, blob name the asset path, and the resolved content type |
| `AssetModel.ChecksumMap` | components/nexus-repository-content/src/main/java/org/sonatype/nexus/repository/content/fluent/internal/FluentAssetImpl.java:207-210 | keys are exactly the algorithms' names, and each name maps to its digest's hexadecimal string |
| `AssetModel.NewAssetBlob` | components/nexus-repository-content/src/main/java/org/sonatype/nexus/repository/content/fluent/internal/FluentAssetImpl.java:202-214 | the new record is keyed by the given reference, has the blob's size and creation time, content type, created-by and created-by-ip from the blob's headers, and checksums keyed by exactly the algorithms' names with their hexadecimal digests |
| `AssetModel.FindRecord` | components/nexus-repository-content/src/main/java/org/sonatype/nexus/repository/content/fluent/internal/FluentAssetImpl.java:241 | a found record is a row with the requested reference; nothing is found exactly when no row has it |
| `AssetModel.CountZeroIffNotFound` | components/nexus-repository-content/src/main/java/org/sonatype/nexus/repository/content/fluent/internal/FluentAssetImpl.java:241-242 | a reference has no row exactly when the read finds nothing for it |
| `AssetModel.CountAppend` | components/nexus-repository-content/src/main/java/org/sonatype/nexus/repository/content/fluent/internal/FluentAssetImpl.java:216 | creating a record adds one row for its own reference and none for any other |
| `AssetModel.FindAppendOther` | components/nexus-repository-content/src/main/java/org/sonatype/nexus/repository/content/fluent/internal/FluentAssetImpl.java:216 | creating a record does not change what a read of any other reference finds |
| `AssetModel.Resolve` | components/nexus-repository-content/src/main/java/org/sonatype/nexus/repository/content/fluent/internal/FluentAssetImpl.java:240-242 | when a record exists for the reference, it is returned and the table is unchanged; otherwise a new record for the blob is returned and appended |
| `AssetModel.ResolveKeepsOneRowPerKey` | components/nexus-repository-content/src/main/java/org/sonatype/nexus/repository/content/fluent/internal/FluentAssetImpl.java:238-242 | from a table with one row per reference, lookup-or-create leaves one row per reference, exactly one row for the requested one (the resolved record), and every other reference's rows and read result unchanged |
| `AssetModel.ResolveTwiceSharesRecord` | components/nexus-repository-content/src/main/java/org/sonatype/nexus/repository/content/fluent/internal/FluentAssetImpl.java:238-245 | two attaches resolving to the same reference link to the same record, the second adds no row, and exactly one record exists for the reference |
| `AttributeTree.Overlay` | components/nexus-repository-content/src/main/java/org/sonatype/nexus/repository/content/fluent/internal/FluentAssetImpl.java:173-176 | the merge's keys are the union of both maps' keys, keys only the base has keep their values, leaves of the overlay are written, and a nested map of the overlay is merged into the base's child map under the same key, so all of this holds at every depth |
| `AttributeTree.ApplyAttributeChange` | components/nexus-repository-content/src/main/java/org/sonatype/nexus/repository/content/fluent/internal/FluentAssetImpl.java:124-125 | only an OVERLAY of a non-map is rejected; the change flag is true exactly when the tree differs afterwards; SET stores the value, REMOVE drops the key, OVERLAY merges into the child map; keys other than the target keep their values |
| `AttributeTree.OverlayIdempotent` | components/nexus-repository-content/src/main/java/org/sonatype/nexus/repository/content/fluent/internal/FluentAssetImpl.java:173-176 | overlaying the same map twice gives the same tree as overlaying it once |
| `AttributeTree.RepeatedOverlayUnchanged` | components/nexus-repository-content/src/main/java/org/sonatype/nexus/repository/content/fluent/internal/FluentAssetImpl.java:123-129 | a repeated OVERLAY reports no change, so `attributes` does not write the second time |
| `AttributeTree.RepeatedSetUnchanged` | components/nexus-repository-content/src/main/java/org/sonatype/nexus/repository/content/fluent/internal/FluentAssetImpl.java:123-129 | a repeated SET reports no change, so `attributes` does not write the second time |
| `AttributeTree.SetThenOverlayKeepsBoth` | components/nexus-repository-content/src/main/java/org/sonatype/nexus/repository/content/fluent/internal/FluentAssetImpl.java:123-129 | a SET at one key followed by an OVERLAY at another leaves the set value and the overlaid leaves both in place |
| `CacheState.ToMap` | components/nexus-repository-content/src/main/java/org/sonatype/nexus/repository/content/fluent/internal/FluentAssetImpl.java:170 | the cache sub-map records the last-verified time, and the token exactly when there is one |
| `CacheState.FromMap` | components/nexus-repository-content/src/main/java/org/sonatype/nexus/repository/content/fluent/internal/FluentAssetImpl.java:180 | cache info is read exactly when a last-verified time is present, and it carries that time |
| `CacheState.FromMapToMap` | components/nexus-repository-content/src/main/java/org/sonatype/nexus/repository/content/fluent/internal/FluentAssetImpl.java:168-182 | reading back written cache info gives the same info |
| `CacheState.IsStale` | components/nexus-repository-content/src/main/java/org/sonatype/nexus/repository/content/fluent/internal/FluentAssetImpl.java:178-182 | false without cache info, otherwise the controller's verdict on the recorded info |
| `CacheState.MarkCachedReplacesSubMap` | components/nexus-repository-content/src/main/java/org/sonatype/nexus/repository/content/fluent/internal/FluentAssetImpl.java:168-171 | after the SET the cache sub-map is exactly the info's map, whatever it held before, and no other attribute changes |
| `CacheState.MarkCachedThenIsStale` | components/nexus-repository-content/src/main/java/org/sonatype/nexus/repository/content/fluent/internal/FluentAssetImpl.java:168-182 | right after `markAsCached(info)`, `isStale` is the controller's verdict on `info` |
| `CacheState.MarkStaleOverlaysToken` | components/nexus-repository-content/src/main/java/org/sonatype/nexus/repository/content/fluent/internal/FluentAssetImpl.java:173-176 | after the OVERLAY the cache sub-map holds the invalidated token and every other key it had, and attributes outside it are unchanged |
| `CacheState.MarkStaleThenIsStale` | components/nexus-repository-content/src/main/java/org/sonatype/nexus/repository/content/fluent/internal/FluentAssetImpl.java:173-182 | an asset with cache info keeps it, with the invalidated token, and is stale under every controller that judges an invalidated token stale |
| `CacheState.MarkStaleNeverCachedIsNotStale` | components/nexus-repository-content/src/main/java/org/sonatype/nexus/repository/content/fluent/internal/FluentAssetImpl.java:173-182 | an asset without cache info still has none after `markAsStale`, and is not stale under any controller |
| `ContentStores.Stores.GetBlob` | components/nexus-repository-content/src/main/java/org/sonatype/nexus/repository/content/fluent/internal/FluentAssetImpl.java:149 | blob-store read: a blob is found exactly when the store has one under the id |
| `ContentStores.Stores.Copy` | components/nexus-repository-content/src/main/java/org/sonatype/nexus/repository/content/fluent/internal/FluentAssetImpl.java:235 | blob-store copy: a missing source fails with nothing changed; otherwise the new blob has a fresh id, the given headers and the source's size, and it is added to the store |
| `ContentStores.Stores.ReadAssetBlob` | components/nexus-repository-content/src/main/java/org/sonatype/nexus/repository/content/fluent/internal/FluentAssetImpl.java:241 | asset-blob read: a found record is a row with the requested reference; nothing is found exactly when no row has it |
| `ContentStores.Stores.CreateAssetBlob` | components/nexus-repository-content/src/main/java/org/sonatype/nexus/repository/content/fluent/internal/FluentAssetImpl.java:216 | asset-blob create: the row is appended and the write logged |
| `ContentStores.Stores.UpdateAssetAttributes` | components/nexus-repository-content/src/main/java/org/sonatype/nexus/repository/content/fluent/internal/FluentAssetImpl.java:126 | the asset's row gets the asset's attributes and one write is logged |
| `ContentStores.Stores.UpdateAssetBlobLink` | components/nexus-repository-content/src/main/java/org/sonatype/nexus/repository/content/fluent/internal/FluentAssetImpl.java:245 | the asset's row gets the asset's blob link and one write is logged |
| `ContentStores.Stores.MarkAsDownloaded` | components/nexus-repository-content/src/main/java/org/sonatype/nexus/repository/content/fluent/internal/FluentAssetImpl.java:164 | one download write is logged and no table changes |
| `ContentStores.Stores.DeleteAsset` | components/nexus-repository-content/src/main/java/org/sonatype/nexus/repository/content/fluent/internal/FluentAssetImpl.java:187 | the asset's row is removed, and the result says whether it existed |
| `Scenario.SingleChecksum` | components/nexus-repository-content/src/main/java/org/sonatype/nexus/repository/content/fluent/internal/FluentAssetImpl.java:207-210 | a single digest maps to exactly one checksum entry: the algorithm's name to the digest's hexadecimal string |

## Left out

- The delegating accessors `repository`, `path`, `kind`, `component`, `blob`, `lastDownloaded`, `attributes()`, `created`, `lastUpdated` and `unwrap` (lines 78-121 and 190-193) carry no logic. They are left out, and so are the asset's component link and its created and last-updated times.
- `FluentAttributesHelper.applyAttributeChange` is not part of this model. `ApplyAttributeChange` is an assumed stand-in for it:
  - SET reports a change unless the key already held an equal value;
  - REMOVE reports a change when the key was present;
  - OVERLAY must be given a map. It merges recursively into the child map, treats a non-map child as empty, and reports a change when the tree differs;
  - APPEND and PREPEND (list operations) are not modelled.
- `CacheInfo.toMap` and `CacheInfo.fromMap` are not part of this model. `ToMap` and `FromMap` assume the `last_verified` and `cache_token` keys, with no token written when there is none, and no cache info read without a last-verified time.
- The values of the header and cache key constants are defined in files that are not part of this model (`BlobStore`, `Bucket`, `CacheInfo`). The model uses them only as distinct strings.
- The policies `checkAttachAllowed`, `checkDeleteAllowed`, `checkContentType` and `CacheController.isStale` are not modelled. They are total functions that depend only on the asset (and the temporary blob, or the cache info).
- Blob bytes and the physical copy are not modelled. A blob is its id, headers, size and creation time. Ids are assigned from a counter, and `BlobId.asUniqueString` is taken as the id itself. A `HashCode` carries its own hexadecimal rendering. Timestamps are integers, and `toLocalDateTime` is the identity.
- Persistence internals (SQL, durability) are not modelled. A row update for an asset with no row changes no row. Errors raised by the stores, other than copying a missing source, are not modelled.
- `markAsDownloaded` is modelled only as one store call. The stored download time is not modelled.
- The read-then-create race in `doAttach` (lines 241-242) and all concurrency are left out: the model is sequential.
- Aliasing is not modelled. The facade holds the asset as a value, so the in-place `setAssetBlob` on an `AssetData` shared with other holders is not captured.
- The `checkNotNull` guards of the constructor are left out: Dafny references are never null.
