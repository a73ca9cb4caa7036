/**
 * The asset facade: one repository asset, the content facet it belongs to,
 * and the operations that attach, retrieve, cache-mark, re-attribute and
 * delete it through the facet's stores and policies.
 */
module FluentAssets {
  import opened Wrappers
  import opened AttributeTree
  import opened CacheState
  import opened AssetModel
  import opened ContentStores

  /** A temporary upload: its blob in the blob store and the digests computed while it was written. */
  datatype TempBlob = TempBlob(blob: Blob, hashes: map<HashAlgorithm, HashCode>)

  /** Retrieved content: the blob, its declared content type, and the asset it was retrieved through. */
  datatype Content = Content(blob: Blob, contentType: Option<string>, asset: FluentAsset)

  /**
   * The content facet the asset belongs to: this node's identity, the
   * stores, and the policies it consults (attach allowed, delete allowed,
   * content-type check, where `None` is a rejected content type).
   */
  class ContentFacet {
    const nodeName: string
    const stores: Stores
    const attachAllowed: Asset -> bool
    const deleteAllowed: Asset -> bool
    const checkContentType: (Asset, Blob) -> Option<string>

    constructor (nodeName: string, stores: Stores, attachAllowed: Asset -> bool,
                 deleteAllowed: Asset -> bool, checkContentType: (Asset, Blob) -> Option<string>)
      ensures this.nodeName == nodeName && this.stores == stores
      ensures this.attachAllowed == attachAllowed && this.deleteAllowed == deleteAllowed
      ensures this.checkContentType == checkContentType
    {
      this.nodeName := nodeName;
      this.stores := stores;
      this.attachAllowed := attachAllowed;
      this.deleteAllowed := deleteAllowed;
      this.checkContentType := checkContentType;
    }
  }

  class FluentAsset {
    const facet: ContentFacet
    var asset: Asset

    ghost predicate Valid()
      reads this, facet.stores
    {
      facet.stores.Valid()
    }

    constructor (facet: ContentFacet, asset: Asset)
      ensures this.facet == facet && this.asset == asset
    {
      this.facet := facet;
      this.asset := asset;
    }

    /** The composite reference of a blob of this facet's blob store. */
    function BlobRefOf(blob: Blob): (r: BlobRef)
      ensures r.node == facet.nodeName && r.store == facet.stores.blobStoreName && r.blob == blob.id
    {
      BlobRef(facet.nodeName, facet.stores.blobStoreName, blob.id)
    }

    /**
     * The reference is made of this node, this blob store and the blob's id,
     * so two blobs share a reference exactly when they share an id.
     */
    lemma BlobRefIdentifiesBlob(b1: Blob, b2: Blob)
      ensures BlobRefOf(b1).node == facet.nodeName && BlobRefOf(b1).store == facet.stores.blobStoreName
      ensures BlobRefOf(b1).blob == b1.id
      ensures BlobRefOf(b1) == BlobRefOf(b2) <==> b1.id == b2.id
    {
    }

    /**
     * Applies one attribute change to the asset, and writes the attributes
     * to the asset store only when the change reports that it altered them.
     */
    method Attributes(change: AttributeChange, key: string, value: Value) returns (r: Outcome<Error>)
      requires Valid()
      modifies this, facet.stores
      ensures Valid()
      ensures ApplyAttributeChange(old(asset.attributes), change, key, value).None? ==>
        r == Fail(OverlayNotAMap(key)) && asset == old(asset) && unchanged(facet.stores)
      ensures ApplyAttributeChange(old(asset.attributes), change, key, value).Some? ==>
        var u := ApplyAttributeChange(old(asset.attributes), change, key, value).value;
        && r == Pass
        && asset == old(asset).(attributes := u.attributes)
        && (!u.changed ==> unchanged(facet.stores))
        && (u.changed ==>
             && facet.stores.assets == WithAttributes(old(facet.stores.assets), asset)
             && facet.stores.log == old(facet.stores.log) + [AttributesUpdated(asset)]
             && facet.stores.blobs == old(facet.stores.blobs)
             && facet.stores.nextBlobId == old(facet.stores.nextBlobId)
             && facet.stores.assetBlobs == old(facet.stores.assetBlobs))
    {
      var u := ApplyAttributeChange(asset.attributes, change, key, value);
      if u.None? {
        return Fail(OverlayNotAMap(key));
      }
      asset := asset.(attributes := u.value.attributes);
      if u.value.changed {
        facet.stores.UpdateAssetAttributes(asset);
      }
      r := Pass;
    }

    /**
     * Attaches a temporary upload: checks that attaching is allowed, makes
     * the blob permanent, then links the asset to its metadata record.
     */
    method AttachTemp(tempBlob: TempBlob, now: int) returns (r: Outcome<Error>)
      requires Valid()
      requires tempBlob.blob.id in facet.stores.blobs ==> facet.stores.blobs[tempBlob.blob.id] == tempBlob.blob
      modifies this, facet.stores
      ensures Valid()
      ensures !facet.attachAllowed(old(asset)) ==>
        r == Fail(AttachNotAllowed) && asset == old(asset) && unchanged(facet.stores)
      ensures facet.attachAllowed(old(asset)) ==>
        var headers := PermanentHeaders(tempBlob.blob.headers, old(asset).path,
                                        facet.checkContentType(old(asset), tempBlob.blob));
        && (headers.Failure? ==> r == Fail(headers.error) && asset == old(asset) && unchanged(facet.stores))
        && (headers.Success? && tempBlob.blob.id !in old(facet.stores.blobs) ==>
             r == Fail(CopySourceMissing(tempBlob.blob.id)) && asset == old(asset) && unchanged(facet.stores))
        && (headers.Success? && tempBlob.blob.id in old(facet.stores.blobs) ==>
             var copied := Blob(old(facet.stores.nextBlobId), headers.value,
                                old(facet.stores.blobs)[tempBlob.blob.id].contentSize, now);
             var (record, rows) := Resolve(old(facet.stores.assetBlobs), BlobRefOf(copied), copied, tempBlob.hashes);
             && r == Pass
             && facet.stores.blobs == old(facet.stores.blobs)[copied.id := copied]
             && facet.stores.nextBlobId == old(facet.stores.nextBlobId) + 1
             && asset == old(asset).(blob := Some(record))
             && facet.stores.assetBlobs == rows
             && CountRef(rows, BlobRefOf(copied)) == 1
             && facet.stores.assets == WithBlobLink(old(facet.stores.assets), asset)
             && facet.stores.log == old(facet.stores.log)
                  + (if |rows| > |old(facet.stores.assetBlobs)| then [AssetBlobCreated(record)] else [])
                  + [BlobLinkUpdated(asset)])
    {
      if !facet.attachAllowed(asset) {
        return Fail(AttachNotAllowed);
      }
      var permanent := MakePermanent(tempBlob.blob, now);
      if permanent.Failure? {
        return Fail(permanent.error);
      }
      DoAttach(permanent.value, tempBlob.hashes);
      r := Pass;
    }

    /**
     * Attaches an already permanent blob with the given checksums: checks
     * that attaching is allowed, then links the asset to its metadata record.
     */
    method AttachBlob(blob: Blob, checksums: map<HashAlgorithm, HashCode>) returns (r: Outcome<Error>)
      requires Valid()
      modifies this, facet.stores
      ensures Valid()
      ensures !facet.attachAllowed(old(asset)) ==>
        r == Fail(AttachNotAllowed) && asset == old(asset) && unchanged(facet.stores)
      ensures facet.attachAllowed(old(asset)) ==>
        var (record, rows) := Resolve(old(facet.stores.assetBlobs), BlobRefOf(blob), blob, checksums);
        && r == Pass
        && asset == old(asset).(blob := Some(record))
        && facet.stores.assetBlobs == rows
        && CountRef(rows, BlobRefOf(blob)) == 1
        && facet.stores.blobs == old(facet.stores.blobs)
        && facet.stores.nextBlobId == old(facet.stores.nextBlobId)
        && facet.stores.assets == WithBlobLink(old(facet.stores.assets), asset)
        && facet.stores.log == old(facet.stores.log)
             + (if |rows| > |old(facet.stores.assetBlobs)| then [AssetBlobCreated(record)] else [])
             + [BlobLinkUpdated(asset)]
    {
      if !facet.attachAllowed(asset) {
        return Fail(AttachNotAllowed);
      }
      DoAttach(blob, checksums);
      r := Pass;
    }

    /**
     * Retrieves the asset's content: fails when no blob is linked, fails
     * distinctly when the blob store has no blob under the linked id, and
     * otherwise returns the blob with the record's content type and a
     * reference back to this asset. Nothing is written.
     */
    method Download() returns (r: Result<Content, Error>)
      ensures asset.blob.None? ==> r == Failure(NoBlobAttached(asset.path))
      ensures asset.blob.Some? && asset.blob.value.blobRef.blob !in facet.stores.blobs ==>
        r == Failure(MissingBlob(asset.blob.value.blobRef))
      ensures asset.blob.Some? && asset.blob.value.blobRef.blob in facet.stores.blobs ==>
        && r.Success?
        && r.value.blob == facet.stores.blobs[asset.blob.value.blobRef.blob]
        && r.value.contentType == asset.blob.value.contentType
        && r.value.asset == this
    {
      if asset.blob.None? {
        return Failure(NoBlobAttached(asset.path));
      }
      var assetBlob := asset.blob.value;
      var blobRef := assetBlob.blobRef;
      var blob := facet.stores.GetBlob(blobRef.blob);
      if blob.None? {
        return Failure(MissingBlob(blobRef));
      }
      r := Success(Content(blob.value, assetBlob.contentType, this));
    }

    /** Tells the asset store that the asset was downloaded; nothing else changes. */
    method MarkAsDownloaded()
      requires Valid()
      modifies facet.stores
      ensures Valid()
      ensures facet.stores.log == old(facet.stores.log) + [DownloadMarked(asset.path)]
      ensures facet.stores.blobs == old(facet.stores.blobs) && facet.stores.nextBlobId == old(facet.stores.nextBlobId)
      ensures facet.stores.assetBlobs == old(facet.stores.assetBlobs) && facet.stores.assets == old(facet.stores.assets)
    {
      facet.stores.MarkAsDownloaded(asset);
    }

    /**
     * Records cache info: SETs the whole cache sub-map to the map of `info`,
     * so afterwards the asset's cache info is exactly `info`.
     */
    method MarkAsCached(info: CacheInfo)
      requires Valid()
      modifies this, facet.stores
      ensures Valid()
      ensures asset == old(asset).(attributes := MarkCachedChange(old(asset.attributes), info).attributes)
      ensures CachedInfo(asset.attributes) == Some(info)
      ensures MarkCachedChange(old(asset.attributes), info).changed ==>
        facet.stores.log == old(facet.stores.log) + [AttributesUpdated(asset)] &&
        facet.stores.assets == WithAttributes(old(facet.stores.assets), asset) &&
        facet.stores.blobs == old(facet.stores.blobs) &&
        facet.stores.nextBlobId == old(facet.stores.nextBlobId) &&
        facet.stores.assetBlobs == old(facet.stores.assetBlobs)
      ensures !MarkCachedChange(old(asset.attributes), info).changed ==> unchanged(facet.stores)
    {
      FromMapToMap(info);
      var _ := Attributes(SET, CACHE, Dict(ToMap(info)));
    }

    /**
     * Invalidates the cache: OVERLAYs the invalidated sentinel under the
     * cache-token key, keeping the rest of the cache sub-map; cache info
     * the asset had survives with its token invalidated.
     */
    method MarkAsStale()
      requires Valid()
      modifies this, facet.stores
      ensures Valid()
      ensures asset == old(asset).(attributes := MarkStaleChange(old(asset.attributes)).attributes)
      ensures old(CachedInfo(asset.attributes)).Some? ==>
        CachedInfo(asset.attributes) == Some(old(CachedInfo(asset.attributes)).value.(cacheToken := Some(INVALIDATED)))
      ensures MarkStaleChange(old(asset.attributes)).changed ==>
        facet.stores.log == old(facet.stores.log) + [AttributesUpdated(asset)] &&
        facet.stores.assets == WithAttributes(old(facet.stores.assets), asset) &&
        facet.stores.blobs == old(facet.stores.blobs) &&
        facet.stores.nextBlobId == old(facet.stores.nextBlobId) &&
        facet.stores.assetBlobs == old(facet.stores.assetBlobs)
      ensures !MarkStaleChange(old(asset.attributes)).changed ==> unchanged(facet.stores)
    {
      ghost var before := asset.attributes;
      if CachedInfo(before).Some? {
        MarkStaleThenIsStale(before, _ => true);
      }
      var _ := Attributes(OVERLAY, CACHE, Dict(map[CACHE_TOKEN := Text(INVALIDATED)]));
    }

    /** False when the asset carries no cache info, otherwise the controller's verdict. */
    function IsStale(controller: CacheInfo -> bool): (r: bool)
      reads this
      ensures CachedInfo(asset.attributes).None? ==> !r
      ensures CachedInfo(asset.attributes).Some? ==> (r <==> controller(CachedInfo(asset.attributes).value))
    {
      CacheState.IsStale(asset.attributes, controller)
    }

    /**
     * Deletes the asset if the policy allows it, reporting whether the asset
     * store removed a row; blobs and metadata records are left alone.
     */
    method Delete() returns (r: Result<bool, Error>)
      requires Valid()
      modifies facet.stores
      ensures Valid()
      ensures !facet.deleteAllowed(asset) ==> r == Failure(DeleteNotAllowed) && unchanged(facet.stores)
      ensures facet.deleteAllowed(asset) ==>
        && r == Success(asset.path in old(facet.stores.assets))
        && facet.stores.assets == old(facet.stores.assets) - {asset.path}
        && facet.stores.log == old(facet.stores.log) + [AssetDeleted(asset.path)]
        && facet.stores.blobs == old(facet.stores.blobs)
        && facet.stores.nextBlobId == old(facet.stores.nextBlobId)
        && facet.stores.assetBlobs == old(facet.stores.assetBlobs)
    {
      if !facet.deleteAllowed(asset) {
        return Failure(DeleteNotAllowed);
      }
      var removed := facet.stores.DeleteAsset(asset);
      r := Success(removed);
    }

    /** Builds the metadata record of `blob` under `blobRef` and creates it in the asset-blob store. */
    method CreateAssetBlob(blobRef: BlobRef, blob: Blob, checksums: map<HashAlgorithm, HashCode>)
      returns (record: AssetBlob)
      modifies facet.stores
      ensures record.blobRef == blobRef
      ensures record.blobSize == blob.contentSize
      ensures record.contentType == Header(blob.headers, CONTENT_TYPE_HEADER)
      ensures record.checksums.Keys == set a | a in checksums :: a.name
      ensures forall a :: a in checksums ==> record.checksums[a.name] == checksums[a].hex
      ensures record.blobCreated == blob.creationTime
      ensures record.createdBy == Header(blob.headers, CREATED_BY_HEADER)
      ensures record.createdByIp == Header(blob.headers, CREATED_BY_IP_HEADER)
      ensures record == NewAssetBlob(blobRef, blob, checksums)
      ensures facet.stores.assetBlobs == old(facet.stores.assetBlobs) + [record]
      ensures facet.stores.log == old(facet.stores.log) + [AssetBlobCreated(record)]
      ensures facet.stores.blobs == old(facet.stores.blobs) && facet.stores.nextBlobId == old(facet.stores.nextBlobId)
      ensures facet.stores.assets == old(facet.stores.assets)
    {
      record := NewAssetBlob(blobRef, blob, checksums);
      facet.stores.CreateAssetBlob(record);
    }

    /**
     * Makes a temporary blob permanent: copies it under the headers derived
     * from it and from this asset; a rejected header set copies nothing.
     */
    method MakePermanent(tempBlob: Blob, now: int) returns (r: Result<Blob, Error>)
      requires Valid()
      requires tempBlob.id in facet.stores.blobs ==> facet.stores.blobs[tempBlob.id] == tempBlob
      modifies facet.stores
      ensures Valid()
      ensures var headers := PermanentHeaders(tempBlob.headers, asset.path, facet.checkContentType(asset, tempBlob));
        && (headers.Failure? ==> r == Failure(headers.error) && unchanged(facet.stores))
        && (headers.Success? && tempBlob.id !in old(facet.stores.blobs) ==>
             r == Failure(CopySourceMissing(tempBlob.id)) && unchanged(facet.stores))
        && (headers.Success? && tempBlob.id in old(facet.stores.blobs) ==>
             && r == Success(Blob(old(facet.stores.nextBlobId), headers.value,
                                  old(facet.stores.blobs)[tempBlob.id].contentSize, now))
             && r.value.id !in old(facet.stores.blobs)
             && facet.stores.blobs == old(facet.stores.blobs)[r.value.id := r.value]
             && facet.stores.nextBlobId == old(facet.stores.nextBlobId) + 1
             && facet.stores.assetBlobs == old(facet.stores.assetBlobs)
             && facet.stores.assets == old(facet.stores.assets)
             && facet.stores.log == old(facet.stores.log))
    {
      var headers := PermanentHeaders(tempBlob.headers, asset.path, facet.checkContentType(asset, tempBlob));
      if headers.Failure? {
        return Failure(headers.error);
      }
      r := facet.stores.Copy(tempBlob.id, headers.value, now);
    }

    /**
     * Links the asset to the metadata record of `blob`: the record already
     * stored for the blob's reference, or a new one created for it; then
     * writes the link. Afterwards the table has exactly one record for that
     * reference and the asset links to it.
     */
    method DoAttach(blob: Blob, checksums: map<HashAlgorithm, HashCode>)
      requires Valid()
      modifies this, facet.stores
      ensures Valid()
      ensures var (record, rows) := Resolve(old(facet.stores.assetBlobs), BlobRefOf(blob), blob, checksums);
        && asset == old(asset).(blob := Some(record))
        && facet.stores.assetBlobs == rows
        && CountRef(rows, BlobRefOf(blob)) == 1
        && FindRecord(rows, BlobRefOf(blob)) == asset.blob
        && facet.stores.blobs == old(facet.stores.blobs)
        && facet.stores.nextBlobId == old(facet.stores.nextBlobId)
        && facet.stores.assets == WithBlobLink(old(facet.stores.assets), asset)
        && facet.stores.log == old(facet.stores.log)
             + (if |rows| > |old(facet.stores.assetBlobs)| then [AssetBlobCreated(record)] else [])
             + [BlobLinkUpdated(asset)]
    {
      var blobRef := BlobRefOf(blob);
      ResolveKeepsOneRowPerKey(facet.stores.assetBlobs, blobRef, blob, checksums);
      var found := facet.stores.ReadAssetBlob(blobRef);
      var record: AssetBlob;
      if found.Some? {
        record := found.value;
      } else {
        record := CreateAssetBlob(blobRef, blob, checksums);
      }
      asset := asset.(blob := Some(record));
      facet.stores.UpdateAssetBlobLink(asset);
    }
  }
}
