/**
 * The persistence collaborators of the facade, reduced to their observable
 * state: the blob store as a map from id to blob with an id counter, the
 * asset-blob table as a sequence of rows, the asset table as a map from path
 * to asset row, and a log of every write made to the two tables.
 */
module ContentStores {
  import opened Wrappers
  import opened AssetModel

  /** One persistence write, in the order the facade makes them. */
  datatype Write =
    | AssetBlobCreated(record: AssetBlob)
    | AttributesUpdated(asset: Asset)
    | BlobLinkUpdated(asset: Asset)
    | DownloadMarked(path: string)
    | AssetDeleted(path: string)

  /** The asset table after updating the attributes of `a`'s row, if the row exists. */
  function WithAttributes(rows: map<string, Asset>, a: Asset): map<string, Asset>
  {
    if a.path in rows then rows[a.path := rows[a.path].(attributes := a.attributes)] else rows
  }

  /** The asset table after updating the blob link of `a`'s row, if the row exists. */
  function WithBlobLink(rows: map<string, Asset>, a: Asset): map<string, Asset>
  {
    if a.path in rows then rows[a.path := rows[a.path].(blob := a.blob)] else rows
  }

  class Stores {
    const blobStoreName: string
    var blobs: map<BlobId, Blob>
    var nextBlobId: BlobId
    var assetBlobs: seq<AssetBlob>
    var assets: map<string, Asset>
    var log: seq<Write>

    /**
     * Every stored blob sits under its own id, below the next id to assign,
     * and the asset-blob table has at most one row per reference key.
     */
    ghost predicate Valid()
      reads this
    {
      && (forall id :: id in blobs ==> id < nextBlobId && blobs[id].id == id)
      && UniqueRefs(assetBlobs)
    }

    constructor (blobStoreName: string, blobs: map<BlobId, Blob>, nextBlobId: BlobId,
                 assetBlobs: seq<AssetBlob>, assets: map<string, Asset>)
      requires forall id :: id in blobs ==> id < nextBlobId && blobs[id].id == id
      requires UniqueRefs(assetBlobs)
      ensures Valid()
      ensures this.blobStoreName == blobStoreName && this.blobs == blobs && this.nextBlobId == nextBlobId
      ensures this.assetBlobs == assetBlobs && this.assets == assets && this.log == []
    {
      this.blobStoreName := blobStoreName;
      this.blobs := blobs;
      this.nextBlobId := nextBlobId;
      this.assetBlobs := assetBlobs;
      this.assets := assets;
      this.log := [];
    }

    /** Blob-store lookup, which misses when the store has no blob under `id`. */
    function GetBlob(id: BlobId): (r: Option<Blob>)
      reads this
      ensures r.Some? <==> id in blobs
      ensures r.Some? ==> r.value == blobs[id]
    {
      if id in blobs then Some(blobs[id]) else None
    }

    /**
     * Blob-store copy: a new blob under a fresh id with the source's content
     * and the given headers; copying a source the store lacks fails.
     */
    method Copy(source: BlobId, headers: map<string, string>, now: int) returns (r: Result<Blob, Error>)
      requires Valid()
      modifies this
      ensures Valid()
      ensures source !in old(blobs) ==> r == Failure(CopySourceMissing(source)) && unchanged(this)
      ensures source in old(blobs) ==>
        && r == Success(Blob(old(nextBlobId), headers, old(blobs)[source].contentSize, now))
        && r.value.id !in old(blobs)
        && blobs == old(blobs)[r.value.id := r.value]
        && nextBlobId == old(nextBlobId) + 1
      ensures assetBlobs == old(assetBlobs) && assets == old(assets) && log == old(log)
    {
      if source !in blobs {
        return Failure(CopySourceMissing(source));
      }
      var copied := Blob(nextBlobId, headers, blobs[source].contentSize, now);
      blobs := blobs[nextBlobId := copied];
      nextBlobId := nextBlobId + 1;
      r := Success(copied);
    }

    /** Asset-blob read by reference key. */
    function ReadAssetBlob(ref: BlobRef): (r: Option<AssetBlob>)
      reads this
      ensures r.Some? ==> r.value in assetBlobs && r.value.blobRef == ref
      ensures r.None? <==> forall i :: 0 <= i < |assetBlobs| ==> assetBlobs[i].blobRef != ref
    {
      FindRecord(assetBlobs, ref)
    }

    /** Asset-blob create: appends the row, whatever rows the table already holds. */
    method CreateAssetBlob(record: AssetBlob)
      modifies this
      ensures assetBlobs == old(assetBlobs) + [record]
      ensures log == old(log) + [AssetBlobCreated(record)]
      ensures blobs == old(blobs) && nextBlobId == old(nextBlobId) && assets == old(assets)
    {
      assetBlobs := assetBlobs + [record];
      log := log + [AssetBlobCreated(record)];
    }

    /** Writes the attributes of `a` to its row. */
    method UpdateAssetAttributes(a: Asset)
      requires Valid()
      modifies this
      ensures Valid()
      ensures assets == WithAttributes(old(assets), a)
      ensures log == old(log) + [AttributesUpdated(a)]
      ensures blobs == old(blobs) && nextBlobId == old(nextBlobId) && assetBlobs == old(assetBlobs)
    {
      assets := WithAttributes(assets, a);
      log := log + [AttributesUpdated(a)];
    }

    /** Writes the blob link of `a` to its row. */
    method UpdateAssetBlobLink(a: Asset)
      modifies this
      ensures assets == WithBlobLink(old(assets), a)
      ensures log == old(log) + [BlobLinkUpdated(a)]
      ensures blobs == old(blobs) && nextBlobId == old(nextBlobId) && assetBlobs == old(assetBlobs)
    {
      assets := WithBlobLink(assets, a);
      log := log + [BlobLinkUpdated(a)];
    }

    /** Records that `a` was downloaded. */
    method MarkAsDownloaded(a: Asset)
      requires Valid()
      modifies this
      ensures Valid()
      ensures log == old(log) + [DownloadMarked(a.path)]
      ensures blobs == old(blobs) && nextBlobId == old(nextBlobId)
      ensures assetBlobs == old(assetBlobs) && assets == old(assets)
    {
      log := log + [DownloadMarked(a.path)];
    }

    /** Removes `a`'s row and reports whether there was one to remove. */
    method DeleteAsset(a: Asset) returns (removed: bool)
      requires Valid()
      modifies this
      ensures Valid()
      ensures removed == (a.path in old(assets))
      ensures assets == old(assets) - {a.path}
      ensures log == old(log) + [AssetDeleted(a.path)]
      ensures blobs == old(blobs) && nextBlobId == old(nextBlobId) && assetBlobs == old(assetBlobs)
    {
      removed := a.path in assets;
      assets := assets - {a.path};
      log := log + [AssetDeleted(a.path)];
    }
  }
}
