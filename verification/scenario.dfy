/**
 * A client of the facade that attaches, re-attaches, downloads and
 * cache-marks one asset, relying on the facade's contracts alone.
 */
module Scenario {
  import opened Wrappers
  import opened AttributeTree
  import opened CacheState
  import opened AssetModel
  import opened ContentStores
  import opened FluentAssets

  /** The checksum mapping of a single digest has the algorithm's name as its only key. */
  lemma SingleChecksum(algorithm: HashAlgorithm, digest: HashCode)
    ensures ChecksumMap(map[algorithm := digest]) == map[algorithm.name := digest.hex]
  {
    var m := ChecksumMap(map[algorithm := digest]);
    assert m.Keys == {algorithm.name} by {
      assert (set a | a in map[algorithm := digest] :: a.name) == {algorithm.name};
    }
  }

  method AttachReattachDownload()
  {
    var headers := map[REPO_NAME_HEADER := "maven-releases", CREATED_BY_HEADER := "admin",
                       CREATED_BY_IP_HEADER := "10.0.0.1"];
    var temp := Blob(0, headers, 123, 1000);
    var stores := new Stores("default", map[0 := temp], 1, [], map["lib/foo-1.0.jar" := Asset("lib/foo-1.0.jar", "jar", None, map[], None)]);
    var facet := new ContentFacet("node-a", stores, _ => true, _ => true, (_, _) => Some("application/java-archive"));
    var foo := new FluentAsset(facet, Asset("lib/foo-1.0.jar", "jar", None, map[], None));
    var sha1 := map[HashAlgorithm("SHA1") := HashCode("deadbeef")];

    // First attach: a new record for the promoted blob.
    var r := foo.AttachTemp(TempBlob(temp, sha1), 2000);
    assert r == Pass;
    var ph := PermanentHeaders(headers, "lib/foo-1.0.jar", Some("application/java-archive"));
    assert ph.Success?;
    var copied := Blob(1, ph.value, 123, 2000);
    assert FindRecord([], foo.BlobRefOf(copied)).None?;
    assert stores.assetBlobs == [NewAssetBlob(foo.BlobRefOf(copied), copied, sha1)];
    var record := foo.asset.blob.value;
    assert record.blobSize == 123;
    assert record.contentType == Some("application/java-archive");
    SingleChecksum(HashAlgorithm("SHA1"), HashCode("deadbeef"));
    assert record.checksums == map["SHA1" := "deadbeef"];

    // Re-attaching the promoted blob resolves to the same reference key.
    var promoted := stores.blobs[1];
    assert promoted == copied;
    r := foo.AttachBlob(promoted, sha1);
    assert r == Pass;
    assert |stores.assetBlobs| == 1;
    assert foo.asset.blob == Some(record);

    var content := foo.Download();
    assert content.Success?;
    assert content.value.contentType == Some("application/java-archive");
    assert content.value.asset == foo;

    // Caching, invalidating, and invalidating again.
    var expiredWhenInvalidated := (i: CacheInfo) => i.cacheToken == Some(INVALIDATED);
    foo.MarkAsCached(CacheInfo(3000, Some("etag-1")));
    assert !foo.IsStale(expiredWhenInvalidated);
    ghost var cached := foo.asset.attributes;
    foo.MarkAsStale();
    assert foo.IsStale(expiredWhenInvalidated);
    var writes := |stores.log|;
    RepeatedOverlayUnchanged(cached, CACHE, Dict(map[CACHE_TOKEN := Text(INVALIDATED)]));
    foo.MarkAsStale();
    assert |stores.log| == writes;
  }
}
