/**
 * Values the asset facade works with: physical blobs, composite blob
 * references, asset-blob metadata records, assets, and the failures the
 * facade raises. Also the pure steps of attaching: the headers of a
 * promoted blob, the checksum mapping, and lookup-or-create of the
 * metadata record in the asset-blob table.
 */
module AssetModel {
  import opened Wrappers
  import opened AttributeTree

  /** Physical id the blob store assigns to a blob. */
  type BlobId = nat

  /** Header keys of a stored blob. */
  const REPO_NAME_HEADER := "Bucket.repo-name"
  const BLOB_NAME_HEADER := "BlobStore.blob-name"
  const CREATED_BY_HEADER := "BlobStore.created-by"
  const CREATED_BY_IP_HEADER := "BlobStore.created-by-ip"
  const CONTENT_TYPE_HEADER := "BlobStore.content-type"

  /** A physical blob: its id, its headers and its metrics (size, creation time). */
  datatype Blob = Blob(id: BlobId, headers: map<string, string>, contentSize: nat, creationTime: int)

  /** Composite reference: node identity, blob-store name and the store's blob id. */
  datatype BlobRef = BlobRef(node: string, store: string, blob: BlobId)

  /** A checksum algorithm, identified by its name. */
  datatype HashAlgorithm = HashAlgorithm(name: string)

  /** A digest, carried in its rendered hexadecimal form. */
  datatype HashCode = HashCode(hex: string)

  /** Metadata record describing one physical blob. */
  datatype AssetBlob = AssetBlob(
    blobRef: BlobRef,
    blobSize: nat,
    contentType: Option<string>,
    checksums: map<string, string>,
    blobCreated: int,
    createdBy: Option<string>,
    createdByIp: Option<string>)

  /** A repository asset: its path, kind, linked metadata record, attributes and download time. */
  datatype Asset = Asset(
    path: string,
    kind: string,
    blob: Option<AssetBlob>,
    attributes: Attributes,
    lastDownloaded: Option<int>)

  /** The failures the facade raises; each ends the current call. */
  datatype Error =
    | AttachNotAllowed
    | DeleteNotAllowed
    | ContentTypeRejected
    | NullHeader(header: string)
    | NoBlobAttached(path: string)
    | MissingBlob(blobRef: BlobRef)
    | CopySourceMissing(source: BlobId)
    | OverlayNotAMap(key: string)

  /** A header of `headers`, absent when the blob has no such header. */
  function Header(headers: map<string, string>, name: string): Option<string>
  {
    if name in headers then Some(headers[name]) else None
  }

  /**
   * Headers under which a temporary blob is made permanent: the repository
   * name and the creator's identity and address copied from the temporary
   * blob, the asset path as blob name, and the content type the content-type
   * check resolved. A header the temporary blob lacks is a null value, which
   * the header builder rejects; a rejected content type aborts too.
   */
  function PermanentHeaders(tempHeaders: map<string, string>, path: string, contentType: Option<string>)
    : (r: Result<map<string, string>, Error>)
    ensures r.Success? <==>
      REPO_NAME_HEADER in tempHeaders && CREATED_BY_HEADER in tempHeaders &&
      CREATED_BY_IP_HEADER in tempHeaders && contentType.Some?
    ensures r.Success? ==>
      r.value.Keys == {REPO_NAME_HEADER, BLOB_NAME_HEADER, CREATED_BY_HEADER, CREATED_BY_IP_HEADER, CONTENT_TYPE_HEADER} &&
      r.value[REPO_NAME_HEADER] == tempHeaders[REPO_NAME_HEADER] &&
      r.value[BLOB_NAME_HEADER] == path &&
      r.value[CREATED_BY_HEADER] == tempHeaders[CREATED_BY_HEADER] &&
      r.value[CREATED_BY_IP_HEADER] == tempHeaders[CREATED_BY_IP_HEADER] &&
      r.value[CONTENT_TYPE_HEADER] == contentType.value
    ensures REPO_NAME_HEADER !in tempHeaders ==> r == Failure(NullHeader(REPO_NAME_HEADER))
    ensures REPO_NAME_HEADER in tempHeaders && CREATED_BY_HEADER !in tempHeaders ==>
      r == Failure(NullHeader(CREATED_BY_HEADER))
    ensures REPO_NAME_HEADER in tempHeaders && CREATED_BY_HEADER in tempHeaders && CREATED_BY_IP_HEADER !in tempHeaders ==>
      r == Failure(NullHeader(CREATED_BY_IP_HEADER))
    ensures (r.Failure? && REPO_NAME_HEADER in tempHeaders && CREATED_BY_HEADER in tempHeaders &&
             CREATED_BY_IP_HEADER in tempHeaders) ==> r == Failure(ContentTypeRejected)
  {
    if REPO_NAME_HEADER !in tempHeaders then Failure(NullHeader(REPO_NAME_HEADER))
    else if CREATED_BY_HEADER !in tempHeaders then Failure(NullHeader(CREATED_BY_HEADER))
    else if CREATED_BY_IP_HEADER !in tempHeaders then Failure(NullHeader(CREATED_BY_IP_HEADER))
    else if contentType.None? then Failure(ContentTypeRejected)
    else
      Success(map[
        REPO_NAME_HEADER := tempHeaders[REPO_NAME_HEADER],
        BLOB_NAME_HEADER := path,
        CREATED_BY_HEADER := tempHeaders[CREATED_BY_HEADER],
        CREATED_BY_IP_HEADER := tempHeaders[CREATED_BY_IP_HEADER],
        CONTENT_TYPE_HEADER := contentType.value])
  }

  /** The checksum mapping of a record: each algorithm's name to its hexadecimal digest. */
  function ChecksumMap(checksums: map<HashAlgorithm, HashCode>): (r: map<string, string>)
    ensures r.Keys == set a | a in checksums :: a.name
    ensures forall a :: a in checksums ==> r[a.name] == checksums[a].hex
  {
    map a | a in checksums :: a.name := checksums[a].hex
  }

  /**
   * The record created for a blob that has none yet: keyed by `ref`, with the
   * blob's size and creation time, the content type and creator taken from
   * its headers, and the checksum mapping of the given digests.
   */
  function NewAssetBlob(ref: BlobRef, blob: Blob, checksums: map<HashAlgorithm, HashCode>): (r: AssetBlob)
    ensures r.blobRef == ref && r.blobSize == blob.contentSize && r.blobCreated == blob.creationTime
    ensures r.contentType == Header(blob.headers, CONTENT_TYPE_HEADER)
    ensures r.createdBy == Header(blob.headers, CREATED_BY_HEADER)
    ensures r.createdByIp == Header(blob.headers, CREATED_BY_IP_HEADER)
    ensures r.checksums.Keys == set a | a in checksums :: a.name
    ensures forall a :: a in checksums ==> r.checksums[a.name] == checksums[a].hex
  {
    AssetBlob(
      blobRef := ref,
      blobSize := blob.contentSize,
      contentType := Header(blob.headers, CONTENT_TYPE_HEADER),
      checksums := ChecksumMap(checksums),
      blobCreated := blob.creationTime,
      createdBy := Header(blob.headers, CREATED_BY_HEADER),
      createdByIp := Header(blob.headers, CREATED_BY_IP_HEADER))
  }

  // The asset-blob table: a sequence of rows with no uniqueness constraint of
  // its own. One row per reference key is an invariant the facade keeps.

  /** The first row whose reference key is `ref`. */
  function FindRecord(rows: seq<AssetBlob>, ref: BlobRef): (r: Option<AssetBlob>)
    ensures r.Some? ==> r.value in rows && r.value.blobRef == ref
    ensures r.None? <==> forall i :: 0 <= i < |rows| ==> rows[i].blobRef != ref
  {
    if rows == [] then None
    else if rows[0].blobRef == ref then Some(rows[0])
    else FindRecord(rows[1..], ref)
  }

  /** Number of rows whose reference key is `ref`. */
  function CountRef(rows: seq<AssetBlob>, ref: BlobRef): nat
  {
    if rows == [] then 0
    else (if rows[0].blobRef == ref then 1 else 0) + CountRef(rows[1..], ref)
  }

  /** At most one row per reference key. */
  ghost predicate UniqueRefs(rows: seq<AssetBlob>)
  {
    forall ref :: CountRef(rows, ref) <= 1
  }

  /** A key has no row exactly when no row is found for it. */
  lemma {:induction false} CountZeroIffNotFound(rows: seq<AssetBlob>, ref: BlobRef)
    ensures CountRef(rows, ref) == 0 <==> FindRecord(rows, ref).None?
  {
    if rows != [] {
      CountZeroIffNotFound(rows[1..], ref);
    }
  }

  /** Appending a row adds one to the count of its own key and to no other. */
  lemma {:induction false} CountAppend(rows: seq<AssetBlob>, row: AssetBlob, ref: BlobRef)
    ensures CountRef(rows + [row], ref) == CountRef(rows, ref) + (if row.blobRef == ref then 1 else 0)
  {
    if rows != [] {
      assert (rows + [row])[1..] == rows[1..] + [row];
      CountAppend(rows[1..], row, ref);
    } else {
      assert [] + [row] == [row];
    }
  }

  /** Appending a row leaves the first match of every other key where it was. */
  lemma {:induction false} FindAppendOther(rows: seq<AssetBlob>, row: AssetBlob, ref: BlobRef)
    requires row.blobRef != ref
    ensures FindRecord(rows + [row], ref) == FindRecord(rows, ref)
  {
    if rows != [] {
      assert (rows + [row])[1..] == rows[1..] + [row];
      FindAppendOther(rows[1..], row, ref);
    } else {
      assert [] + [row] == [row];
    }
  }

  /**
   * Lookup-or-create: the record already stored for `ref`, with the table
   * unchanged, or a new record for `blob` appended as the table's only row
   * for `ref`.
   */
  function Resolve(rows: seq<AssetBlob>, ref: BlobRef, blob: Blob, checksums: map<HashAlgorithm, HashCode>)
    : (r: (AssetBlob, seq<AssetBlob>))
    ensures FindRecord(rows, ref).Some? ==> r == (FindRecord(rows, ref).value, rows)
    ensures FindRecord(rows, ref).None? ==> r == (NewAssetBlob(ref, blob, checksums), rows + [NewAssetBlob(ref, blob, checksums)])
  {
    match FindRecord(rows, ref)
    case Some(existing) => (existing, rows)
    case None =>
      var created := NewAssetBlob(ref, blob, checksums);
      (created, rows + [created])
  }

  /**
   * Lookup-or-create keeps one row per key: afterwards the table holds
   * exactly one row for `ref`, that row is the resolved record, and every
   * other key has the same rows and the same record as before.
   */
  lemma ResolveKeepsOneRowPerKey(rows: seq<AssetBlob>, ref: BlobRef, blob: Blob, checksums: map<HashAlgorithm, HashCode>)
    requires UniqueRefs(rows)
    ensures var (record, rows') := Resolve(rows, ref, blob, checksums);
            UniqueRefs(rows') &&
            CountRef(rows', ref) == 1 &&
            FindRecord(rows', ref) == Some(record) &&
            record.blobRef == ref &&
            forall other :: other != ref ==>
              CountRef(rows', other) == CountRef(rows, other) && FindRecord(rows', other) == FindRecord(rows, other)
  {
    var (record, rows') := Resolve(rows, ref, blob, checksums);
    CountZeroIffNotFound(rows, ref);
    if FindRecord(rows, ref).None? {
      forall other
        ensures CountRef(rows', other) == CountRef(rows, other) + (if other == ref then 1 else 0)
      {
        CountAppend(rows, record, other);
      }
      forall other | other != ref
        ensures FindRecord(rows', other) == FindRecord(rows, other)
      {
        FindAppendOther(rows, record, other);
      }
      CountZeroIffNotFound(rows', ref);
    } else {
      assert CountRef(rows, ref) <= 1;
    }
  }

  /**
   * Dedup across attaches: two lookups-or-creates for the same key, the
   * second against the table the first produced, resolve to the same
   * record; the second adds no row, and the key has exactly one row.
   */
  lemma ResolveTwiceSharesRecord(rows: seq<AssetBlob>, ref: BlobRef,
                                 blob1: Blob, checksums1: map<HashAlgorithm, HashCode>,
                                 blob2: Blob, checksums2: map<HashAlgorithm, HashCode>)
    requires UniqueRefs(rows)
    ensures var (record1, rows1) := Resolve(rows, ref, blob1, checksums1);
            var (record2, rows2) := Resolve(rows1, ref, blob2, checksums2);
            record2 == record1 && rows2 == rows1 && CountRef(rows2, ref) == 1
  {
    ResolveKeepsOneRowPerKey(rows, ref, blob1, checksums1);
  }
}
