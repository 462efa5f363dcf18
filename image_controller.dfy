/**
 * The image store behind the gallery: multi-file upload with shared or
 * per-file metadata, deletion by public id, and the newest-first listing.
 * The image host is an oracle: per file position, the upload's result or a
 * failure; per id position, whether the host's destroy answered "ok". The
 * database is one too: per file position, whether `Image.create` succeeds.
 */
module ImageController {
  import opened Wrappers
  import opened JsText
  import opened Mongo

  /** One entry of the parsed `metadata` array. */
  datatype MetaEntry = MetaEntry(title: Option<string>, description: Option<string>, tags: Option<seq<string>>)

  /** The multipart fields of an upload request (JSON fields already parsed). */
  datatype UploadBody = UploadBody(
    applySameMetadata: Option<string>,
    title: Option<string>,
    description: Option<string>,
    tags: Option<seq<string>>,
    metadata: Option<seq<MetaEntry>>)

  /** The metadata an image is stored with. */
  datatype Metadata = Metadata(title: string, description: string, tags: seq<string>)

  const DefaultTitle: string := "Untitled"
  const DefaultDescription: string := "No description"

  /** `x.title || "Untitled"`, `x.description || "No description"`, `x.tags ? x.tags : []`. */
  function Defaulted(e: MetaEntry): (m: Metadata)
    ensures m.title != "" && m.description != ""
    ensures m.title == (if Truthy(e.title) then e.title.value else DefaultTitle)
    ensures m.description == (if Truthy(e.description) then e.description.value else DefaultDescription)
    ensures m.tags == (if e.tags.Some? then e.tags.value else [])
  {
    Metadata(OrElse(e.title, DefaultTitle), OrElse(e.description, DefaultDescription), e.tags.GetOr([]))
  }

  /** Shared metadata is used only for the exact string "true". */
  predicate SharesMetadata(body: UploadBody) {
    body.applySameMetadata == Some("true")
  }

  /**
   * The metadata of the i-th file, or None where the handler throws: the
   * per-file array is present but has no i-th entry.
   */
  function ResolveMetadata(body: UploadBody, i: nat): (r: Option<Metadata>)
    ensures r.None? <==> !SharesMetadata(body) && body.metadata.Some? && i >= |body.metadata.value|
    ensures r.Some? ==> r.value.title != "" && r.value.description != ""
  {
    if SharesMetadata(body) then Some(Defaulted(MetaEntry(body.title, body.description, body.tags)))
    else match body.metadata
      case None => Some(Defaulted(MetaEntry(None, None, None)))
      case Some(entries) => if i < |entries| then Some(Defaulted(entries[i])) else None
  }

  /** With shared metadata every file gets the same metadata, whatever `metadata` holds. */
  lemma SharedMetadataIsUniform(body: UploadBody, i: nat, j: nat)
    requires SharesMetadata(body)
    ensures ResolveMetadata(body, i).Some? && ResolveMetadata(body, i) == ResolveMetadata(body, j)
    ensures ResolveMetadata(body, i).value.title == OrElse(body.title, DefaultTitle)
  {
  }

  /**
   * Any other flag value ("false", "True", absent) takes the per-file path:
   * the i-th entry, with the same defaults, or a failure when it is missing.
   */
  lemma PerFileMetadata(body: UploadBody, i: nat)
    requires !SharesMetadata(body)
    ensures body.metadata.None? ==> ResolveMetadata(body, i) == Some(Metadata(DefaultTitle, DefaultDescription, []))
    ensures body.metadata.Some? ==>
      (ResolveMetadata(body, i).Some? <==> i < |body.metadata.value|)
    ensures body.metadata.Some? && i < |body.metadata.value| ==>
      ResolveMetadata(body, i) == Some(Defaulted(body.metadata.value[i]))
  {
  }

  /** Resolved metadata never has an empty title or description. */
  lemma ResolvedMetadataNeverBlank(body: UploadBody, i: nat)
    requires ResolveMetadata(body, i).Some?
    ensures ResolveMetadata(body, i).value.title != ""
    ensures ResolveMetadata(body, i).value.description != ""
  {
  }

  /** What the host returns for one upload. */
  datatype CloudResult = CloudResult(secureUrl: string, publicId: string)

  /** A stored image. */
  datatype ImageDoc = ImageDoc(
    url: string,
    publicId: string,
    uploadedBy: Option<ObjectId>,
    title: string,
    description: string,
    tags: seq<string>,
    createdAt: int)

  /** The host's answer for the i-th file; a missing answer is a failure. */
  function CloudAt(cloud: seq<Option<CloudResult>>, i: nat): Option<CloudResult> {
    if i < |cloud| then cloud[i] else None
  }

  /**
   * The schema's `createdAt` default AS WRITTEN: `Date.now()` is called once,
   * when the schema is defined at `loadTime`, so every image gets that stamp.
   */
  function StampAsWritten(loadTime: int, now: int): int {
    loadTime
  }

  /** The evidently intended default (`Date.now` as a function): the creation time. */
  function Stamp(loadTime: int, now: int): int {
    now
  }

  /**
   * The record `Image.create` is given for the i-th file, stamped with
   * `stamp`, or None where the loop throws before it: the upload failed or
   * the file has no metadata entry.
   */
  function UploadedDoc(body: UploadBody, uploader: Option<ObjectId>, cloud: seq<Option<CloudResult>>,
                       i: nat, stamp: int): (r: Option<ImageDoc>)
    ensures r.Some? <==> CloudAt(cloud, i).Some? && ResolveMetadata(body, i).Some?
    ensures r.Some? ==>
      && r.value.url == CloudAt(cloud, i).value.secureUrl
      && r.value.publicId == CloudAt(cloud, i).value.publicId
      && r.value.uploadedBy == uploader && r.value.createdAt == stamp
      && Metadata(r.value.title, r.value.description, r.value.tags) == ResolveMetadata(body, i).value
  {
    match (CloudAt(cloud, i), ResolveMetadata(body, i))
    case (Some(res), Some(m)) =>
      Some(ImageDoc(res.secureUrl, res.publicId, uploader, m.title, m.description, m.tags, stamp))
    case _ => None
  }

  /** Whether `Image.create` succeeds for the i-th file; a missing answer is a failure. */
  function SavedAt(saved: seq<bool>, i: nat): bool {
    i < |saved| && saved[i]
  }

  /** Every createdAt is at least the next one. */
  predicate NewestFirst(s: seq<ImageDoc>) {
    forall i, j :: 0 <= i < j < |s| ==> s[i].createdAt >= s[j].createdAt
  }

  function InsertByDate(x: ImageDoc, s: seq<ImageDoc>): (r: seq<ImageDoc>)
    requires NewestFirst(s)
    ensures |r| == |s| + 1
    ensures r[0] == if s == [] || x.createdAt >= s[0].createdAt then x else s[0]
    ensures NewestFirst(r)
    ensures multiset(r) == multiset(s) + multiset{x}
  {
    if s == [] then [x]
    else if x.createdAt >= s[0].createdAt then [x] + s
    else
      assert s == [s[0]] + s[1..];
      [s[0]] + InsertByDate(x, s[1..])
  }

  /** `sort({ createdAt: -1 })`: newest first, equal stamps in store order. */
  function SortNewestFirst(s: seq<ImageDoc>): (r: seq<ImageDoc>)
    ensures NewestFirst(r)
    ensures multiset(r) == multiset(s)
  {
    if s == [] then []
    else
      assert s == [s[0]] + s[1..];
      InsertByDate(s[0], SortNewestFirst(s[1..]))
  }

  /** Some stored image has this public id. */
  predicate HasPublicId(s: seq<ImageDoc>, pid: string) {
    exists i :: 0 <= i < |s| && s[i].publicId == pid
  }

  /** Where the first image with that id is. */
  function FirstIndex(s: seq<ImageDoc>, pid: string): (k: nat)
    requires HasPublicId(s, pid)
    ensures k < |s| && s[k].publicId == pid
    ensures forall j :: 0 <= j < k ==> s[j].publicId != pid
  {
    if s[0].publicId == pid then 0
    else
      assert HasPublicId(s[1..], pid) by {
        var i :| 0 <= i < |s| && s[i].publicId == pid;
        assert s[1..][i - 1] == s[i];
      }
      1 + FirstIndex(s[1..], pid)
  }

  /** `findOneAndDelete({ public_id })`: removes the first image with that id, if any. */
  function RemoveFirst(s: seq<ImageDoc>, pid: string): (r: seq<ImageDoc>)
    ensures !HasPublicId(s, pid) ==> r == s
    ensures HasPublicId(s, pid) ==> |r| == |s| - 1
  {
    if HasPublicId(s, pid) then RemoveAt(s, FirstIndex(s, pid)) else s
  }

  /** What is left after a removal: the images before the first match, then those after it. */
  lemma RemoveFirstShape(s: seq<ImageDoc>, pid: string)
    requires HasPublicId(s, pid)
    ensures forall j :: 0 <= j < |RemoveFirst(s, pid)| ==>
      RemoveFirst(s, pid)[j] == if j < FirstIndex(s, pid) then s[j] else s[j + 1]
  {
    var k := FirstIndex(s, pid);
    var r := RemoveAt(s, k);
    assert RemoveFirst(s, pid) == r;
    forall j | 0 <= j < |r| ensures r[j] == if j < k then s[j] else s[j + 1] {
    }
  }

  /** Only the first image with that id goes: every image with another id is kept. */
  lemma RemoveFirstKeepsOthers(s: seq<ImageDoc>, pid: string)
    ensures forall i :: 0 <= i < |s| && s[i].publicId != pid ==> s[i] in RemoveFirst(s, pid)
  {
    if HasPublicId(s, pid) {
      var r, k := RemoveFirst(s, pid), FirstIndex(s, pid);
      RemoveFirstShape(s, pid);
      forall i | 0 <= i < |s| && s[i].publicId != pid ensures s[i] in r {
        if i < k { assert r[i] == s[i]; } else { assert r[i - 1] == s[i]; }
      }
    }
  }

  /** The first n ids removed, one after the other. */
  function RemoveAll(s: seq<ImageDoc>, ids: seq<string>, n: nat): seq<ImageDoc>
    requires n <= |ids|
  {
    if n == 0 then s else RemoveFirst(RemoveAll(s, ids, n - 1), ids[n - 1])
  }

  /** Public ids are unique in the store (the host issues a fresh id per upload). */
  predicate UniqueIds(s: seq<ImageDoc>) {
    forall i, j :: 0 <= i < j < |s| ==> s[i].publicId != s[j].publicId
  }

  lemma RemoveFirstUnique(s: seq<ImageDoc>, pid: string)
    requires UniqueIds(s)
    ensures UniqueIds(RemoveFirst(s, pid))
    ensures !HasPublicId(RemoveFirst(s, pid), pid)
  {
    if HasPublicId(s, pid) {
      RemoveFirstShape(s, pid);
    }
  }

  /** A removal never brings an id back. */
  lemma RemoveFirstKeepsAbsence(s: seq<ImageDoc>, pid: string, other: string)
    requires !HasPublicId(s, other)
    ensures !HasPublicId(RemoveFirst(s, pid), other)
  {
    if HasPublicId(s, pid) {
      RemoveFirstShape(s, pid);
    }
  }

  /** With unique ids, after the deletions no image carries any deleted id. */
  lemma {:induction false} DeletedIdsAreGone(s: seq<ImageDoc>, ids: seq<string>, n: nat)
    requires UniqueIds(s) && n <= |ids|
    ensures UniqueIds(RemoveAll(s, ids, n))
    ensures forall k :: 0 <= k < n ==> !HasPublicId(RemoveAll(s, ids, n), ids[k])
  {
    if n > 0 {
      DeletedIdsAreGone(s, ids, n - 1);
      var before, after := RemoveAll(s, ids, n - 1), RemoveAll(s, ids, n);
      assert after == RemoveFirst(before, ids[n - 1]);
      RemoveFirstUnique(before, ids[n - 1]);
      forall k | 0 <= k < n - 1 ensures !HasPublicId(after, ids[k]) {
        RemoveFirstKeepsAbsence(before, ids[n - 1], ids[k]);
      }
    }
  }

  /** No id is selected twice. */
  predicate DistinctIds(ids: seq<string>) {
    forall j, k :: 0 <= j < k < |ids| ==> ids[j] != ids[k]
  }

  /**
   * Removing other ids never removes an image with this one: an id that is
   * stored and differs from the first n ids is still found after their removal.
   */
  lemma {:induction false} OtherIdsStayFindable(s: seq<ImageDoc>, ids: seq<string>, n: nat, m: nat)
    requires n <= m < |ids|
    requires HasPublicId(s, ids[m])
    requires forall j :: 0 <= j < n ==> ids[j] != ids[m]
    ensures HasPublicId(RemoveAll(s, ids, n), ids[m])
  {
    if n > 0 {
      OtherIdsStayFindable(s, ids, n - 1, m);
      var before := RemoveAll(s, ids, n - 1);
      var i :| 0 <= i < |before| && before[i].publicId == ids[m];
      RemoveFirstKeepsOthers(before, ids[n - 1]);
      var after := RemoveFirst(before, ids[n - 1]);
      assert after == RemoveAll(s, ids, n);
      assert before[i] in after;
      var k :| 0 <= k < |after| && after[k] == before[i];
    }
  }

  /** The host's destroy answer for the i-th id; a missing answer is a failure. */
  function DestroyedAt(destroyed: seq<bool>, i: nat): bool {
    i < |destroyed| && destroyed[i]
  }

  /** The Image collection; `loadTime` is when the schema was defined. */
  class ImageStore {
    var images: seq<ImageDoc>
    const loadTime: int

    constructor (loadTime: int)
      ensures images == [] && this.loadTime == loadTime
    {
      images := [];
      this.loadTime := loadTime;
    }

    /**
     * uploadImages. `cloud[i]` is the host's answer for the i-th file and
     * `saved[i]` whether its `Image.create` succeeds; `now` is the time of
     * the request. Files are handled in order; the first failed upload,
     * missing metadata entry or failed create ends the request with 500,
     * and the images already created stay. Every record carries the
     * schema's stamp as written: the time the schema was loaded.
     */
    method UploadImages<F>(files: seq<F>, body: UploadBody, uploader: Option<ObjectId>,
                           cloud: seq<Option<CloudResult>>, saved: seq<bool>, now: int)
      returns (status: int, created: seq<ImageDoc>)
      modifies this`images
      ensures status in {201, 400, 500}
      ensures status == 400 <==> |files| == 0
      ensures images == old(images) + created
      ensures |created| <= |files|
      ensures forall i :: 0 <= i < |created| ==>
        UploadedDoc(body, uploader, cloud, i, StampAsWritten(loadTime, now)) == Some(created[i]) && SavedAt(saved, i)
      ensures forall i :: 0 <= i < |created| ==> created[i].createdAt == loadTime
      ensures status == 201 <==>
        |files| > 0 && forall i :: 0 <= i < |files| ==>
          UploadedDoc(body, uploader, cloud, i, StampAsWritten(loadTime, now)).Some? && SavedAt(saved, i)
      ensures status == 201 ==> |created| == |files|
      ensures status == 500 ==>
        && |created| < |files|
        && (UploadedDoc(body, uploader, cloud, |created|, StampAsWritten(loadTime, now)).None?
            || !SavedAt(saved, |created|))
    {
      if |files| == 0 {
        return 400, [];
      }
      created := [];
      var i := 0;
      while i < |files|
        invariant 0 <= i <= |files| && |created| == i
        invariant images == old(images) + created
        invariant forall k :: 0 <= k < i ==>
          UploadedDoc(body, uploader, cloud, k, StampAsWritten(loadTime, now)) == Some(created[k]) && SavedAt(saved, k)
      {
        var doc := UploadedDoc(body, uploader, cloud, i, StampAsWritten(loadTime, now));
        if doc.None? || !SavedAt(saved, i) {
          return 500, created;
        }
        images := images + [doc.value];
        created := created + [doc.value];
        i := i + 1;
      }
      status := 201;
    }

    /**
     * getImages: every stored image, newest first. `readOk` is whether the
     * query succeeds; a failure is answered with 500.
     */
    method GetImages(readOk: bool) returns (status: int, listed: seq<ImageDoc>)
      ensures status == 200 <==> readOk
      ensures status == 500 <==> !readOk
      ensures status == 200 ==> NewestFirst(listed) && multiset(listed) == multiset(images)
      ensures status == 500 ==> listed == []
    {
      if !readOk {
        return 500, [];
      }
      return 200, SortNewestFirst(images);
    }

    /**
     * deleteImages. Ids are handled in order; the first id with no image
     * (404) or whose destroy is not "ok" (500) ends the request, and the
     * images deleted before it stay deleted.
     */
    method DeleteImages(imageIds: Option<seq<string>>, destroyed: seq<bool>)
      returns (status: int, deleted: seq<string>)
      modifies this`images
      ensures status in {200, 400, 404, 500}
      ensures status == 400 <==> imageIds.None? || imageIds.value == []
      ensures status == 400 ==> deleted == [] && images == old(images)
      ensures |images| == |old(images)| - |deleted|
      ensures imageIds.Some? ==>
        && |deleted| <= |imageIds.value| && deleted == imageIds.value[..|deleted|]
        && images == RemoveAll(old(images), imageIds.value, |deleted|)
      ensures forall k :: 0 <= k < |deleted| ==> DestroyedAt(destroyed, k)
      ensures status == 200 ==> deleted == imageIds.value
      ensures status == 404 ==>
        |deleted| < |imageIds.value| && !HasPublicId(images, imageIds.value[|deleted|])
      ensures status == 500 ==>
        && |deleted| < |imageIds.value| && HasPublicId(images, imageIds.value[|deleted|])
        && !DestroyedAt(destroyed, |deleted|)
      ensures imageIds.Some? && imageIds.value != [] && DistinctIds(imageIds.value)
        && (forall k :: 0 <= k < |imageIds.value| ==>
              HasPublicId(old(images), imageIds.value[k]) && DestroyedAt(destroyed, k))
        ==> status == 200
    {
      if imageIds.None? || imageIds.value == [] {
        return 400, [];
      }
      ghost var before := images;
      var n;
      status, n := DeleteInOrder(imageIds.value, destroyed);
      deleted := imageIds.value[..n];
      if status != 200 && DistinctIds(imageIds.value)
        && (forall k :: 0 <= k < |imageIds.value| ==>
              HasPublicId(before, imageIds.value[k]) && DestroyedAt(destroyed, k))
      {
        OtherIdsStayFindable(before, imageIds.value, n, n);
      }
    }

    /** The loop of deleteImages; `n` is how many ids were deleted. */
    method DeleteInOrder(ids: seq<string>, destroyed: seq<bool>) returns (status: int, n: nat)
      modifies this`images
      ensures status in {200, 404, 500}
      ensures n <= |ids| && images == RemoveAll(old(images), ids, n)
      ensures |images| == |old(images)| - n
      ensures forall k :: 0 <= k < n ==> DestroyedAt(destroyed, k)
      ensures status == 200 <==> n == |ids|
      ensures status == 404 ==> n < |ids| && !HasPublicId(images, ids[n])
      ensures status == 500 ==> n < |ids| && HasPublicId(images, ids[n]) && !DestroyedAt(destroyed, n)
    {
      n := 0;
      while n < |ids|
        invariant n <= |ids|
        invariant images == RemoveAll(old(images), ids, n)
        invariant |images| == |old(images)| - n
        invariant forall k :: 0 <= k < n ==> DestroyedAt(destroyed, k)
      {
        if !HasPublicId(images, ids[n]) {
          return 404, n;
        }
        if !DestroyedAt(destroyed, n) {
          return 500, n;
        }
        images := RemoveFirst(images, ids[n]);
        n := n + 1;
      }
      status := 200;
    }
  }

  /**
   * As written, two images uploaded at different times carry the same
   * stamp, so either order counts as newest first: the listing's order
   * says nothing about upload time.
   */
  lemma AsWrittenStampsDoNotOrder(loadTime: int, t1: int, t2: int, older: ImageDoc, newer: ImageDoc)
    requires t1 < t2
    requires older.createdAt == StampAsWritten(loadTime, t1)
    requires newer.createdAt == StampAsWritten(loadTime, t2)
    ensures older.createdAt == newer.createdAt
    ensures NewestFirst([older, newer]) && NewestFirst([newer, older])
  {
  }

  /**
   * The records uploadImages creates all carry `loadTime`, so every
   * arrangement of them is a newest-first listing.
   */
  lemma AsWrittenAnyOrderIsNewestFirst(loadTime: int, created: seq<ImageDoc>, listed: seq<ImageDoc>)
    requires forall i :: 0 <= i < |created| ==> created[i].createdAt == loadTime
    requires multiset(listed) == multiset(created)
    ensures NewestFirst(listed)
  {
    forall i | 0 <= i < |listed| ensures listed[i].createdAt == loadTime {
      assert listed[i] in multiset(created);
      assert listed[i] in created;
    }
  }

  /** With the intended stamp, the later upload is listed first. */
  lemma StampListsNewerFirst(loadTime: int, t1: int, t2: int, older: ImageDoc, newer: ImageDoc)
    requires t1 < t2
    requires older.createdAt == Stamp(loadTime, t1)
    requires newer.createdAt == Stamp(loadTime, t2)
    ensures SortNewestFirst([older, newer]) == [newer, older]
    ensures forall s: seq<ImageDoc>, i, j :: NewestFirst(s) && 0 <= i < |s| && 0 <= j < |s| && s[i] == newer && s[j] == older ==> i < j
  {
    assert SortNewestFirst([newer]) == [newer];
    assert [older, newer][1..] == [newer];
    assert InsertByDate(older, [newer]) == [newer] + InsertByDate(older, [newer][1..]);
  }

  /**
   * `findOne({ public_id })` AS WRITTEN. The schema declares no `public_id`
   * path, so `Image.create` drops the id and no stored document has one.
   * When unknown filter paths are kept (`strictQuery` off) nothing matches;
   * when they are stripped (`strictQuery` on) the filter is empty and the
   * first stored document matches.
   */
  function FindOneAsWritten(stored: seq<ImageDoc>, strictQuery: bool): (r: Option<nat>)
    ensures r.Some? <==> strictQuery && stored != []
    ensures r.Some? ==> r.value < |stored|
  {
    if strictQuery && stored != [] then Some(0) else None
  }

  /**
   * deleteImages AS WRITTEN. The first id ends the request: either no
   * document is found (404), or the found document's id is undefined and
   * its destroy does not answer "ok" (500).
   */
  function DeleteStatusAsWritten(stored: seq<ImageDoc>, imageIds: Option<seq<string>>, strictQuery: bool): int {
    if imageIds.None? || imageIds.value == [] then 400
    else match FindOneAsWritten(stored, strictQuery)
      case None => 404
      case Some(_) => 500
  }

  /** As written, no selection is ever deleted, whatever the store holds. */
  lemma AsWrittenDeleteNeverSucceeds(stored: seq<ImageDoc>, imageIds: Option<seq<string>>, strictQuery: bool)
    requires imageIds.Some? && imageIds.value != []
    ensures DeleteStatusAsWritten(stored, imageIds, strictQuery) in {404, 500}
    ensures DeleteStatusAsWritten(stored, imageIds, strictQuery) == 404 <==> !strictQuery || stored == []
  {
  }
}
