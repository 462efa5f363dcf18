/**
 * The upload page: the chosen files with one metadata draft per file, the
 * shared-metadata switch, and the multipart request the page posts.
 */
module UploadImagePage {
  import opened Wrappers
  import opened JsText
  import IC = ImageController

  /** A chosen file; only its name matters to the page. */
  datatype FileItem = FileItem(name: string)

  /** The text fields of one metadata form; tags are a comma-separated string. */
  datatype MetaDraft = MetaDraft(title: string, description: string, tags: string)

  const BlankMeta: MetaDraft := MetaDraft("", "", "")

  /** Which field an input edits. */
  datatype MetaField = TitleField | DescriptionField | TagsField

  /** `{ ...meta, [field]: value }`. */
  function WithField(m: MetaDraft, field: MetaField, value: string): (r: MetaDraft)
    ensures field == TitleField ==> r == MetaDraft(value, m.description, m.tags)
    ensures field == DescriptionField ==> r == MetaDraft(m.title, value, m.tags)
    ensures field == TagsField ==> r == MetaDraft(m.title, m.description, value)
  {
    match field
    case TitleField => m.(title := value)
    case DescriptionField => m.(description := value)
    case TagsField => m.(tags := value)
  }

  /** Editing a field twice keeps the last value; edits of different fields commute. */
  lemma LastEditWins(m: MetaDraft, f: MetaField, g: MetaField, a: string, b: string)
    ensures WithField(WithField(m, f, a), f, b) == WithField(m, f, b)
    ensures f != g ==> WithField(WithField(m, f, a), g, b) == WithField(WithField(m, g, b), f, a)
  {
  }

  /** The names of the held files. */
  function Names(files: seq<FileItem>): set<string> {
    set i | 0 <= i < |files| :: files[i].name
  }

  /** The chosen files whose name is not already held, in the order chosen. */
  function NewFiles(held: seq<FileItem>, chosen: seq<FileItem>): (r: seq<FileItem>)
    ensures |r| <= |chosen|
    ensures forall f :: f in r <==> f in chosen && f.name !in Names(held)
  {
    Filter(chosen, (f: FileItem) => f.name !in Names(held))
  }

  /** The check is against the held files only: a name chosen twice at once is added twice. */
  lemma DuplicatesInOneChoiceAreKept(f: FileItem)
    ensures NewFiles([], [f, f]) == [f, f]
  {
    FilterKeepsAll([f, f], (g: FileItem) => g.name !in Names([]));
  }

  /** `n` blank metadata drafts. */
  function Blanks(n: nat): (r: seq<MetaDraft>)
    ensures |r| == n && forall i :: 0 <= i < n ==> r[i] == BlankMeta
  {
    seq(n, _ => BlankMeta)
  }

  /** The parsed `metadata` array: each draft with its tags split on ",". */
  function Entries(individual: seq<MetaDraft>): (r: seq<IC.MetaEntry>)
    ensures |r| == |individual|
    ensures forall i :: 0 <= i < |r| ==>
      r[i] == IC.MetaEntry(Some(individual[i].title), Some(individual[i].description), Some(Split(individual[i].tags, ',')))
  {
    seq(|individual|, i requires 0 <= i < |individual| =>
      IC.MetaEntry(Some(individual[i].title), Some(individual[i].description), Some(Split(individual[i].tags, ','))))
  }

  /**
   * Splitting on "," loses nothing: each entry's tags, none of which holds
   * a comma, join back to the draft's tag string.
   */
  lemma EntryTagsJoinBack(individual: seq<MetaDraft>, i: nat)
    requires i < |individual|
    ensures Join(Entries(individual)[i].tags.value, ',') == individual[i].tags
    ensures forall k :: 0 <= k < |Entries(individual)[i].tags.value| ==> ',' !in Entries(individual)[i].tags.value[k]
  {
    JoinSplit(individual[i].tags, ',');
  }

  /**
   * The fields of the multipart request, as the server parses them: the
   * server takes the shared path exactly when the switch is on, and
   * otherwise finds one entry per draft.
   */
  function RequestBody(applySame: bool, common: MetaDraft, individual: seq<MetaDraft>): (r: IC.UploadBody)
    ensures IC.SharesMetadata(r) <==> applySame
    ensures !applySame ==> r.metadata.Some? && |r.metadata.value| == |individual|
  {
    if applySame then
      IC.UploadBody(Some("true"), Some(common.title), Some(common.description), Some(Split(common.tags, ',')), None)
    else
      IC.UploadBody(Some("false"), None, None, None, Some(Entries(individual)))
  }

  /** What the page posts. */
  datatype UploadRequest = UploadRequest(files: seq<FileItem>, body: IC.UploadBody)

  /**
   * With one draft per file, the server finds metadata for every file:
   * the shared fields, or the file's own draft, with the defaults for
   * blank title and description.
   */
  lemma EveryFileGetsMetadata(applySame: bool, common: MetaDraft, individual: seq<MetaDraft>, i: nat)
    requires !applySame ==> i < |individual|
    ensures IC.ResolveMetadata(RequestBody(applySame, common, individual), i).Some?
    ensures applySame ==>
      (IC.ResolveMetadata(RequestBody(applySame, common, individual), i).value ==
       IC.Metadata(if common.title != "" then common.title else IC.DefaultTitle,
                   if common.description != "" then common.description else IC.DefaultDescription,
                   Split(common.tags, ',')))
    ensures !applySame ==>
      (IC.ResolveMetadata(RequestBody(applySame, common, individual), i).value ==
       IC.Metadata(if individual[i].title != "" then individual[i].title else IC.DefaultTitle,
                   if individual[i].description != "" then individual[i].description else IC.DefaultDescription,
                   Split(individual[i].tags, ',')))
  {
  }

  /**
   * So the metadata of an upload from the page never stops it: every file
   * whose upload to the host succeeds gets a record to create.
   */
  lemma PageUploadsFailOnlyAtHost(applySame: bool, common: MetaDraft, individual: seq<MetaDraft>,
                                  uploader: Option<nat>, cloud: seq<Option<IC.CloudResult>>,
                                  stamp: int, i: nat)
    requires !applySame ==> i < |individual|
    ensures IC.UploadedDoc(RequestBody(applySame, common, individual), uploader, cloud, i, stamp).Some?
      <==> IC.CloudAt(cloud, i).Some?
  {
    EveryFileGetsMetadata(applySame, common, individual, i);
  }

  /** Empty tags are not "no tags": splitting "" gives one empty tag, which is stored. */
  lemma EmptyTagsGiveOneEmptyTag(common: MetaDraft, individual: seq<MetaDraft>, i: nat)
    requires common.tags == ""
    ensures IC.ResolveMetadata(RequestBody(true, common, individual), i).value.tags == [""]
  {
  }

  /** The page's state. */
  class UploadForm {
    var files: seq<FileItem>
    var applySame: bool
    var common: MetaDraft
    var individual: seq<MetaDraft>
    var loading: bool

    /** One metadata draft per file. */
    ghost predicate Valid()
      reads this
    {
      |files| == |individual|
    }

    constructor ()
      ensures Valid()
      ensures files == [] && applySame && common == BlankMeta && individual == [] && !loading
    {
      files, applySame, common, individual, loading := [], true, BlankMeta, [], false;
    }

    /** handleFileChange: appends the new names, each with a blank draft. */
    method HandleFileChange(chosen: seq<FileItem>)
      requires Valid()
      modifies this`files, this`individual
      ensures Valid()
      ensures files == old(files) + NewFiles(old(files), chosen)
      ensures individual == old(individual) + Blanks(|NewFiles(old(files), chosen)|)
    {
      var unique := NewFiles(files, chosen);
      files := files + unique;
      individual := individual + Blanks(|unique|);
    }

    /** removeFile: the same position leaves both lists. */
    method RemoveFile(index: nat)
      requires Valid()
      modifies this`files, this`individual
      ensures Valid()
      ensures files == RemoveAt(old(files), index)
      ensures individual == RemoveAt(old(individual), index)
    {
      files := RemoveAt(files, index);
      individual := RemoveAt(individual, index);
    }

    /** handleMetadataChange: one field of one draft. */
    method HandleMetadataChange(index: nat, field: MetaField, value: string)
      requires Valid() && index < |individual|
      modifies this`individual
      ensures Valid()
      ensures individual == old(individual)[index := WithField(old(individual)[index], field, value)]
    {
      individual := individual[index := WithField(individual[index], field, value)];
    }

    /** The shared-metadata checkbox. */
    method ToggleApplySame()
      modifies this`applySame
      ensures applySame == !old(applySame)
    {
      applySame := !applySame;
    }

    /** Editing one shared field. */
    method SetCommon(field: MetaField, value: string)
      modifies this`common
      ensures common == WithField(old(common), field, value)
    {
      common := WithField(common, field, value);
    }

    /**
     * handleUpload. Without files nothing is sent. Otherwise the files and
     * fields are posted; `postOk` is whether the request succeeds, and
     * only then are the files and both kinds of metadata reset.
     */
    method HandleUpload(postOk: bool) returns (sent: Option<UploadRequest>)
      requires Valid()
      modifies this`files, this`common, this`individual, this`loading
      ensures Valid()
      ensures loading == (old(files) == [] && old(loading))
      ensures old(files) == [] ==> sent == None
      ensures old(files) != [] ==>
        sent == Some(UploadRequest(old(files), RequestBody(applySame, old(common), old(individual))))
      ensures sent.Some? && postOk ==> files == [] && common == BlankMeta && individual == []
      ensures !(sent.Some? && postOk) ==>
        files == old(files) && common == old(common) && individual == old(individual)
    {
      if |files| == 0 {
        return None;
      }
      loading := true;
      sent := Some(UploadRequest(files, RequestBody(applySame, common, individual)));
      if postOk {
        files, common, individual := [], BlankMeta, [];
      }
      loading := false;
    }
  }
}
