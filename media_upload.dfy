/**
 * The media-upload hook of the post editor: a list of attachments, each a renamed file that is
 * uploading or carries the media id the upload service returned, plus the upload progress.
 * The upload service's own `isUploading` flag is a field here; it is raised when an upload
 * starts and lowered when the service reports completion or failure.
 */
module MediaUpload {
  import opened Wrappers
  import opened Entities
  import Seqs

  /** At most this many attachments per post. */
  const MaxAttachments := 5
  const WaitForUpload := "Please wait for the current upload to finish."
  const TooManyAttachments := "You can only upload up to 5 attachments per post."

  datatype FileInfo = FileInfo(name: string, kind: string)
  datatype Attachment = Attachment(file: FileInfo, mediaId: Option<Id>, isUploading: bool)
  /** One entry of the service's completion report: the uploaded file's name and its media id. */
  datatype UploadResult = UploadResult(name: string, mediaId: Id)

  predicate NoDot(s: string)
  {
    forall i :: 0 <= i < |s| ==> s[i] != '.'
  }

  /** `name.split(".").pop()`: the text after the last dot, or the whole name when it has none. */
  function Extension(name: string): (r: string)
    ensures |r| <= |name| && r == name[|name| - |r|..]
    ensures NoDot(r)
    ensures |r| < |name| ==> name[|name| - |r| - 1] == '.'
  {
    if name == [] || name[|name| - 1] == '.' then []
    else Extension(name[..|name| - 1]) + [name[|name| - 1]]
  }

  /** A name ending in a dot and a dot-free text has that text as its extension. */
  lemma {:induction false} ExtensionAfterDot(stem: string, ext: string)
    requires NoDot(ext)
    ensures Extension(stem + "." + ext) == ext
  {
    var name := stem + "." + ext;
    if ext != [] {
      var shorter := ext[..|ext| - 1];
      assert name[..|name| - 1] == stem + "." + shorter;
      assert name[|name| - 1] == ext[|ext| - 1];
      ExtensionAfterDot(stem, shorter);
    } else {
      assert name[|name| - 1] == '.';
    }
  }

  /** The name `onBeforeUploadBegin` gives a file: `attachment_<uuid>.<extension>`. */
  function RenamedName(name: string, uuid: string): string
  {
    "attachment_" + uuid + "." + Extension(name)
  }

  /** Renaming keeps the file's extension. */
  lemma RenamedKeepsExtension(name: string, uuid: string)
    ensures Extension(RenamedName(name, uuid)) == Extension(name)
  {
    ExtensionAfterDot("attachment_" + uuid, Extension(name));
  }

  /** What precedes the extension and its dot. */
  function Stem(name: string): string
  {
    if |Extension(name)| < |name| then name[..|name| - |Extension(name)| - 1] else name
  }

  /** The stem of a renamed file holds the identifier it was given. */
  lemma StemOfRenamed(name: string, uuid: string)
    ensures Stem(RenamedName(name, uuid)) == "attachment_" + uuid
  {
    var prefix := "attachment_" + uuid;
    var ext := Extension(name);
    var full := RenamedName(name, uuid);
    assert full == prefix + "." + ext;
    ExtensionAfterDot(prefix, ext);
    assert Extension(full) == ext;
    assert |full| - |ext| - 1 == |prefix|;
    assert Stem(full) == full[..|prefix|];
    assert full[..|prefix|] == prefix;
  }

  /** Distinct identifiers give distinct names, whatever the original names were. */
  lemma RenamedNamesDistinct(name1: string, uuid1: string, name2: string, uuid2: string)
    requires uuid1 != uuid2
    ensures RenamedName(name1, uuid1) != RenamedName(name2, uuid2)
  {
    StemOfRenamed(name1, uuid1);
    StemOfRenamed(name2, uuid2);
    assert ("attachment_" + uuid1)[11..] == uuid1;
    assert ("attachment_" + uuid2)[11..] == uuid2;
  }

  /** The renamed files, one identifier per file; the type is kept. */
  function Renamed(files: seq<FileInfo>, uuids: seq<string>): (r: seq<FileInfo>)
    requires |uuids| == |files|
    ensures |r| == |files|
    ensures forall i :: 0 <= i < |r| ==> r[i] == FileInfo(RenamedName(files[i].name, uuids[i]), files[i].kind)
  {
    seq(|files|, i requires 0 <= i < |files| => FileInfo(RenamedName(files[i].name, uuids[i]), files[i].kind))
  }

  /** The attachments after an upload begins: the previous ones, then one uploading entry per file. */
  function WithNewUploads(prev: seq<Attachment>, files: seq<FileInfo>): (r: seq<Attachment>)
    ensures |r| == |prev| + |files| && r[..|prev|] == prev
    ensures forall i :: 0 <= i < |files| ==> r[|prev| + i] == Attachment(files[i], None, true)
  {
    prev + seq(|files|, i requires 0 <= i < |files| => Attachment(files[i], None, true))
  }

  /** `res.find(r => r.name === name)`: the first result for the name. */
  function FindResult(res: seq<UploadResult>, name: string): (r: Option<UploadResult>)
    ensures r.None? <==> forall j :: 0 <= j < |res| ==> res[j].name != name
    ensures r.Some? ==> exists j :: (0 <= j < |res| && res[j] == r.value && r.value.name == name &&
                                     forall k :: 0 <= k < j ==> res[k].name != name)
  {
    if res == [] then None
    else if res[0].name == name then Some(res[0])
    else
      var rest := FindResult(res[1..], name);
      assert rest.Some? ==> exists j :: (0 <= j < |res| && res[j] == rest.value && rest.value.name == name &&
                                         forall k :: 0 <= k < j ==> res[k].name != name) by {
        if rest.Some? {
          var j :| 0 <= j < |res| - 1 && res[1..][j] == rest.value && rest.value.name == name &&
            forall k :: 0 <= k < j ==> res[1..][k].name != name;
          assert forall k :: 1 <= k < j + 1 ==> res[k].name == res[1..][k - 1].name;
        }
      }
      rest
  }

  /** One attachment after the completion report: with a result it carries the id and is no longer uploading. */
  function CompletedOne(a: Attachment, res: seq<UploadResult>): Attachment
  {
    match FindResult(res, a.file.name)
    case None => a
    case Some(result) => Attachment(a.file, Some(result.mediaId), false)
  }

  /** The attachments after `onClientUploadComplete`. */
  function Completed(prev: seq<Attachment>, res: seq<UploadResult>): (r: seq<Attachment>)
    ensures |r| == |prev|
    ensures forall i :: 0 <= i < |r| ==> r[i].file == prev[i].file
    ensures forall i :: 0 <= i < |r| && FindResult(res, prev[i].file.name).None? ==> r[i] == prev[i]
    ensures forall i :: 0 <= i < |r| && FindResult(res, prev[i].file.name).Some? ==>
      !r[i].isUploading && r[i].mediaId == Some(FindResult(res, prev[i].file.name).value.mediaId)
  {
    seq(|prev|, i requires 0 <= i < |prev| => CompletedOne(prev[i], res))
  }

  /** Applying the same report twice is applying it once. */
  lemma CompletedIdempotent(prev: seq<Attachment>, res: seq<UploadResult>)
    ensures Completed(Completed(prev, res), res) == Completed(prev, res)
  {
  }

  /** A report naming every uploading file leaves nothing uploading. */
  lemma CompletedFinishesReported(prev: seq<Attachment>, res: seq<UploadResult>)
    requires forall i :: 0 <= i < |prev| && prev[i].isUploading ==> exists j :: 0 <= j < |res| && res[j].name == prev[i].file.name
    ensures forall i :: 0 <= i < |prev| ==> !Completed(prev, res)[i].isUploading
  {
    forall i | 0 <= i < |prev|
      ensures !Completed(prev, res)[i].isUploading
    {
      if prev[i].isUploading {
        var j :| 0 <= j < |res| && res[j].name == prev[i].file.name;
        assert FindResult(res, prev[i].file.name).Some?;
      }
    }
  }

  function IsSettled(a: Attachment): bool
  {
    !a.isUploading
  }

  /** The attachments after `onUploadError`: the uploading ones are dropped. */
  function WithoutUploading(prev: seq<Attachment>): (r: seq<Attachment>)
    ensures forall i :: 0 <= i < |r| ==> !r[i].isUploading && r[i] in prev
    ensures forall i :: 0 <= i < |prev| && !prev[i].isUploading ==> prev[i] in r
  {
    Seqs.Filter(prev, IsSettled)
  }

  /** Dropping the uploading attachments twice is dropping them once. */
  lemma WithoutUploadingIdempotent(prev: seq<Attachment>)
    ensures WithoutUploading(WithoutUploading(prev)) == WithoutUploading(prev)
  {
    Seqs.FilterIdempotent(prev, IsSettled);
  }

  /** The attachments after `removeAttachment(name)`. */
  function WithoutNamed(prev: seq<Attachment>, name: string): (r: seq<Attachment>)
    ensures forall i :: 0 <= i < |r| ==> r[i].file.name != name && r[i] in prev
    ensures forall i :: 0 <= i < |prev| && prev[i].file.name != name ==> prev[i] in r
  {
    Seqs.Filter(prev, (a: Attachment) => a.file.name != name)
  }

  class MediaUploader {
    var attachments: seq<Attachment>
    var uploadProgress: Option<int>
    var isUploading: bool

    /** The per-post limit the editor keeps. */
    ghost predicate Valid()
      reads this
    {
      |attachments| <= MaxAttachments
    }

    constructor()
      ensures attachments == [] && uploadProgress == None && !isUploading
      ensures Valid()
    {
      attachments := [];
      uploadProgress := None;
      isUploading := false;
    }

    /** `onBeforeUploadBegin`: rename every file with a fresh identifier and add it as uploading. */
    method OnBeforeUploadBegin(files: seq<FileInfo>, uuids: seq<string>) returns (renamed: seq<FileInfo>)
      requires |uuids| == |files|
      requires Valid() && |attachments| + |files| <= MaxAttachments
      modifies this
      ensures renamed == Renamed(files, uuids)
      ensures attachments == WithNewUploads(old(attachments), renamed)
      ensures uploadProgress == old(uploadProgress) && isUploading == old(isUploading)
      ensures Valid()
    {
      renamed := Renamed(files, uuids);
      attachments := WithNewUploads(attachments, renamed);
    }

    /** `onUploadProgress`. */
    method OnUploadProgress(progress: int)
      requires Valid()
      modifies this
      ensures uploadProgress == Some(progress)
      ensures attachments == old(attachments) && isUploading == old(isUploading)
      ensures Valid()
    {
      uploadProgress := Some(progress);
    }

    /** `onClientUploadComplete`: the reported files get their media ids; the upload is over. */
    method OnClientUploadComplete(res: seq<UploadResult>)
      requires Valid()
      modifies this
      ensures attachments == Completed(old(attachments), res) && !isUploading
      ensures uploadProgress == old(uploadProgress)
      ensures Valid()
    {
      attachments := Completed(attachments, res);
      isUploading := false;
    }

    /** `onUploadError`: the uploading attachments are dropped and the error is toasted. */
    method OnUploadError(message: string) returns (toast: Toast)
      requires Valid()
      modifies this
      ensures attachments == WithoutUploading(old(attachments)) && !isUploading
      ensures uploadProgress == old(uploadProgress)
      ensures toast == Toast(true, message)
      ensures Valid()
    {
      attachments := WithoutUploading(attachments);
      isUploading := false;
      toast := Toast(true, message);
    }

    /**
     * `handleStartUpload`: refused while an upload runs or when the post would exceed the
     * attachment limit; otherwise the upload starts and `onBeforeUploadBegin` runs.
     */
    method HandleStartUpload(files: seq<FileInfo>, uuids: seq<string>) returns (toast: Option<Toast>)
      requires |uuids| == |files|
      requires Valid()
      modifies this
      ensures old(isUploading) ==>
        toast == Some(Toast(true, WaitForUpload)) && attachments == old(attachments) && isUploading
      ensures !old(isUploading) && |old(attachments)| + |files| > MaxAttachments ==>
        toast == Some(Toast(true, TooManyAttachments)) && attachments == old(attachments) && !isUploading
      ensures !old(isUploading) && |old(attachments)| + |files| <= MaxAttachments ==>
        toast.None? && isUploading && attachments == WithNewUploads(old(attachments), Renamed(files, uuids))
      ensures uploadProgress == old(uploadProgress)
      ensures Valid()
    {
      if isUploading {
        return Some(Toast(true, WaitForUpload));
      }
      if |attachments| + |files| > MaxAttachments {
        return Some(Toast(true, TooManyAttachments));
      }
      isUploading := true;
      var _ := OnBeforeUploadBegin(files, uuids);
      toast := None;
    }

    /** `removeAttachment`. */
    method RemoveAttachment(name: string)
      requires Valid()
      modifies this
      ensures attachments == WithoutNamed(old(attachments), name)
      ensures uploadProgress == old(uploadProgress) && isUploading == old(isUploading)
      ensures Valid()
    {
      attachments := WithoutNamed(attachments, name);
    }

    /** `resetMediaUploads`. */
    method ResetMediaUploads()
      modifies this
      ensures attachments == [] && uploadProgress == None && isUploading == old(isUploading)
      ensures Valid()
    {
      attachments := [];
      uploadProgress := None;
    }
  }
}
