/**
 * The media service: uploading one image, uploading several files and
 * deleting a stored file. The HTTP exchange is not modelled; what the
 * server answers (or the error the request rejects with) is an input, and
 * the model decides what the service returns from it.
 */
module Media {
  import opened Wrappers
  import opened WebFile
  import Decimal

  const MaxFileSize: nat := 5 * 1024 * 1024
  const DefaultProject := "ovoz"

  const NoFileMessage := "No file provided"
  const TooLargeMessage := "File size exceeds 5MB limit"
  const BadTypeMessage := "File type not supported. Please upload a JPEG or PNG image."
  const InvalidResponseMessage := "Invalid response from media server"
  const UploadedMessage := "File uploaded successfully"
  const UploadFallback := "Failed to upload file"

  const NoFilesMessage := "No files provided"
  const UploadedManyMessage := "Files uploaded successfully"
  const UploadManyFallback := "Failed to upload multiple files"

  const NoIdMessage := "No file ID provided"
  const DeletedMessage := "File deleted successfully"
  const UnexpectedDeleteMessage := "Failed to delete file: Unexpected response format"
  const DeleteFallback := "Failed to delete file"

  /** How a request ends: the server's response data, or the message of the error it rejected with. */
  datatype Reply<T> = Replied(data: T) | Failed(message: string)

  /** What the media server returns for an upload (`IMediaResponse`). */
  datatype MediaData = MediaData(url: Option<string>, key: Option<string>, project: Option<string>, id: Option<int>)

  /** What the media server returns for a deletion. */
  datatype DeleteData = DeleteData(key: Option<string>, success: Option<bool>, message: Option<string>)

  /** The object every service method resolves to: `{success, data, message}`. */
  datatype Outcome<T> = Outcome(success: bool, data: Option<T>, message: string)

  function Failure<T>(message: string): Outcome<T>
  {
    Outcome(false, None, message)
  }

  /** `error.message || fallback` in a `catch`. */
  function Caught(message: string, fallback: string): (r: string)
    ensures r != "" || fallback == ""
    ensures message != "" ==> r == message
  {
    if message != "" then message else fallback
  }

  /** The upload client from the environment, or "ovoz" when it is unset or empty. */
  function Project(client: Option<string>): (r: string)
    ensures r != ""
    ensures Truthy(client) ==> r == client.value
  {
    if Truthy(client) then client.value else DefaultProject
  }

  /* uploadFile */

  /** The MIME types `uploadFile` lets through. */
  predicate AllowedType(mimeType: string)
  {
    mimeType == "image/jpeg" || mimeType == "image/png" || mimeType == "image/jpg"
  }

  /** The first check an upload fails, as its message; `None` when the file may be sent. */
  function UploadCheck(file: Option<File>): (r: Option<string>)
    ensures r == None <==> file.Some? && file.value.size <= MaxFileSize && AllowedType(file.value.mimeType)
    ensures file == None ==> r == Some(NoFileMessage)
    ensures file.Some? && file.value.size > MaxFileSize ==> r == Some(TooLargeMessage)
    ensures file.Some? && file.value.size <= MaxFileSize && !AllowedType(file.value.mimeType) ==> r == Some(BadTypeMessage)
  {
    if file == None then Some(NoFileMessage)
    else if file.value.size > MaxFileSize then Some(TooLargeMessage)
    else if !AllowedType(file.value.mimeType) then Some(BadTypeMessage)
    else None
  }

  /**
   * The multipart body `uploadFile` posts, or `None` when a check fails and
   * nothing is sent: the file under "file", then the project.
   */
  function UploadRequest(file: Option<File>, client: Option<string>): (r: Option<seq<Entry>>)
    ensures r == None <==> UploadCheck(file).Some?
    ensures r.Some? ==> file.value.size <= MaxFileSize && AllowedType(file.value.mimeType)
    ensures r.Some? ==> r.value == [Entry("file", FilePart(file.value, file.value.name)),
                                    Entry("project", TextPart(Project(client)))]
  {
    if UploadCheck(file).Some? then None
    else Some([Entry("file", FilePart(file.value, file.value.name)), Entry("project", TextPart(Project(client)))])
  }

  /** The response data carries a truthy `url` and a truthy `key`. */
  predicate WellFormedUpload(data: Option<MediaData>)
  {
    data.Some? && Truthy(data.value.url) && Truthy(data.value.key)
  }

  /** `uploadFile`: the checks in order, then the shape of the server's answer; every failure is caught. */
  function UploadFile(file: Option<File>, client: Option<string>, reply: Reply<Option<MediaData>>): (r: Outcome<MediaData>)
    ensures r.success ==> reply.Replied? && r.data == reply.data && r.message == UploadedMessage
    ensures r.success ==> UploadRequest(file, client).Some?
    ensures !r.success ==> r.data == None && r.message != ""
  {
    var check := UploadCheck(file);
    if check.Some? then Failure(check.value)
    else match reply
      case Failed(message) => Failure(Caught(message, UploadFallback))
      case Replied(data) =>
        if WellFormedUpload(data) then Outcome(true, data, UploadedMessage)
        else Failure(InvalidResponseMessage)
  }

  /** An upload succeeds exactly when the file passes every check and the server answers with `url` and `key`. */
  lemma UploadSucceedsIff(file: Option<File>, client: Option<string>, reply: Reply<Option<MediaData>>)
    ensures UploadFile(file, client, reply).success
            <==> (file.Some? && file.value.size <= MaxFileSize && AllowedType(file.value.mimeType)
                  && reply.Replied? && WellFormedUpload(reply.data))
  {
  }

  /** A failed check answers with that check's message, whatever the server would have said: no request is made. */
  lemma UploadCheckFailsFirst(file: Option<File>, client: Option<string>, reply: Reply<Option<MediaData>>)
    requires UploadCheck(file).Some?
    ensures UploadFile(file, client, reply) == Failure(UploadCheck(file).value)
  {
  }

  /** The message of a failed upload is one of the service's own messages or the error's message. */
  lemma UploadFailureMessages(file: Option<File>, client: Option<string>, reply: Reply<Option<MediaData>>)
    requires !UploadFile(file, client, reply).success
    ensures var m := UploadFile(file, client, reply).message;
            m in {NoFileMessage, TooLargeMessage, BadTypeMessage, InvalidResponseMessage, UploadFallback}
            || (reply.Failed? && m == reply.message)
  {
  }

  /** A file of exactly 5 MiB is not too large for the service. */
  lemma ExactLimitPassesService(name: string)
    ensures UploadCheck(Some(File(name, "image/png", 5242880))) == None
  {
  }

  /* uploadMultipleFiles */

  /** The field name of the file at `index`: `file${index}`. */
  function FileField(index: nat): (r: string)
    ensures |r| > 4 && r[..4] == "file"
  {
    "file" + Decimal.ShowNat(index)
  }

  /** Every file under its own field, in order. */
  function FileFields(files: seq<File>): (r: seq<Entry>)
    ensures |r| == |files|
  {
    seq(|files|, i requires 0 <= i < |files| => Entry(FileField(i), FilePart(files[i], files[i].name)))
  }

  /** The i-th file goes under `file{i}`, and no two files share a field. */
  lemma FileFieldsDistinct(files: seq<File>)
    ensures forall i :: 0 <= i < |files| ==> FileFields(files)[i] == Entry(FileField(i), FilePart(files[i], files[i].name))
    ensures forall i, j :: 0 <= i < j < |files| ==> FileFields(files)[i].key != FileFields(files)[j].key
  {
    forall i, j | 0 <= i < j < |files|
      ensures FileFields(files)[i].key != FileFields(files)[j].key
    {
      if FileFields(files)[i].key == FileFields(files)[j].key {
        FileFieldInjective(i, j);
      }
    }
  }

  /** Distinct indices give distinct field names. */
  lemma FileFieldInjective(i: nat, j: nat)
    requires FileField(i) == FileField(j)
    ensures i == j
  {
    var a, b := FileField(i), FileField(j);
    assert a[4..] == Decimal.ShowNat(i);
    assert b[4..] == Decimal.ShowNat(j);
    Decimal.ShowNatRoundTrip(i);
    Decimal.ShowNatRoundTrip(j);
  }

  /** No file field is called "project". */
  lemma ProjectFieldIsSeparate(files: seq<File>)
    ensures forall i :: 0 <= i < |files| ==> FileFields(files)[i].key != "project"
  {
    forall i | 0 <= i < |files|
      ensures FileFields(files)[i].key != "project"
    {
      var k := FileFields(files)[i].key;
      assert k[..4] == "file";
      assert "project"[..4] == "proj";
    }
  }

  /** The `forEach` that appends every file, then the project. */
  method BuildMultipleForm(files: seq<File>, project: string) returns (formData: seq<Entry>)
    ensures formData == FileFields(files) + [Entry("project", TextPart(project))]
  {
    formData := [];
    var i := 0;
    while i < |files|
      invariant 0 <= i <= |files|
      invariant formData == FileFields(files)[..i]
    {
      formData := formData + [Entry(FileField(i), FilePart(files[i], files[i].name))];
      i := i + 1;
    }
    assert FileFields(files)[..i] == FileFields(files);
    formData := formData + [Entry("project", TextPart(project))];
  }

  /** The body `uploadMultipleFiles` sends, or `None` when there is nothing to send. */
  function MultipleUploadRequest(files: Option<seq<File>>, client: Option<string>): (r: Option<seq<Entry>>)
    ensures r == None <==> files == None || files.value == []
    ensures r.Some? ==> |r.value| == |files.value| + 1 && r.value[|files.value|] == Entry("project", TextPart(Project(client)))
  {
    if files == None || files.value == [] then None
    else Some(FileFields(files.value) + [Entry("project", TextPart(Project(client)))])
  }

  /** `uploadMultipleFiles`: an empty list fails; otherwise whatever the server answers is a success. */
  function UploadMultipleFiles<T>(files: Option<seq<File>>, client: Option<string>, reply: Reply<T>): (r: Outcome<T>)
    ensures r.success <==> MultipleUploadRequest(files, client).Some? && reply.Replied?
    ensures r.success ==> r.data == Some(reply.data) && r.message == UploadedManyMessage
    ensures MultipleUploadRequest(files, client) == None ==> r == Failure(NoFilesMessage)
    ensures !r.success && reply.Failed? && MultipleUploadRequest(files, client).Some?
            ==> r.message == Caught(reply.message, UploadManyFallback)
  {
    if files == None || files.value == [] then Failure(NoFilesMessage)
    else match reply
      case Failed(message) => Failure(Caught(message, UploadManyFallback))
      case Replied(data) => Outcome(true, Some(data), UploadedManyMessage)
  }

  /* deleteFile */

  /** The JSON body of a deletion. */
  datatype DeletePayload = DeletePayload(key: string, project: string)

  /** The body `deleteFile` posts, or `None` for an empty id (no request). */
  function DeleteRequest(fileId: string, client: Option<string>): (r: Option<DeletePayload>)
    ensures r == None <==> fileId == ""
    ensures r.Some? ==> r.value.key == fileId && r.value.project == Project(client)
  {
    if fileId == "" then None else Some(DeletePayload(fileId, Project(client)))
  }

  /** The server confirmed the deletion: truthy `key` or truthy `success`. */
  predicate ConfirmsDeletion(data: Option<DeleteData>)
  {
    data.Some? && (Truthy(data.value.key) || data.value.success == Some(true))
  }

  /** `deleteFile`: an empty id fails; otherwise the answer is classified and every error caught. */
  function DeleteFile(fileId: string, client: Option<string>, reply: Reply<Option<DeleteData>>): (r: Outcome<DeleteData>)
    ensures r.success ==> reply.Replied? && r.data == reply.data && r.message == DeletedMessage
    ensures !r.success ==> r.data == None && r.message != ""
  {
    if fileId == "" then Failure(NoIdMessage)
    else match reply
      case Failed(message) => Failure(Caught(message, DeleteFallback))
      case Replied(data) =>
        if ConfirmsDeletion(data) then Outcome(true, data, DeletedMessage)
        else if data.Some? && Truthy(data.value.message) then Failure(data.value.message.value)
        else Failure(UnexpectedDeleteMessage)
  }

  /** A deletion succeeds exactly when the id is non-empty and the server confirms it. */
  lemma DeleteSucceedsIff(fileId: string, client: Option<string>, reply: Reply<Option<DeleteData>>)
    ensures DeleteFile(fileId, client, reply).success
            <==> DeleteRequest(fileId, client).Some? && reply.Replied? && ConfirmsDeletion(reply.data)
  {
  }

  /** An unconfirmed answer reports the server's message when it has one, else the fixed text. */
  lemma DeleteRejectionMessage(fileId: string, client: Option<string>, data: Option<DeleteData>)
    requires fileId != "" && !ConfirmsDeletion(data)
    ensures var r := DeleteFile(fileId, client, Replied(data));
            !r.success
            && (data.Some? && Truthy(data.value.message) ==> r.message == data.value.message.value)
            && (!(data.Some? && Truthy(data.value.message)) ==> r.message == UnexpectedDeleteMessage)
  {
  }
}
