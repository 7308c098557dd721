/**
 * The image uploader of the event form: a file list holding at most one
 * image, the pre-upload filter, the upload through the media service, and
 * the confirm-then-delete flow. Toasts and the optional `onUploadSuccess`
 * callback are recorded as sequences so their effect can be stated.
 */
module Uploader {
  import opened Wrappers
  import opened WebFile
  import JsText
  import Decimal
  import Media

  const UploadLimit: nat := 5 * 1024 * 1024
  const DefaultName := "Uploaded image"
  const LocalUploadedMessage := "File uploaded successfully"
  const InvalidFormatMessage := "Invalid file format"
  const UnknownUploadError := "Unknown upload error"
  const NoKeyMessage := "No file ID found for deletion"
  const RemovedMessage := "Image removed"
  const DeletedMessage := "File deleted successfully"
  const RemovedFromFormMessage := "Image removed from form"
  const WrongTypeMessage := "You can only upload JPG/PNG file!"
  const TooLargeMessage := "Image must smaller than 5MB!"

  /** An entry of the Ant Design file list; `originKey` is the media key kept on `originFileObj`. */
  datatype UploadItem = UploadItem(uid: string, status: string, name: string, url: Option<string>, originKey: Option<string>)

  datatype ToastKind = SuccessToast | ErrorToast
  datatype Toast = Toast(kind: ToastKind, text: string)

  /** The argument handed to `onUploadSuccess`. */
  datatype Notice = Notice(success: bool, data: Option<Media.MediaData>)

  /* beforeUpload */

  /** `file.size / 1024 / 1024 < 5`, in exact arithmetic. */
  predicate SmallerThan5M(size: nat)
  {
    (size as real) / 1024.0 / 1024.0 < 5.0
  }

  /** The division is exact for byte counts, so the check is the integer comparison `size < 5 MiB`. */
  lemma SmallerThan5MExact(size: nat)
    ensures SmallerThan5M(size) <==> size < UploadLimit
  {
    var x := size as real;
    assert x / 1024.0 / 1024.0 == x / 1048576.0;
    if x / 1048576.0 < 5.0 {
      assert x == (x / 1048576.0) * 1048576.0;
    }
  }

  /** The verdict of `beforeUpload` and the messages it shows on the way. */
  datatype Admission = Admission(accepted: bool, messages: seq<string>)

  /** `beforeUpload`: JPEG or PNG, and strictly under 5 MiB. */
  function BeforeUpload(file: File): (r: Admission)
    ensures r.accepted <==> (file.mimeType == "image/jpeg" || file.mimeType == "image/png") && file.size < UploadLimit
    ensures r.accepted <==> r.messages == []
    ensures WrongTypeMessage in r.messages <==> !(file.mimeType == "image/jpeg" || file.mimeType == "image/png")
    ensures TooLargeMessage in r.messages <==> file.size >= UploadLimit
  {
    SmallerThan5MExact(file.size);
    var isJpgOrPng := file.mimeType == "image/jpeg" || file.mimeType == "image/png";
    var isLt5M := SmallerThan5M(file.size);
    Admission(isJpgOrPng && isLt5M,
              (if isJpgOrPng then [] else [WrongTypeMessage]) + (if isLt5M then [] else [TooLargeMessage]))
  }

  /** Whatever the uploader lets through also passes the media service's checks. */
  lemma AdmittedFilesPassService(file: File)
    requires BeforeUpload(file).accepted
    ensures Media.UploadCheck(Some(file)) == None
  {
  }

  /** The two filters disagree at the boundary: exactly 5 MiB, and the `image/jpg` type. */
  lemma FiltersDisagree(name: string)
    ensures !BeforeUpload(File(name, "image/png", 5242880)).accepted
    ensures Media.UploadCheck(Some(File(name, "image/png", 5242880))) == None
    ensures !BeforeUpload(File(name, "image/jpg", 1)).accepted
    ensures Media.UploadCheck(Some(File(name, "image/jpg", 1))) == None
  {
    assert BeforeUpload(File(name, "image/png", 5242880)).messages == [TooLargeMessage];
  }

  /* the list entries the component builds */

  /** The entry shown for an `image_url` prop: only a non-blank URL gives one. */
  function InitialItem(imageUrl: Option<string>, name: Option<string>, id: string): (r: Option<UploadItem>)
    ensures r.Some? <==> imageUrl.Some? && JsText.Trim(imageUrl.value) != ""
    ensures r.Some? ==> r.value.uid == id && r.value.url == imageUrl && r.value.originKey == None
    ensures r.Some? && Truthy(name) ==> r.value.name == name.value
    ensures r.Some? && !Truthy(name) ==> r.value.name == DefaultName
  {
    if Truthy(imageUrl) && JsText.Trim(imageUrl.value) != "" then
      Some(UploadItem(id, "done", if Truthy(name) then name.value else DefaultName, imageUrl, None))
    else None
  }

  /** `String(id)`, where a missing id prints as "undefined". */
  function IdText(id: Option<int>): string
  {
    if id.Some? then Decimal.ShowInt(id.value) else "undefined"
  }

  /** The entry for a stored upload: the server's id, URL and key, and the file's own name. */
  function UploadedItem(file: File, data: Media.MediaData): UploadItem
  {
    UploadItem(IdText(data.id), "done", file.name, data.url, data.key)
  }

  /** The entry's `uid` reads back as the server's numeric id. */
  lemma UploadedUidIsId(file: File, data: Media.MediaData)
    requires data.id.Some?
    ensures Decimal.ParseInt(UploadedItem(file, data).uid) == data.id
  {
    Decimal.ShowIntRoundTrip(data.id.value);
  }

  /** The toast for a service answer that stored nothing: its message, or a fixed text. */
  function UploadErrorText(message: string): (r: string)
    ensures r != ""
    ensures message != "" ==> r == message
  {
    if message != "" then message else UnknownUploadError
  }

  /* the delete key */

  /** The key kept on `originFileObj` when truthy, else the `uid`. */
  function FallbackKey(file: UploadItem): (r: string)
    ensures Truthy(file.originKey) ==> r == file.originKey.value
    ensures !Truthy(file.originKey) ==> r == file.uid
  {
    if Truthy(file.originKey) then file.originKey.value else file.uid
  }

  /**
   * The key `openDeleteModal` extracts. `urlKey` stands for `new URL(url)`
   * followed by `decodeURIComponent` of the pathname without its first
   * character; `None` is either of them throwing.
   */
  function DeleteKey(file: UploadItem, urlKey: string -> Option<string>): (r: string)
    ensures Truthy(file.url) && urlKey(file.url.value).Some? ==> r == urlKey(file.url.value).value
    ensures !(Truthy(file.url) && urlKey(file.url.value).Some?) ==> r == FallbackKey(file)
  {
    if Truthy(file.url) then
      match urlKey(file.url.value)
      case Some(key) => key
      case None => FallbackKey(file)
    else FallbackKey(file)
  }

  /** A stored upload is deleted by its URL path, else by the media key the server returned; never by its `uid`. */
  lemma UploadedItemDeleteKey(file: File, data: Media.MediaData, urlKey: string -> Option<string>)
    requires Media.WellFormedUpload(Some(data))
    ensures urlKey(data.url.value).Some? ==> DeleteKey(UploadedItem(file, data), urlKey) == urlKey(data.url.value).value
    ensures urlKey(data.url.value).None? ==> DeleteKey(UploadedItem(file, data), urlKey) == data.key.value
  {
  }

  /** The image the form starts with has no media key: it is deleted by its URL path, else by the component id. */
  lemma InitialItemDeleteKey(imageUrl: Option<string>, name: Option<string>, id: string, urlKey: string -> Option<string>)
    requires InitialItem(imageUrl, name, id).Some?
    ensures urlKey(imageUrl.value).Some? ==> DeleteKey(InitialItem(imageUrl, name, id).value, urlKey) == urlKey(imageUrl.value).value
    ensures urlKey(imageUrl.value).None? ==> DeleteKey(InitialItem(imageUrl, name, id).value, urlKey) == id
  {
  }

  /** URLs that were never stored on the media server: deleting them skips the server. */
  predicate SkipsServer(url: Option<string>)
  {
    Truthy(url)
    && (JsText.Includes(url.value, "placeholder") || JsText.Includes(url.value, "example.com")
        || JsText.StartsWith(url.value, "data:"))
  }

  /** An inline image (`data:` URL) is always removed locally. */
  lemma DataUrlsSkipServer(rest: string)
    ensures SkipsServer(Some("data:" + rest))
  {
    assert ("data:" + rest)[..5] == "data:";
  }

  /** The component's state. */
  class Uploader {
    /** `onUploadSuccess` was passed (the event form passes none). */
    const notifies: bool
    var fileList: seq<UploadItem>
    var isUploading: bool
    var deleteModalOpen: bool
    var deleteUrl: Option<string>
    var deleteFileId: Option<string>
    var toasts: seq<Toast>
    var notices: seq<Notice>
    /** The keys handed to `mediaService.deleteFile`, oldest first. */
    var deleteRequests: seq<string>

    /** Every assignment of the list is `[]` or a singleton. */
    predicate Valid()
      reads this
    {
      |fileList| <= 1
    }

    /**
     * The upload button is rendered while the list is empty; while it is
     * hidden the list holds exactly one image.
     */
    predicate ShowsUploadButton(): (r: bool)
      reads this
      ensures r <==> fileList == []
      ensures Valid() && !r ==> |fileList| == 1
    {
      !(|fileList| >= 1)
    }

    constructor(notifies: bool)
      ensures Valid() && fileList == [] && !isUploading && !deleteModalOpen
      ensures deleteUrl == None && deleteFileId == None
      ensures toasts == [] && notices == [] && deleteRequests == []
      ensures this.notifies == notifies
    {
      this.notifies := notifies;
      fileList := [];
      isUploading := false;
      deleteModalOpen := false;
      deleteUrl := None;
      deleteFileId := None;
      toasts := [];
      notices := [];
      deleteRequests := [];
    }

    /** The effect on `[image_url, name, ID]`: shows the given image, or leaves the list alone. */
    method SyncImageUrl(imageUrl: Option<string>, name: Option<string>, id: string)
      requires Valid()
      modifies this
      ensures Valid()
      ensures InitialItem(imageUrl, name, id).Some? ==> fileList == [InitialItem(imageUrl, name, id).value]
      ensures InitialItem(imageUrl, name, id).None? ==> fileList == old(fileList)
      ensures isUploading == old(isUploading) && deleteModalOpen == old(deleteModalOpen)
      ensures deleteUrl == old(deleteUrl) && deleteFileId == old(deleteFileId)
      ensures toasts == old(toasts) && notices == old(notices) && deleteRequests == old(deleteRequests)
    {
      var item := InitialItem(imageUrl, name, id);
      if item.Some? {
        fileList := [item.value];
      }
    }

    /** The synchronous start of `handleUpload`: a non-`File` is refused with a toast, a file raises the flag. */
    method BeginUpload(input: Option<File>) returns (started: bool)
      requires Valid()
      modifies this
      ensures Valid()
      ensures started <==> input.Some?
      ensures started ==> isUploading && toasts == old(toasts)
      ensures !started ==> isUploading == old(isUploading) && toasts == old(toasts) + [Toast(ErrorToast, InvalidFormatMessage)]
      ensures fileList == old(fileList) && deleteModalOpen == old(deleteModalOpen)
      ensures deleteUrl == old(deleteUrl) && deleteFileId == old(deleteFileId)
      ensures notices == old(notices) && deleteRequests == old(deleteRequests)
    {
      if input.None? {
        toasts := toasts + [Toast(ErrorToast, InvalidFormatMessage)];
        return false;
      }
      isUploading := true;
      return true;
    }

    /**
     * The rest of `handleUpload`, once the media service has answered for
     * `file`: a stored image replaces the list, anything else toasts the
     * error; the flag is always lowered.
     */
    method FinishUpload(file: File, client: Option<string>, reply: Media.Reply<Option<Media.MediaData>>)
      requires Valid()
      modifies this
      ensures Valid()
      ensures !isUploading
      ensures var response := Media.UploadFile(Some(file), client, reply);
              if response.success && response.data.Some? then
                fileList == [UploadedItem(file, response.data.value)]
                && notices == old(notices) + (if notifies then [Notice(true, response.data)] else [])
                && toasts == old(toasts) + [Toast(SuccessToast, LocalUploadedMessage)]
              else
                fileList == old(fileList) && notices == old(notices)
                && toasts == old(toasts) + [Toast(ErrorToast, UploadErrorText(response.message))]
      ensures deleteModalOpen == old(deleteModalOpen) && deleteUrl == old(deleteUrl) && deleteFileId == old(deleteFileId)
      ensures deleteRequests == old(deleteRequests)
    {
      var response := Media.UploadFile(Some(file), client, reply);
      if response.success && response.data.Some? {
        fileList := [UploadedItem(file, response.data.value)];
        if notifies {
          notices := notices + [Notice(true, response.data)];
        }
        toasts := toasts + [Toast(SuccessToast, LocalUploadedMessage)];
      } else {
        toasts := toasts + [Toast(ErrorToast, UploadErrorText(response.message))];
      }
      isUploading := false;
    }

    /** `onRemove`: remembers the URL and the extracted key, and opens the confirmation. */
    method OpenDeleteModal(file: UploadItem, urlKey: string -> Option<string>)
      requires Valid()
      modifies this
      ensures Valid()
      ensures deleteModalOpen && deleteUrl == file.url && deleteFileId == Some(DeleteKey(file, urlKey))
      ensures fileList == old(fileList) && isUploading == old(isUploading)
      ensures toasts == old(toasts) && notices == old(notices) && deleteRequests == old(deleteRequests)
    {
      var fileKey := DeleteKey(file, urlKey);
      deleteUrl := file.url;
      deleteFileId := Some(fileKey);
      deleteModalOpen := true;
    }

    /** `closeDeleteModal`: forgets the pending deletion. */
    method CloseDeleteModal()
      requires Valid()
      modifies this
      ensures Valid()
      ensures !deleteModalOpen && deleteUrl == None && deleteFileId == None
      ensures fileList == old(fileList) && isUploading == old(isUploading)
      ensures toasts == old(toasts) && notices == old(notices) && deleteRequests == old(deleteRequests)
    {
      deleteUrl := None;
      deleteFileId := None;
      deleteModalOpen := false;
    }

    /** The confirmation, where `reply` is what the media server would answer a deletion. */
    method HandleDelete(client: Option<string>, reply: Media.Reply<Option<Media.DeleteData>>)
      requires Valid()
      modifies this
      ensures Valid()
      ensures !deleteModalOpen && deleteUrl == None && deleteFileId == None
      ensures isUploading == old(isUploading)
      ensures !Truthy(old(deleteFileId)) ==>
                fileList == old(fileList) && notices == old(notices) && deleteRequests == old(deleteRequests)
                && toasts == old(toasts) + [Toast(ErrorToast, NoKeyMessage)]
      ensures Truthy(old(deleteFileId)) ==>
                fileList == [] && notices == old(notices) + (if notifies then [Notice(true, None)] else [])
      ensures Truthy(old(deleteFileId)) && SkipsServer(old(deleteUrl)) ==>
                deleteRequests == old(deleteRequests) && toasts == old(toasts) + [Toast(SuccessToast, RemovedMessage)]
      ensures Truthy(old(deleteFileId)) && !SkipsServer(old(deleteUrl)) ==>
                deleteRequests == old(deleteRequests) + [old(deleteFileId).value]
                && toasts == old(toasts)
                   + [Toast(SuccessToast,
                            if Media.DeleteFile(old(deleteFileId).value, client, reply).success
                            then DeletedMessage else RemovedFromFormMessage)]
    {
      if !Truthy(deleteFileId) {
        toasts := toasts + [Toast(ErrorToast, NoKeyMessage)];
        CloseDeleteModal();
        return;
      }
      var fileId := deleteFileId.value;
      if SkipsServer(deleteUrl) {
        fileList := [];
        if notifies {
          notices := notices + [Notice(true, None)];
        }
        toasts := toasts + [Toast(SuccessToast, RemovedMessage)];
        CloseDeleteModal();
        CloseDeleteModal();
        return;
      }
      deleteRequests := deleteRequests + [fileId];
      var response := Media.DeleteFile(fileId, client, reply);
      fileList := [];
      if notifies {
        notices := notices + [Notice(true, None)];
      }
      if response.success {
        toasts := toasts + [Toast(SuccessToast, DeletedMessage)];
      } else {
        toasts := toasts + [Toast(SuccessToast, RemovedFromFormMessage)];
      }
      CloseDeleteModal();
    }
  }
}
