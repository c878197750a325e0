/** The server's image-upload endpoint: it checks the posted file, then hands
    it to the image host in the folder of the watch it was posted for. The
    image host is a parameter. */
module UploadRoute {
  import opened Wrappers
  import opened Text
  import MemoryUpload

  /** The fields of the posted form. A missing field is `None`. */
  datatype UploadForm = UploadForm(file: Option<MemoryUpload.FileInfo>, praharNumber: Option<string>)

  /** What the image host returns for a stored image. */
  datatype Stored = Stored(secureUrl: string, publicId: string)

  /** The JSON reply: `{ success: true, url, publicId }`, or `{ error }` with
      its status code. */
  datatype Reply = Uploaded(url: string, publicId: string) | Rejected(status: int, error: string)

  function Status(r: Reply): int {
    if r.Uploaded? then 200 else r.status
  }

  const NoFileMessage: string := "No file provided"
  const OnlyImagesMessage: string := "Only images allowed"
  const TooLargeMessage: string := "File too large (max 10MB)"
  const FallbackMessage: string := "Upload failed"

  /** `astapraharicha/memories/prahar-${praharNumber}`: the posted value is
      used as it stands, and a missing one reads `null`. */
  function Folder(praharNumber: Option<string>): (r: string)
    ensures praharNumber.Some? ==> r == "astapraharicha/memories/prahar-" + praharNumber.value
    ensures praharNumber.None? ==> r == "astapraharicha/memories/prahar-null"
  {
    "astapraharicha/memories/prahar-" + (if praharNumber.Some? then praharNumber.value else "null")
  }

  /** The checks on the posted file, in order: present, an image, at most
      10 MiB. `None` means the file goes to the image host. */
  function FileCheck(file: Option<MemoryUpload.FileInfo>): (r: Option<string>)
    ensures file.None? ==> r == Some(NoFileMessage)
    ensures file.Some? && !MemoryUpload.IsImageType(file.value.mimeType) ==> r == Some(OnlyImagesMessage)
    ensures file.Some? && MemoryUpload.IsImageType(file.value.mimeType) && file.value.size > MemoryUpload.MaxUploadBytes ==>
              r == Some(TooLargeMessage)
    ensures r.None? <==>
              file.Some? && MemoryUpload.IsImageType(file.value.mimeType) && file.value.size <= MemoryUpload.MaxUploadBytes
  {
    if file.None? then Some(NoFileMessage)
    else if !MemoryUpload.IsImageType(file.value.mimeType) then Some(OnlyImagesMessage)
    else if file.value.size > MemoryUpload.MaxUploadBytes then Some(TooLargeMessage)
    else None
  }

  /** A thrown error's reply: 500 with its message, or the stock message
      when the message is empty or missing (written `""`). */
  function ServerError(message: string): (r: Reply)
    ensures r.Rejected? && r.status == 500 && r.error != []
    ensures message != [] ==> r.error == message
  {
    Rejected(500, if message != [] then message else FallbackMessage)
  }

  /** `POST /api/upload`. `form` is the parsed form or the message of the
      parse error; `host` stores the image in a folder, or throws an error
      with a message. */
  function HandleUploadPost(
    form: Result<UploadForm, string>,
    host: (MemoryUpload.FileInfo, string) -> Result<Stored, string>): (r: Reply)
    ensures form.Failure? ==> r == ServerError(form.error)
    ensures form.Success? && FileCheck(form.value.file).Some? ==>
              r == Rejected(400, FileCheck(form.value.file).value)
    ensures form.Success? && FileCheck(form.value.file).None? ==>
              var stored := host(form.value.file.value, Folder(form.value.praharNumber));
              && (stored.Success? ==> r == Uploaded(stored.value.secureUrl, stored.value.publicId))
              && (stored.Failure? ==> r == ServerError(stored.error))
  {
    match form
    case Failure(message) => ServerError(message)
    case Success(fields) =>
      if fields.file.None? then Rejected(400, NoFileMessage)
      else
        var file := fields.file.value;
        if !MemoryUpload.IsImageType(file.mimeType) then Rejected(400, OnlyImagesMessage)
        else if file.size > MemoryUpload.MaxUploadBytes then Rejected(400, TooLargeMessage)
        else
          match host(file, Folder(fields.praharNumber))
          case Failure(message) => ServerError(message)
          case Success(stored) => Uploaded(stored.secureUrl, stored.publicId)
  }

  /** A file of exactly 10 MiB is accepted and one byte more is refused. */
  lemma SizeLimitInclusive(name: string, mimeType: string)
    requires MemoryUpload.IsImageType(mimeType)
    ensures FileCheck(Some(MemoryUpload.FileInfo(name, mimeType, 10 * 1024 * 1024))).None?
    ensures FileCheck(Some(MemoryUpload.FileInfo(name, mimeType, 10 * 1024 * 1024 + 1))) == Some(TooLargeMessage)
  {
  }

  /** Every reply is 200, 400 or 500, and a 400 comes only from the file
      checks, which never reach the image host. */
  lemma StatusCodes(form: Result<UploadForm, string>, host: (MemoryUpload.FileInfo, string) -> Result<Stored, string>)
    ensures Status(HandleUploadPost(form, host)) in {200, 400, 500}
    ensures Status(HandleUploadPost(form, host)) == 400 <==> form.Success? && FileCheck(form.value.file).Some?
  {
  }

  /** The watch number is never checked: whatever is posted lands in the
      folder name, so two different values give two different folders. */
  lemma FolderUnchecked(p: string, q: string)
    ensures Folder(Some(p)) == Folder(Some(q)) <==> p == q
  {
    var prefix := "astapraharicha/memories/prahar-";
    if Folder(Some(p)) == Folder(Some(q)) {
      assert p == Folder(Some(p))[|prefix|..];
      assert q == Folder(Some(q))[|prefix|..];
    }
  }

  /** The endpoint accepts exactly the files the upload service accepts,
      but checks the type before the size, where the service and the dialog
      check the size first: an oversized file that is not an image gets the
      type message here and the size message there. */
  lemma SameFilesOtherOrder(file: MemoryUpload.FileInfo)
    ensures FileCheck(Some(file)).None? <==>
              file.size <= MemoryUpload.MaxUploadBytes && MemoryUpload.IsImageType(file.mimeType)
    ensures file.size > MemoryUpload.MaxUploadBytes && !MemoryUpload.IsImageType(file.mimeType) ==>
              FileCheck(Some(file)) == Some(OnlyImagesMessage)
  {
  }
}
