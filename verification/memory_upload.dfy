/** The part of `uploadMemoryImage` that runs before and around the storage
    and database calls: the file checks, the sanitised file name, the storage
    path and the record that is saved. The two remote calls are parameters. */
module MemoryUpload {
  import opened Wrappers
  import opened Text
  import FestivalClock

  /** The fields of a browser `File` that the code reads. */
  datatype FileInfo = FileInfo(name: string, mimeType: string, size: int)

  /** 10 MiB, the largest file any upload path accepts. */
  const MaxUploadBytes: int := 10 * 1024 * 1024

  predicate IsImageType(mimeType: string) {
    StartsWith(mimeType, "image/")
  }

  /** `UserMemory`; `uploadedAt` is the server timestamp in milliseconds. */
  datatype UserMemory = UserMemory(
    id: Option<string>,
    imageUrl: string,
    praharNumber: int,
    uploaderName: string,
    caption: Option<string>,
    uploadedAt: int,
    isApproved: bool,
    festivalYear: int)

  const SizeErrorMessage: string := "File size exceeds 10MB limit"
  const TypeErrorMessage: string := "Only image files are allowed"

  /** The characters the file-name pattern `[^a-zA-Z0-9.]` leaves alone. */
  predicate IsSafeChar(ch: char) {
    ('a' <= ch <= 'z') || ('A' <= ch <= 'Z') || ('0' <= ch <= '9') || ch == '.'
  }

  /** `name.replace(/[^a-zA-Z0-9.]/g, '_')`. */
  function SafeName(name: string): (r: string)
    ensures |r| == |name|
    ensures forall i :: 0 <= i < |r| ==> IsSafeChar(r[i]) || r[i] == '_'
  {
    if name == [] then []
    else [if IsSafeChar(name[0]) then name[0] else '_'] + SafeName(name[1..])
  }

  /** Sanitising keeps every safe character in place and turns every other
      one into `_`; sanitising twice is sanitising once. */
  lemma {:induction false} SafeNameSpec(name: string)
    ensures forall i :: 0 <= i < |name| ==>
              SafeName(name)[i] == if IsSafeChar(name[i]) then name[i] else '_'
    ensures SafeName(SafeName(name)) == SafeName(name)
    ensures (forall i :: 0 <= i < |name| ==> IsSafeChar(name[i])) ==> SafeName(name) == name
    decreases |name|
  {
    if name != [] {
      SafeNameSpec(name[1..]);
      assert SafeName(name)[1..] == SafeName(name[1..]);
    }
  }

  /** The folder of a watch: `memories/{year}/prahar-{n}`. */
  function StorageDir(year: int, praharNumber: int): string {
    "memories/" + IntToString(year) + "/prahar-" + IntToString(praharNumber)
  }

  /** The stored file name: `{timestamp}_{safeName}`. */
  function FileLeaf(timestamp: int, fileName: string): string {
    IntToString(timestamp) + "_" + SafeName(fileName)
  }

  function StoragePath(year: int, praharNumber: int, timestamp: int, fileName: string): string {
    StorageDir(year, praharNumber) + "/" + FileLeaf(timestamp, fileName)
  }

  /** Whatever the uploaded file is called, its stored name holds no `/`, so
      it lands directly in the watch's folder and ends with the sanitised name. */
  lemma StoragePathStaysInFolder(year: int, praharNumber: int, timestamp: int, fileName: string)
    ensures StartsWith(StoragePath(year, praharNumber, timestamp, fileName), StorageDir(year, praharNumber) + "/")
    ensures forall i :: |StorageDir(year, praharNumber)| < i < |StoragePath(year, praharNumber, timestamp, fileName)| ==>
              StoragePath(year, praharNumber, timestamp, fileName)[i] != '/'
    ensures forall i :: 0 <= i < |FileLeaf(timestamp, fileName)| ==> FileLeaf(timestamp, fileName)[i] != '/'
    ensures |SafeName(fileName)| <= |FileLeaf(timestamp, fileName)|
    ensures FileLeaf(timestamp, fileName)[|FileLeaf(timestamp, fileName)| - |SafeName(fileName)|..] == SafeName(fileName)
  {
    var ts := IntToString(timestamp);
    var leaf := FileLeaf(timestamp, fileName);
    assert leaf == ts + "_" + SafeName(fileName);
    forall i | 0 <= i < |leaf| ensures leaf[i] != '/' {
      if i < |ts| {
        assert leaf[i] == ts[i];
        if timestamp < 0 {
          assert ts[i] == if i == 0 then '-' else NatToString(-timestamp)[i - 1];
        }
      } else if i > |ts| {
        assert leaf[i] == SafeName(fileName)[i - |ts| - 1];
      }
    }
    var dir := StorageDir(year, praharNumber) + "/";
    var path := StoragePath(year, praharNumber, timestamp, fileName);
    assert path == dir + leaf;
    assert path[..|dir|] == dir;
    forall i | |dir| - 1 < i < |path| ensures path[i] != '/' {
      assert path[i] == leaf[i - |dir|];
    }
  }

  /** `caption?.trim() || undefined`: a blank caption is dropped. */
  function CaptionField(caption: Option<string>): (r: Option<string>)
    ensures r.Some? ==> caption.Some? && r.value == Trim(caption.value) && r.value != []
    ensures caption.Some? && Trim(caption.value) != [] ==> r.Some?
  {
    match caption
    case None => None
    case Some(text) => if Trim(text) == [] then None else Some(Trim(text))
  }

  /** `uploadMemoryImage(file, praharNumber, uploaderName, caption)`.
      `timestamp` is `Date.now()` and `uploadedAt` the server time;
      `uploadBytes` maps a storage path to the download URL of the uploaded
      bytes or to the message of the error it throws, and `addDoc` maps the
      record to the new document's id or to an error message. */
  function UploadMemoryImage(
    c: FestivalClock.FestivalConfig,
    file: FileInfo,
    praharNumber: int,
    uploaderName: string,
    caption: Option<string>,
    timestamp: int,
    uploadedAt: int,
    uploadBytes: string -> Result<string, string>,
    addDoc: UserMemory -> Result<string, string>): (r: Result<UserMemory, string>)
    ensures file.size > MaxUploadBytes ==> r == Failure(SizeErrorMessage)
    ensures file.size <= MaxUploadBytes && !IsImageType(file.mimeType) ==> r == Failure(TypeErrorMessage)
    ensures r.Success? ==>
              && file.size <= MaxUploadBytes && IsImageType(file.mimeType)
              && uploadBytes(StoragePath(c.year, praharNumber, timestamp, file.name)).Success?
              && r.value.imageUrl == uploadBytes(StoragePath(c.year, praharNumber, timestamp, file.name)).value
              && r.value.praharNumber == praharNumber
              && r.value.uploaderName == Trim(uploaderName)
              && r.value.caption == CaptionField(caption)
              && r.value.uploadedAt == uploadedAt
              && !r.value.isApproved
              && r.value.festivalYear == c.year
              && addDoc(r.value.(id := None)).Success?
              && r.value.id == Some(addDoc(r.value.(id := None)).value)
    ensures file.size <= MaxUploadBytes && IsImageType(file.mimeType) ==>
              (r.Success? <==>
                 && uploadBytes(StoragePath(c.year, praharNumber, timestamp, file.name)).Success?
                 && addDoc(UserMemory(None, uploadBytes(StoragePath(c.year, praharNumber, timestamp, file.name)).value,
                                      praharNumber, Trim(uploaderName), CaptionField(caption), uploadedAt,
                                      false, c.year)).Success?)
  {
    if file.size > MaxUploadBytes then Failure(SizeErrorMessage)
    else if !IsImageType(file.mimeType) then Failure(TypeErrorMessage)
    else
      var storagePath := StoragePath(c.year, praharNumber, timestamp, file.name);
      match uploadBytes(storagePath)
      case Failure(message) => Failure(message)
      case Success(imageUrl) =>
        var memoryData := UserMemory(None, imageUrl, praharNumber, Trim(uploaderName),
                                     CaptionField(caption), uploadedAt, false, c.year);
        match addDoc(memoryData)
        case Failure(message) => Failure(message)
        case Success(docId) => Success(memoryData.(id := Some(docId)))
  }
}
