/** The memory-upload dialog: it checks the chosen file, checks the form and
    the watch before sending, and steps through form, uploading, and success
    or error. */
module UploadModal {
  import opened Wrappers
  import opened Text
  import MemoryUpload
  import FestivalClock

  /** `'form' | 'uploading' | 'success' | 'error'`. */
  datatype Step = Form | Uploading | Succeeded | Failed

  const FileTooLargeMessage: string := "File size must be less than 10MB"
  const NotAnImageMessage: string := "Please select an image file"
  const IncompleteFormMessage: string := "Please fill in your name and select a photo"
  const OutsideWatchMessage: string := "Upload is only allowed during this Prahar's active time"
  const UploadFailedMessage: string := "Failed to upload. Please try again."

  /** `isUploadAllowed = currentPrahar === praharNumber`, with the watch the
      clock reports passed in. */
  predicate UploadAllowed(currentPrahar: Option<int>, praharNumber: int) {
    currentPrahar == Some(praharNumber)
  }

  /** The dialog's gate is the upload gate of the festival clock when the
      clock's watch is the one passed in. */
  lemma AllowedIsClockGate(c: FestivalClock.FestivalConfig, t: FestivalClock.Instant, praharNumber: int)
    requires FestivalClock.ValidConfig(c)
    ensures UploadAllowed(FestivalClock.CurrentPrahar(c, t), praharNumber)
        <==> FestivalClock.IsUploadAllowed(c, t, praharNumber)
    ensures UploadAllowed(FestivalClock.CurrentPrahar(c, t), praharNumber) ==>
              1 <= praharNumber <= c.totalPrahars
  {
  }

  /** The file check of `handleFileSelect`: the size first, then the type.
      `None` means the file is taken. */
  function FileCheck(file: MemoryUpload.FileInfo): (r: Option<string>)
    ensures file.size > MemoryUpload.MaxUploadBytes ==> r == Some(FileTooLargeMessage)
    ensures file.size <= MemoryUpload.MaxUploadBytes && !MemoryUpload.IsImageType(file.mimeType) ==>
              r == Some(NotAnImageMessage)
    ensures r.None? <==> file.size <= MemoryUpload.MaxUploadBytes && MemoryUpload.IsImageType(file.mimeType)
  {
    if file.size > MemoryUpload.MaxUploadBytes then Some(FileTooLargeMessage)
    else if !MemoryUpload.IsImageType(file.mimeType) then Some(NotAnImageMessage)
    else None
  }

  /** The checks of `handleUpload`, in order: a file and a non-blank name,
      then the watch. `None` means the upload starts. */
  function UploadCheck(selectedFile: Option<MemoryUpload.FileInfo>, name: string, allowed: bool): (r: Option<string>)
    ensures selectedFile.None? || Trim(name) == [] ==> r == Some(IncompleteFormMessage)
    ensures selectedFile.Some? && Trim(name) != [] && !allowed ==> r == Some(OutsideWatchMessage)
    ensures r.None? <==> selectedFile.Some? && Trim(name) != [] && allowed
  {
    if selectedFile.None? || Trim(name) == [] then Some(IncompleteFormMessage)
    else if !allowed then Some(OutsideWatchMessage)
    else None
  }

  /** `disabled={!isUploadAllowed || !selectedFile || !name.trim()}`. */
  predicate SubmitDisabled(selectedFile: Option<MemoryUpload.FileInfo>, name: string, allowed: bool) {
    !allowed || selectedFile.None? || Trim(name) == []
  }

  /** The button is enabled exactly when a click would pass every check, so
      its two error messages only show for a click that the button lets through
      some other way (a keyboard submit of a stale render). */
  lemma SubmitEnabledIffChecksPass(selectedFile: Option<MemoryUpload.FileInfo>, name: string, allowed: bool)
    ensures !SubmitDisabled(selectedFile, name, allowed) <==> UploadCheck(selectedFile, name, allowed).None?
  {
  }

  /** `caption.trim() || undefined`: what the dialog hands the upload service. */
  function CaptionArgument(caption: string): (r: Option<string>)
    ensures r.Some? <==> Trim(caption) != []
    ensures r.Some? ==> r.value == Trim(caption)
  {
    if Trim(caption) == [] then None else Some(Trim(caption))
  }

  /** The service trims the caption again and drops it when blank; on what
      the dialog passes that changes nothing, and the same holds for the name. */
  lemma ServiceKeepsArguments(name: string, caption: string)
    ensures MemoryUpload.CaptionField(CaptionArgument(caption)) == CaptionArgument(caption)
    ensures Trim(Trim(name)) == Trim(name)
  {
    TrimIdempotent(caption);
    TrimIdempotent(name);
  }

  /** The arguments of the `uploadMemoryImage` call. */
  datatype UploadRequest = UploadRequest(
    file: MemoryUpload.FileInfo, praharNumber: int, uploaderName: string, caption: Option<string>)

  /** `time.toString().padStart(2, '0')`. */
  function TwoDigits(n: int): string {
    PadStart(IntToString(n), 2, '0')
  }

  /** A number below 100 takes exactly two digits, which spell it. */
  lemma TwoDigitsValue(n: int)
    requires 0 <= n < 100
    ensures |TwoDigits(n)| == 2 && AllDigits(TwoDigits(n)) && DigitsValue(TwoDigits(n)) == n
  {
    var s := IntToString(n);
    if n < 10 {
      LeadingZero(s);
      assert TwoDigits(n) == "0" + s;
    }
  }

  /** `formatTime`: `HH:MM:SS`. */
  function FormatTime(time: FestivalClock.Remaining): string {
    TwoDigits(time.hours) + ":" + TwoDigits(time.minutes) + ":" + TwoDigits(time.seconds)
  }

  predicate InClockRange(time: FestivalClock.Remaining) {
    0 <= time.hours < 100 && 0 <= time.minutes < 100 && 0 <= time.seconds < 100
  }

  /** The rendering has two digits per field, colons between them, and each
      field reads back as the number it shows. */
  lemma FormatTimeFields(time: FestivalClock.Remaining)
    requires InClockRange(time)
    ensures |FormatTime(time)| == 8 && FormatTime(time)[2] == ':' && FormatTime(time)[5] == ':'
    ensures AllDigits(FormatTime(time)[0..2]) && DigitsValue(FormatTime(time)[0..2]) == time.hours
    ensures AllDigits(FormatTime(time)[3..5]) && DigitsValue(FormatTime(time)[3..5]) == time.minutes
    ensures AllDigits(FormatTime(time)[6..8]) && DigitsValue(FormatTime(time)[6..8]) == time.seconds
  {
    var h, m, s := TwoDigits(time.hours), TwoDigits(time.minutes), TwoDigits(time.seconds);
    TwoDigitsValue(time.hours);
    TwoDigitsValue(time.minutes);
    TwoDigitsValue(time.seconds);
    ClockFields(h, m, s);
  }

  lemma ClockFields(h: string, m: string, s: string)
    requires |h| == 2 && |m| == 2 && |s| == 2
    ensures var r := h + ":" + m + ":" + s;
            |r| == 8 && r[2] == ':' && r[5] == ':' && r[0..2] == h && r[3..5] == m && r[6..8] == s
  {
    var r := h + ":" + m + ":" + s;
    assert r[0..2] == h;
    assert r[3..5] == m;
    assert r[6..8] == s;
  }

  /** The countdown the dialog shows always fits `HH:MM:SS` when a watch
      lasts at most 100 hours: it is less than one watch long. */
  lemma CountdownFitsTheClock(c: FestivalClock.FestivalConfig, t: FestivalClock.Instant)
    requires FestivalClock.ValidConfig(c) && FestivalClock.ValidInstant(t) && c.praharDurationHours <= 100
    requires FestivalClock.RemainingInPrahar(c, t).Some?
    ensures InClockRange(FestivalClock.RemainingInPrahar(c, t).value)
    ensures FestivalClock.RemainingInPrahar(c, t).value.hours < c.praharDurationHours
  {
    var k := FestivalClock.CurrentPrahar(c, t).value;
    var r := FestivalClock.RemainingInPrahar(c, t).value;
    FestivalClock.CurrentPraharIsHalfOpenInterval(c, t, k);
    assert FestivalClock.WatchStart(c, k + 1) == FestivalClock.WatchStart(c, k) + c.praharDurationHours;
    assert FestivalClock.TotalSeconds(r) < c.praharDurationHours * 3600;
    assert r.hours * 3600 <= FestivalClock.TotalSeconds(r);
  }

  /** Different times render differently. */
  lemma FormatTimeInjective(a: FestivalClock.Remaining, b: FestivalClock.Remaining)
    requires InClockRange(a) && InClockRange(b)
    requires FormatTime(a) == FormatTime(b)
    ensures a == b
  {
    FormatTimeFields(a);
    FormatTimeFields(b);
    assert FormatTime(a)[0..2] == FormatTime(b)[0..2];
    assert FormatTime(a)[3..5] == FormatTime(b)[3..5];
    assert FormatTime(a)[6..8] == FormatTime(b)[6..8];
  }

  class Modal {
    /** The watch the dialog uploads to. */
    const praharNumber: int
    var step: Step
    var name: string
    var caption: string
    var selectedFile: Option<MemoryUpload.FileInfo>
    /** The data URL of the chosen file, once the reader has loaded it. */
    var preview: Option<string>
    var error: Option<string>

    /** The form is blank. */
    predicate Blank()
      reads this
    {
      step == Form && name == [] && caption == [] && selectedFile.None? && preview.None? && error.None?
    }

    /** A chosen file has passed the file check. */
    predicate Valid()
      reads this
    {
      selectedFile.Some? ==> FileCheck(selectedFile.value).None?
    }

    constructor (praharNumber: int)
      ensures this.praharNumber == praharNumber && Blank() && Valid()
    {
      this.praharNumber := praharNumber;
      step := Form;
      name := [];
      caption := [];
      selectedFile := None;
      preview := None;
      error := None;
    }

    /** The name input. */
    method SetName(value: string)
      modifies this
      ensures name == value && caption == old(caption) && step == old(step)
      ensures selectedFile == old(selectedFile) && preview == old(preview) && error == old(error)
    {
      name := value;
    }

    /** The caption input. */
    method SetCaption(value: string)
      modifies this
      ensures caption == value && name == old(name) && step == old(step)
      ensures selectedFile == old(selectedFile) && preview == old(preview) && error == old(error)
    {
      caption := value;
    }

    /** `handleFileSelect`: no file chosen changes nothing; a rejected file
        only sets the error and keeps any file chosen before; an accepted one
        clears the error and becomes the chosen file. */
    method HandleFileSelect(file: Option<MemoryUpload.FileInfo>)
      requires Valid()
      modifies this
      ensures Valid()
      ensures step == old(step) && name == old(name) && caption == old(caption) && preview == old(preview)
      ensures file.None? ==> error == old(error) && selectedFile == old(selectedFile)
      ensures file.Some? && FileCheck(file.value).Some? ==>
                error == FileCheck(file.value) && selectedFile == old(selectedFile)
      ensures file.Some? && FileCheck(file.value).None? ==> error.None? && selectedFile == file
    {
      if file.None? {
        return;
      }
      var f := file.value;
      if f.size > MemoryUpload.MaxUploadBytes {
        error := Some(FileTooLargeMessage);
        return;
      }
      if !MemoryUpload.IsImageType(f.mimeType) {
        error := Some(NotAnImageMessage);
        return;
      }
      error := None;
      selectedFile := file;
    }

    /** The file reader's `onload`: the preview of the chosen file. */
    method PreviewLoaded(dataUrl: string)
      modifies this
      ensures preview == Some(dataUrl)
      ensures step == old(step) && name == old(name) && caption == old(caption)
      ensures selectedFile == old(selectedFile) && error == old(error)
    {
      preview := Some(dataUrl);
    }

    /** The button on the preview: the chosen file and its preview are
        dropped, and the rest of the form stays. */
    method RemovePreview()
      modifies this
      ensures selectedFile.None? && preview.None? && Valid()
      ensures step == old(step) && name == old(name) && caption == old(caption) && error == old(error)
    {
      selectedFile := None;
      preview := None;
    }

    /** "Try Again" after a failed upload: back to the form, which keeps the
        name, caption, file, preview and the error message. */
    method TryAgain()
      modifies this
      ensures step == Form
      ensures name == old(name) && caption == old(caption) && selectedFile == old(selectedFile)
      ensures preview == old(preview) && error == old(error)
      ensures old(Valid()) ==> Valid()
    {
      step := Form;
    }

    /** The synchronous part of `handleUpload`: on a failed check only the
        error changes and the dialog stays where it was; otherwise it moves
        to uploading, clears the error and returns the service call. */
    method HandleUpload(currentPrahar: Option<int>) returns (request: Option<UploadRequest>)
      modifies this
      ensures name == old(name) && caption == old(caption)
      ensures selectedFile == old(selectedFile) && preview == old(preview)
      ensures var check := UploadCheck(old(selectedFile), old(name), UploadAllowed(currentPrahar, praharNumber));
              && (check.Some? ==> request.None? && error == check && step == old(step))
              && (check.None? ==> request.Some? && error.None? && step == Uploading)
      ensures request.Some? ==>
                && Some(request.value.file) == selectedFile
                && request.value.praharNumber == praharNumber
                && request.value.uploaderName == Trim(name) && request.value.uploaderName != []
                && request.value.caption == CaptionArgument(caption)
    {
      if selectedFile.None? || Trim(name) == [] {
        error := Some(IncompleteFormMessage);
        return None;
      }
      if !UploadAllowed(currentPrahar, praharNumber) {
        error := Some(OutsideWatchMessage);
        return None;
      }
      step := Uploading;
      error := None;
      request := Some(UploadRequest(selectedFile.value, praharNumber, Trim(name), CaptionArgument(caption)));
    }

    /** The service call settles: success, or the error's message (an empty
        or missing message, written `""`, gives the stock message). */
    method UploadSettled(outcome: Result<MemoryUpload.UserMemory, string>)
      modifies this
      ensures name == old(name) && caption == old(caption)
      ensures selectedFile == old(selectedFile) && preview == old(preview)
      ensures outcome.Success? ==> step == Succeeded && error == old(error)
      ensures outcome.Failure? ==> step == Failed && error.Some? && error.value != []
      ensures outcome.Failure? && outcome.error != [] ==> error == Some(outcome.error)
      ensures outcome.Failure? && outcome.error == [] ==> error == Some(UploadFailedMessage)
    {
      match outcome
      case Success(_) =>
        step := Succeeded;
      case Failure(message) =>
        error := Some(if message != [] then message else UploadFailedMessage);
        step := Failed;
    }

    /** `handleClose`, also run by the timer three seconds after a success:
        back to a blank form. */
    method HandleClose()
      modifies this
      ensures Blank() && Valid()
    {
      step := Form;
      name := [];
      caption := [];
      selectedFile := None;
      preview := None;
      error := None;
    }
  }
}
