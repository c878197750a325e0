# Asta Prahari festival site: a verified model of its rules

This project models, in Dafny, the rules of the Asta Prahari festival website.
The festival of Chadheigaon runs through eight three-hour watches (prahars).
The model covers:

- **The festival clock** (`FestivalClock`). It decides which watch is active
  on a festival date and how long the active watch has left. It also gates
  memory uploads to the active watch.
- **The upload service's pure steps** (`MemoryUpload`). These are the file
  checks, the sanitised file name, the storage path and the saved record.
- **The entry screen's hour-to-watch chain** (`EntryCeremony`). It is compared
  with the festival clock.
- **The shared watch store** (`PrahariStore`) and the four controls that
  drive it:
  - the desktop wheel (`PrahariWheel`);
  - the swipe gesture (`SwipeController`);
  - the carousel section (`PrahariWheelSection`);
  - the phone menu (`MobileNavigation`).

  The model tracks the invariant that ties the wheel's rotation to the
  current watch: the rotation is 45 degrees per step from watch 1.
- **The countdown card** to the opening of the festival (`EventCountdown`).
- **The generated photo archive and its lookups** (`PhotoData`). There are
  twelve years of twenty photos each.
- **The photo gallery's filters and wrap-around lightbox** (`PhotoGallery`).
- **The temple-of-memories corridor** (`TempleCorridor`). It filters memories,
  groups them by year, and shows the years newest first.
- **The memory-upload dialog's step machine** (`UploadModal`). It goes from
  form to uploading, then to success or error.
- **The three server endpoints**:
  - image upload (`UploadRoute`);
  - broadcast-key check (`BroadcastVerify`);
  - live-stream token grant (`LivekitRoute`).

Some modules are shared:

- `Wrappers` holds `Option` and `Result`.
- `Text` holds the JavaScript string built-ins the code uses: `trim`,
  `startsWith`, `padStart`, `String(n)`, `toLowerCase`, and `replace(/\s+/g, …)`.
- `Cyclic` holds JavaScript's `%` and the `(i + 1) % n` / `(i - 1 + n) % n`
  ring steps.
- `Seqs` holds filter, flatten and tabulate.
- `Slugs` holds the tag a moment's name gives its photos, and its
  character-by-character form for names of single-spaced words.
- `Arith` holds small division facts.

The model's shape follows each source file's form:

- Code that computes a value is a function with lemmas about it.
- State that handlers overwrite (the store, the dialog, the gallery, the
  carousel, the menu, the touch refs) is a class whose methods state the
  whole new state.
- The loops (`generateYearPhotos`, the `forEach` that builds
  `groupedByYear`) are methods with loop invariants. The in-place borrow
  steps of `getTimeRemainingInPrahar` are a straight-line method. Each is
  proved equal to a specification function.

The clock reading "now" is an explicit `Instant`. It holds the UTC date
string and the local hour, minute and second. `FESTIVAL_CONFIG` is an
explicit `FestivalConfig` value. Calls to Firebase, Cloudinary, the file
reader and JSON parsing are function parameters or outcome values.

## Model

| member | source | states |
|---|---|---|
| FestivalClock.CurrentPrahar | src/lib/memoryService.ts:53-79 | a reported watch is between 1 and `totalPrahars`; a date outside `allowedDates` (outside dev mode) gives null whatever the hour; an hour before `praharStartHour` gives null |
| FestivalClock.CurrentPraharIsHalfOpenInterval | src/lib/memoryService.ts:69-78 | watch k is reported exactly when the date is open, 1 ≤ k ≤ `totalPrahars`, and start + (k−1)·duration ≤ hour < start + k·duration |
| FestivalClock.WatchBoundaries | src/lib/memoryService.ts:72-73 | the first hour of watch k gives k, and the first hour of watch k+1 gives k+1 |
| FestivalClock.CurrentPraharMonotone | src/lib/memoryService.ts:72-73 | on one date, a later hour never gives an earlier watch |
| FestivalClock.ShippedWatches | src/lib/memoryService.ts:39-79 | with the shipped configuration, on an open date, hours 0-5 give null and hour h ≥ 6 gives watch (h−6) div 3 + 1, which lies in 1..6 |
| FestivalClock.ShippedNeverLateWatches | src/lib/memoryService.ts:69-78 | with the shipped configuration, watches 7 and 8 are never reported, and the `prahar > totalPrahars` branch cannot fire |
| FestivalClock.IsUploadAllowed | src/lib/memoryService.ts:82-85 | uploads are allowed for n exactly when the reported watch is n, so n is then a valid watch |
| FestivalClock.UploadAllowedForAtMostOneWatch | src/lib/memoryService.ts:82-85 | at most one watch accepts uploads at an instant, and none does when no watch is active |
| FestivalClock.Decompose | src/lib/memoryService.ts:101-121 | splits a number of seconds into hours, minutes below 60 and seconds below 60 that add back up to it |
| FestivalClock.RemainingInPrahar | src/lib/memoryService.ts:88-122 | null exactly when no watch is active; otherwise the minutes and seconds are in 0..59, and the total equals the end of the watch minus the time of day minus one second |
| FestivalClock.TimeRemainingInPrahar | src/lib/memoryService.ts:88-122 | the borrow steps compute exactly `RemainingInPrahar`; the `remainingHours < 0` null is never reached |
| FestivalClock.CountdownAtWatchEdges | src/lib/memoryService.ts:98-103 | at the first second of a watch the countdown shows (duration−1):59:59, and at its last second 00:00:00 |
| FestivalClock.RemainingUnique | src/lib/memoryService.ts:117-121 | two readings in clock range with the same total number of seconds are equal |
| FestivalClock.HoursIntoCycle | src/lib/memoryService.ts:72 | hours since the first watch began, on a 24-hour ring, lie in 0..23 |
| FestivalClock.CurrentPraharWrapped | src/store/prahariStore.ts:128 | the corrected clock: watches run past midnight; a reported watch is in 1..`totalPrahars`, and a closed date gives null |
| FestivalClock.WrappedAgreesWithinDay | src/lib/memoryService.ts:69-78 | wherever the original arithmetic reports a watch, the corrected clock reports the same one |
| FestivalClock.ShippedWrappedWatches | src/store/prahariStore.ts:128-145 | with the shipped configuration the corrected clock gives ((h + 18) mod 24) div 3 + 1 for every hour h, so 0-2 AM is watch 7 and 3-5 AM is watch 8 |
| FestivalClock.NoWatchEightAtThreeAm | src/lib/memoryService.ts:69 | at 03:00 on a festival date the original clock gives null, where the corrected clock gives watch 8 |
| FestivalClock.ExactRemainingInPrahar | src/lib/memoryService.ts:98-103 | the corrected countdown: null exactly when no watch is active; otherwise it adds up, with the time already spent in the cycle, to the end of the watch |
| FestivalClock.ExactCountdownAtWatchEdges | src/lib/memoryService.ts:98-103 | one second before a watch ends the corrected countdown shows 00:00:01, and at its first second it shows the whole watch |
| FestivalClock.CountdownShortAtEightFiftyNine | src/lib/memoryService.ts:101-103 | at 08:59:59 the original countdown shows 00:00:00 |
| FestivalClock.ExactCountdownAtEightFiftyNine | src/lib/memoryService.ts:98-103 | at 08:59:59 the corrected countdown shows 00:00:01 |
| MemoryUpload.SafeName | src/lib/memoryService.ts:144 | the sanitised name has the same length and holds only letters, digits, `.` and `_` |
| MemoryUpload.SafeNameSpec | src/lib/memoryService.ts:144 | each safe character stays in place and each other character becomes `_`; sanitising twice is sanitising once; an already safe name is unchanged |
| MemoryUpload.StoragePathStaysInFolder | src/lib/memoryService.ts:143-146 | the path is `memories/{year}/prahar-{n}/` followed by a leaf with no `/`, and the leaf ends with the sanitised name |
| MemoryUpload.CaptionField | src/lib/memoryService.ts:158 | a caption is kept exactly when its trimmed text is non-empty, and is then stored trimmed |
| MemoryUpload.UploadMemoryImage | src/lib/memoryService.ts:125-170 | size over 10 MiB fails first, then a non-`image/` type; on success the record has the uploaded URL, the watch, the trimmed name, the caption field, `isApproved` false, the festival year and the new document id; it succeeds exactly when both remote calls succeed, and it never checks the watch window |
| EntryCeremony.EntryPrahari | src/components/EntryCeremony.tsx:21-31 | the chain always yields a watch 1..8 |
| EntryCeremony.EntryPrahariIsSlot | src/components/EntryCeremony.tsx:24-31 | for hours 0..23 the chain equals ((hour + 18) mod 24) div 3 + 1, and the chosen watch's time range contains the hour |
| EntryCeremony.EntryPrahariStartsEachWatch | src/components/EntryCeremony.tsx:24-31 | the start hour of each watch in the table maps to that watch |
| EntryCeremony.EntryVersusFestivalClock | src/components/EntryCeremony.tsx:24-31 | from 6 AM on, the chain agrees with the festival clock; before 6 AM it gives 7 or 8 where the clock gives null; it agrees with the corrected clock at every hour |
| EntryCeremony.DetectPrahari | src/components/EntryCeremony.tsx:21-33 | the store's current watch becomes the chain's watch and contains the hour; rotation and the transition flag are untouched |
| PrahariStore.PraharisTable | src/store/prahariStore.ts:21-158 | the table has 8 rows, row k is watch k+1, and watch k+1 starts at hour (6 + 3k) mod 24 |
| PrahariStore.AlignedStep | src/components/PrahariWheel.tsx:30-37 | turning an aligned wheel by delta spokes to a watch delta places round the ring keeps it aligned |
| PrahariStore.AlignedWithOneWatch | src/components/MobileNavigation.tsx:18-19 | a wheel aligned with one watch is not aligned with any other watch |
| PrahariStore.Store.constructor | src/store/prahariStore.ts:169-176 | the store starts at watch 1, not transitioning, at rotation 0, with the wheel aligned |
| PrahariStore.Store.SetPrahari | src/store/prahariStore.ts:171 | for id 1..8 the current watch becomes row id−1, which has that id; no other field changes |
| PrahariStore.Store.SetTransitioning | src/store/prahariStore.ts:173 | only the transition flag changes |
| PrahariStore.Store.SetTotalRotation | src/store/prahariStore.ts:175 | only the rotation changes |
| PrahariWheel.ShortestDelta | src/components/PrahariWheel.tsx:30-34 | the delta lies in [−4, 4] and reaches the target modulo 8 |
| PrahariWheel.ShortestDeltaIsShortest | src/components/PrahariWheel.tsx:30-34 | no turn that reaches the target is shorter |
| PrahariWheel.ShortestDeltaOnIds | src/components/PrahariWheel.tsx:30-34 | between watch ids the normalised difference is the plain difference, corrected by ±8 beyond ±4; a difference of exactly ±4 keeps its sign; it is 0 only for the same watch |
| PrahariWheel.HandlePrahariClick | src/components/PrahariWheel.tsx:23-42 | a click while transitioning or on the current watch changes nothing; otherwise the flag is set, the rotation grows by 45·delta and the watch becomes the clicked one; the alignment invariant is preserved |
| SwipeController.NextId | src/components/SwipeController.tsx:30 | the next watch of 1..8 is a watch |
| SwipeController.PrevId | src/components/SwipeController.tsx:33 | the previous watch of 1..8 is a watch |
| SwipeController.NextPrevInverse | src/components/SwipeController.tsx:30-33 | next and previous undo each other, agree with the ring steps, and move one place round the eight |
| SwipeController.Controller.constructor | src/components/SwipeController.tsx:8-9 | both touch refs start empty |
| SwipeController.Controller.HandleTouchStart | src/components/SwipeController.tsx:14-16 | records the start coordinate only |
| SwipeController.Controller.HandleTouchMove | src/components/SwipeController.tsx:18-20 | records the end coordinate only |
| SwipeController.Controller.ChangePrahari | src/components/SwipeController.tsx:40-49 | does nothing while transitioning; otherwise sets the flag, turns the wheel 45·direction and selects the watch |
| SwipeController.Controller.HandleTouchEnd | src/components/SwipeController.tsx:22-38 | a missing or zero coordinate changes nothing; otherwise both refs are cleared, a left swipe (over 50) goes to the next watch at +45, a right swipe (under −50) goes to the previous watch at −45, and a short swipe or a running transition leaves the store alone; alignment is preserved |
| PrahariWheelSection.Section.constructor | src/components/PrahariWheelSection.tsx:10 | the carousel starts at index 0 |
| PrahariWheelSection.Section.HandlePrevious | src/components/PrahariWheelSection.tsx:17-21 | the index steps back with wrap-around (0 → 7) and stays in 0..7; the store shows row index; rotation and the flag are untouched |
| PrahariWheelSection.Section.HandleNext | src/components/PrahariWheelSection.tsx:23-27 | the index steps forward with wrap-around (7 → 0) and stays in 0..7; the store shows row index; rotation and the flag are untouched |
| PrahariWheelSection.Section.HandlePrahariClick | src/components/PrahariWheelSection.tsx:29-32 | the index becomes the clicked one and the store shows that row; rotation and the flag are untouched |
| PrahariWheelSection.NextThenPrevious | src/components/PrahariWheelSection.tsx:17-27 | next then previous restores the index and the store's watch |
| Cyclic.Next | src/components/PhotoGallery.tsx:55 | `(i + 1) % n` lies in [0, n), is i+1 inside the ring and 0 at its end |
| Cyclic.Prev | src/components/PhotoGallery.tsx:54 | `(i − 1 + n) % n` lies in [0, n), is i−1 inside the ring and n−1 at its start |
| Cyclic.PrevUndoesNext | src/components/PhotoGallery.tsx:53-55 | stepping back undoes stepping forward, and the reverse |
| Cyclic.NextIterIsMod | src/components/PrahariWheelSection.tsx:24 | k steps forward land on (i + k) mod n |
| Cyclic.FullLap | src/components/PrahariWheelSection.tsx:24 | n steps forward return to the start, so eight nexts come back round |
| Cyclic.JsRem | src/components/PhotoGallery.tsx:53-55 | JavaScript's `%` takes the sign of the dividend: it agrees with the mathematical remainder on non-negative numbers and is never positive on negative ones |
| MobileNavigation.Menu.constructor | src/components/MobileNavigation.tsx:10 | the sheet starts closed |
| MobileNavigation.Menu.Open | src/components/MobileNavigation.tsx:33 | the indicator button opens the sheet |
| MobileNavigation.Menu.Close | src/components/MobileNavigation.tsx:62 | the close button shuts the sheet |
| MobileNavigation.Menu.HandleSelect | src/components/MobileNavigation.tsx:12-22 | the sheet always closes; selecting while transitioning or selecting the current watch leaves the store alone; otherwise the flag is set and the watch selected; the rotation never changes |
| MobileNavigation.SelectLeavesWheelBehind | src/components/MobileNavigation.tsx:12-22 | from a fresh store, choosing watch 2 leaves the wheel at 0 degrees, no longer aligned with the current watch |
| EventCountdown.CalculateTimeLeft | src/components/EventCountdown.tsx:22-37 | a difference ≤ 0 gives all zeros; otherwise days = d div 86 400 000, hours in 0..23, minutes and seconds in 0..59, and days·86400 + hours·3600 + minutes·60 + seconds = d div 1000 |
| EventCountdown.Decomposition | src/components/EventCountdown.tsx:26-31 | the integer fields recombine to the whole seconds of the difference |
| EventCountdown.FloorOfRem | src/components/EventCountdown.tsx:29-31 | `Math.floor((d / n) % m)` on exact numbers is (d div n) mod m |
| PhotoData.MomentIndex | src/data/photoGallery.ts:34 | `Math.floor((i − 1) / 2.5) % 8` is 2(i−1) div 5, in 0..7 |
| PhotoData.Pad3Value | src/data/photoGallery.ts:36 | the padded number of photos 1..20 is three digits that read back as the number |
| PhotoData.Capitalize | src/data/photoGallery.ts:43 | same length, first character upper-cased, the rest kept |
| Slugs.Slug | src/data/photoGallery.ts:46 | the slug holds no whitespace and, for a name whose first character is not whitespace, starts with that character lower-cased |
| Slugs.DashSpaces | src/data/photoGallery.ts:46 | on a string whose whitespace is single spaces, never two in a row, the replacement turns each space into a dash and keeps every other character in place |
| Slugs.SlugOfWords | src/data/photoGallery.ts:46 | the slug of a name made of ASCII letters and single spaces is the name with each letter lower-cased and each space a dash, character for character |
| PhotoData.MomentSlugs | src/data/photoGallery.ts:20-46 | the eight moment tags are `evening-prayers`, `night-vigil`, `midnight-chant`, `brahma-muhurta`, `dawn-aarti`, `morning-gathering`, `noon-celebration` and `afternoon-wind-down` |
| PhotoData.MomentsInOrder | src/data/photoGallery.ts:20-29 | the moment table lists moments 1 to 8 in order |
| PhotoData.PhotoAt | src/data/photoGallery.ts:33-47 | photo i of a year carries that year and moment 2(i−1) div 5 + 1 |
| PhotoData.PhotoAtLabels | src/data/photoGallery.ts:35-46 | the id is `{year}-{moment}-{pad3(i)}`; the url is `/photos/{year}/{id}.jpg` and the thumbnail `/photos/{year}/thumbs/{id}.jpg`; the tags are the category `categories[(i−1) mod 12]`, `prahari-{moment}`, the year and the moment's slug |
| PhotoData.YearPhotos | src/data/photoGallery.ts:18-51 | a year has twenty photos |
| PhotoData.YearPhotoAt | src/data/photoGallery.ts:33-47 | position j of a year is photo j+1 |
| PhotoData.YearMomentAt | src/data/photoGallery.ts:34 | position j carries the year and moment 2j div 5 + 1 |
| PhotoData.GenerateYearPhotos | src/data/photoGallery.ts:18-51 | the loop pushes exactly the twenty photos of the year, in order |
| PhotoData.MomentRuns | src/data/photoGallery.ts:33-34 | each moment's photos in a year form one consecutive run, of 3 photos for odd moments and 2 for even ones |
| PhotoData.YearMoments | src/data/photoGallery.ts:34 | every position of a year carries its moment and its year |
| PhotoData.PhotoYears | src/data/photoGallery.ts:53-58 | twelve entries, entry k being year 2014+k with twenty photos |
| PhotoData.PhotoYearsAt | src/data/photoGallery.ts:53-58 | entry k is year 2014+k with its generated photos |
| PhotoData.FindYear | src/data/photoGallery.ts:61 | `find` gives none exactly when no entry has the year, and otherwise an entry of that year |
| PhotoData.FindYearFirst | src/data/photoGallery.ts:61 | `find` gives the first entry of the year, and its photos |
| PhotoData.GetPhotosByYearSpec | src/data/photoGallery.ts:60-62 | a year of the archive gives its twenty photos, and any other year gives [] |
| PhotoData.ArchiveYearFound | src/data/photoGallery.ts:60-62 | each year 2014-2025 gives exactly its generated twenty photos |
| PhotoData.OtherYearAbsent | src/data/photoGallery.ts:60-62 | a year outside 2014-2025 gives the empty list |
| PhotoData.AllPhotos | src/data/photoGallery.ts:65 | the flattened archive holds 240 photos |
| PhotoData.AllPhotosAt | src/data/photoGallery.ts:53-65 | position 20k+j of the flattened archive is photo j+1 of year 2014+k |
| PhotoData.GetPhotosByPrahari | src/data/photoGallery.ts:64-66 | keeps exactly the archive photos of that watch, in archive order |
| PhotoData.PrahariCount | src/data/photoGallery.ts:64-66 | an odd watch has 36 photos in the archive and an even watch 24 |
| PhotoData.GetPhotosByTag | src/data/photoGallery.ts:68-70 | keeps exactly the archive photos that carry the tag, in archive order |
| PhotoData.Totals | src/data/photoGallery.ts:72-73 | `totalYears` is 12 and `totalPhotos` is 240, the archive's length |
| PhotoData.PhotoIdsDistinct | src/data/photoGallery.ts:36 | two photos of four-digit years with the same id have the same year and number |
| PhotoData.PhotoIdsDiffer | src/data/photoGallery.ts:36 | photos of different years or different numbers have different ids |
| PhotoData.ArchiveIdsUnique | src/data/photoGallery.ts:33-58 | no two positions of the archive share an id |
| PhotoGallery.FilteredPhotos | src/components/PhotoGallery.tsx:31-45 | with a watch chosen, every shown photo is of that watch |
| PhotoGallery.FilteredEverything | src/components/PhotoGallery.tsx:34-35 | with no filter the grid is the whole archive, 240 photos |
| PhotoGallery.FilteredByYear | src/components/PhotoGallery.tsx:36-38 | with a year of the archive chosen the grid is that year's twenty photos |
| PhotoGallery.FilteredByOtherYear | src/components/PhotoGallery.tsx:36-38 | a year outside the archive gives an empty grid |
| PhotoGallery.FilteredByPrahari | src/components/PhotoGallery.tsx:40-42 | with only a watch chosen the grid is `getPhotosByPrahari` |
| PhotoGallery.FilteredByYearAndPrahari | src/components/PhotoGallery.tsx:34-42 | with both chosen the grid is that year's photos of that watch, in order |
| PhotoGallery.Gallery.constructor | src/components/PhotoGallery.tsx:14-17 | both filters start at "all", no photo is selected and the index is 0 |
| PhotoGallery.Gallery.SelectYear | src/components/PhotoGallery.tsx:92 | only the year filter changes |
| PhotoGallery.Gallery.SelectPrahari | src/components/PhotoGallery.tsx:108 | only the watch filter changes |
| PhotoGallery.Gallery.ClearFilters | src/components/PhotoGallery.tsx:173 | both filters go back to "all" |
| PhotoGallery.Gallery.HandlePhotoClick | src/components/PhotoGallery.tsx:47-50 | selects the photo and the index; on a grid photo at its own index the lightbox shows the grid |
| PhotoGallery.Gallery.ClosePhoto | src/components/PhotoGallery.tsx:190 | clears the selected photo and keeps the index |
| PhotoGallery.Gallery.NavigatePhoto | src/components/PhotoGallery.tsx:52-59 | the index steps forward or back with wrap-around, stays in the grid, and the selected photo is the grid photo at the new index |
| PhotoGallery.NextThenPrevious | src/components/PhotoGallery.tsx:52-59 | next then previous restores the index and the photo |
| TempleCorridor.FilteredMemories | src/components/TempleCorridor.tsx:16-22 | keeps m exactly when it is of the current watch and, with a non-zero year filter, of that year |
| TempleCorridor.FilteredMemoriesInOrder | src/components/TempleCorridor.tsx:17-21 | filtering keeps the list order: the filter of a + b is the filter of a followed by the filter of b |
| TempleCorridor.YearZeroIsNoFilter | src/components/TempleCorridor.tsx:19 | a year filter of 0 is no year filter |
| TempleCorridor.GroupedSpec | src/components/TempleCorridor.tsx:92-98 | every memory lands in its year's group, groups hold only memories of their year, and no group is empty |
| TempleCorridor.GroupedAt | src/components/TempleCorridor.tsx:92-98 | there is a group for exactly the years that occur, and each group is the in-order filter of the list for its year |
| TempleCorridor.GroupedSnoc | src/components/TempleCorridor.tsx:94-96 | one more memory is appended to its year's group, opening it when new |
| TempleCorridor.GroupByYear | src/components/TempleCorridor.tsx:92-98 | the `forEach` builds exactly the groups of the filtered list |
| TempleCorridor.DescendingYears | src/components/TempleCorridor.tsx:149 | sorting gives the same years in strictly descending order |
| TempleCorridor.InsertDescending | src/components/TempleCorridor.tsx:149 | inserting a year into a strictly descending list keeps it strictly descending and adds exactly that year |
| TempleCorridor.DescendingUnique | src/components/TempleCorridor.tsx:149 | two strictly descending lists of the same years are equal |
| TempleCorridor.Sections | src/components/TempleCorridor.tsx:148-157 | sections come in strictly descending year order, each with its year's group |
| TempleCorridor.SectionForEveryGroup | src/components/TempleCorridor.tsx:148-157 | each group gets a section, and each section is a group |
| TempleCorridor.SectionsIgnoreListing | src/components/TempleCorridor.tsx:148 | the sections do not depend on the order `Object.entries` lists the groups in |
| TempleCorridor.SectionSizesSum | src/components/TempleCorridor.tsx:43 | the section sizes add up to the filtered count the badge shows |
| UploadModal.AllowedIsClockGate | src/components/MemoryUploadModal.tsx:41 | the dialog's gate is the clock's upload gate, and passing it means the watch number is valid |
| UploadModal.FileCheck | src/components/MemoryUploadModal.tsx:47-57 | size over 10 MiB is refused first, then a non-image type; a file is taken exactly when both checks pass |
| UploadModal.UploadCheck | src/components/MemoryUploadModal.tsx:71-79 | a missing file or blank name is refused first, then a closed watch; the upload starts exactly when all three hold |
| UploadModal.SubmitEnabledIffChecksPass | src/components/MemoryUploadModal.tsx:264 | the button is enabled exactly when a click passes every check |
| UploadModal.CaptionArgument | src/components/MemoryUploadModal.tsx:89 | a caption is passed exactly when it is non-blank, and then trimmed |
| UploadModal.ServiceKeepsArguments | src/components/MemoryUploadModal.tsx:85-90 | the service's own trimming and blank-caption rule change nothing the dialog passes |
| UploadModal.TwoDigitsValue | src/components/MemoryUploadModal.tsx:115 | a number below 100 pads to two digits that spell it |
| UploadModal.FormatTimeFields | src/components/MemoryUploadModal.tsx:114-116 | `HH:MM:SS` has two digits per field, colons at 2 and 5, and each field reads back as its number |
| UploadModal.CountdownFitsTheClock | src/components/MemoryUploadModal.tsx:160 | the countdown the dialog shows always fits `HH:MM:SS` and is shorter than a watch |
| UploadModal.FormatTimeInjective | src/components/MemoryUploadModal.tsx:114-116 | different times render differently |
| UploadModal.Modal.constructor | src/components/MemoryUploadModal.tsx:32-37 | the dialog starts as a blank form |
| UploadModal.Modal.SetName | src/components/MemoryUploadModal.tsx:230 | only the name changes |
| UploadModal.Modal.SetCaption | src/components/MemoryUploadModal.tsx:243 | only the caption changes |
| UploadModal.Modal.HandleFileSelect | src/components/MemoryUploadModal.tsx:43-68 | no file changes nothing; a refused file only sets the error and keeps the earlier file; an accepted one clears the error and is selected; a selected file always passes the checks |
| UploadModal.Modal.PreviewLoaded | src/components/MemoryUploadModal.tsx:64-66 | only the preview changes |
| UploadModal.Modal.HandleUpload | src/components/MemoryUploadModal.tsx:70-90 | a failed check only sets its error and keeps the step; otherwise the dialog moves to uploading with no error and calls the service with the file, the watch, the trimmed name and the caption argument |
| UploadModal.Modal.UploadSettled | src/components/MemoryUploadModal.tsx:91-101 | success moves to the success step; failure moves to the error step with the error's message, or the stock message when it has none |
| UploadModal.Modal.RemovePreview | src/components/MemoryUploadModal.tsx:202-207 | the chosen file and its preview are cleared; step, name, caption and error stay |
| UploadModal.Modal.TryAgain | src/components/MemoryUploadModal.tsx:312-314 | the dialog returns to the form and keeps the name, caption, file, preview and error |
| UploadModal.Modal.HandleClose | src/components/MemoryUploadModal.tsx:104-112 | back to a blank form: step form, empty name and caption, no file, preview or error |
| UploadRoute.Folder | src/app/api/upload/route.ts:38 | the folder is `astapraharicha/memories/prahar-` followed by the posted value as it stands, or `null` |
| UploadRoute.FileCheck | src/app/api/upload/route.ts:17-29 | missing, then not an image, then over 10 MiB; a file passes exactly when it is present, an image and at most 10 MiB |
| UploadRoute.ServerError | src/app/api/upload/route.ts:51-56 | a 500 with the error's message, or "Upload failed" when it has none |
| UploadRoute.HandleUploadPost | src/app/api/upload/route.ts:11-58 | a parse error gives a 500; a failed file check gives 400 with its message; otherwise the image host's result becomes the URL and public id, or a 500 |
| UploadRoute.SizeLimitInclusive | src/app/api/upload/route.ts:27-29 | exactly 10 MiB passes, and one byte more gives the size message |
| UploadRoute.StatusCodes | src/app/api/upload/route.ts:11-58 | every reply is 200, 400 or 500, and a 400 comes only from the file checks |
| UploadRoute.FolderUnchecked | src/app/api/upload/route.ts:15-38 | the watch value is never checked: different values give different folders |
| UploadRoute.SameFilesOtherOrder | src/app/api/upload/route.ts:22-29 | the endpoint accepts the same files as the service, but an oversized non-image gets the type message here |
| BroadcastVerify.Verify | src/app/api/broadcast/verify/route.ts:3-44 | an unparsable body or a non-string key gives 400; a missing or empty server key gives 500; 200 with `valid: true` exactly when the trimmed keys are equal; 401 with `valid: false` exactly on a mismatch, an absent key included |
| BroadcastVerify.PaddingIsIgnored | src/app/api/broadcast/verify/route.ts:22-27 | whitespace around either key does not change the verdict |
| BroadcastVerify.UnconfiguredRefusesAll | src/app/api/broadcast/verify/route.ts:13-19 | without a server key every key gets 500 |
| BroadcastVerify.AbsentKeyIsMismatch | src/app/api/broadcast/verify/route.ts:22-35 | a body without a key gets 401 |
| BroadcastVerify.BlankServerKeyAcceptsBlank | src/app/api/broadcast/verify/route.ts:13-29 | a server key made only of whitespace passes the presence check and accepts any blank key |
| BroadcastVerify.ExactInside | src/app/api/broadcast/verify/route.ts:22-27 | between keys without surrounding whitespace the match is exact, so case and inner whitespace count |
| BroadcastVerify.MatchIffTrimmedEqual | src/app/api/broadcast/verify/route.ts:22-29 | with a server key, 200 exactly when the trimmed keys are equal |
| LivekitRoute.TokenRequest | src/app/api/livekit/route.ts:4-43 | a missing or empty room or username gives 400; then a missing key or secret gives 500; otherwise a token for the username, named the username, for 24h, joining the room with subscribe and data rights, publishing exactly when `host` is "true" |
| LivekitRoute.HostOnlyAddsPublishing | src/app/api/livekit/route.ts:7-38 | a host and a viewer get the same token except the right to publish |
| LivekitRoute.QueryCheckedFirst | src/app/api/livekit/route.ts:9-24 | a bad query is a 400 even on a server without credentials |
| LivekitRoute.OnlyExactTrueHosts | src/app/api/livekit/route.ts:7 | `True`, `1` or no value do not make a host |
| Text.Trim | src/app/api/broadcast/verify/route.ts:22-23 | `trim()` takes away whitespace prefixes and suffixes and leaves a result that neither starts nor ends with whitespace |
| Text.TrimUnique | src/app/api/broadcast/verify/route.ts:22-23 | the trimmed string is the unique middle between whitespace ends |
| Text.TrimUnpadded | src/app/api/broadcast/verify/route.ts:22-23 | a string without whitespace at its ends is its own trim |
| Text.BlankIffAllWhitespace | src/components/MemoryUploadModal.tsx:71 | `!s.trim()` holds exactly for strings made only of whitespace |
| Text.TrimIdempotent | src/lib/memoryService.ts:157-158 | trimming twice is trimming once |
| Text.TrimIgnoresPadding | src/app/api/broadcast/verify/route.ts:22-23 | whitespace added around a string does not change its trim |
| Text.PadStart | src/data/photoGallery.ts:36 | `padStart` pads to the width with the fill on the left and keeps the string at the end |
| Text.NatToString | src/data/photoGallery.ts:36 | `String(n)` is the shortest decimal spelling of n |
| Text.NatToStringInjective | src/data/photoGallery.ts:36 | different numbers have different spellings |
| Text.IntToString | src/lib/memoryService.ts:145-146 | a number interpolated into a string is its decimal spelling, with a minus sign before the magnitude when negative |
| Text.ToLower | src/data/photoGallery.ts:46 | `toLowerCase()` lower-cases each ASCII letter in place |
| Text.ReplaceWhitespaceRuns | src/data/photoGallery.ts:46 | `replace(/\s+/g, '-')` leaves no whitespace and leaves a string without whitespace unchanged |
| Text.ReplaceRunAtFront | src/data/photoGallery.ts:46 | a leading run of whitespace, however long, becomes one dash and the text after it is replaced on its own |
| Text.ReplaceKeepsWord | src/data/photoGallery.ts:46 | a leading non-whitespace character is kept and the rest is replaced on its own |
| Text.ReplaceKeepsWords | src/data/photoGallery.ts:46 | a leading stretch without whitespace is kept as it is |
| Text.ReplaceRun | src/data/photoGallery.ts:46 | in `x + w + y`, with `x` free of whitespace, `w` a whole run of whitespace and `y` not starting with whitespace, the run `w` becomes exactly one dash between `x` and the replaced `y` |

## Left out

- Firebase Storage and Firestore, the Cloudinary upload and LiveKit's `toJwt()` signing are not modelled. They are foreign asynchronous calls and appear only as parameters. The upload service gets `uploadBytes` and `addDoc`. The upload route gets the image host, and the token endpoint returns the parts it would sign.
- The other Firebase operations (`approveMemory`, `rejectMemory`, deletions, the `subscribe*` listeners) are not modelled; they are foreign I/O.
- `src/lib/livestreamService.ts` is not part of this model. It is database plumbing, and its room id uses `Math.random`.
- Time zones are not modelled. The date string (UTC, from `toISOString`) and the local hour, minute and second are independent fields of `Instant`. The clock and the countdown take the same `Instant`, where the code reads `new Date()` twice.
- The 1200 ms transition timer is not modelled as a timer. Clearing the flag is the separate `Store.SetTransitioning(false)` event.
- `UploadModal.Modal.SetName`, `UploadModal.Modal.SetCaption` and `UploadModal.Modal.HandleFileSelect`: the inputs' `disabled={!isUploadAllowed}` guards (src/components/MemoryUploadModal.tsx:179,192,232,245; line 179 gates the click on the drop area) are not modelled, so these run whether or not the watch is open. The upload itself is still gated by `HandleUpload`.
- The 3000 ms auto-close after a successful upload is modelled as a separate `Modal.HandleClose` event. The parent's `onClose` callback is left out.
- The file reader's `readAsDataURL` is modelled as the separate `Modal.PreviewLoaded` event.
- Rendering, animation (GSAP, framer-motion), the entry screen's progress ritual and the display-only fields (names, colours, mantras, descriptions, captions of memories) are not modelled.
- React closures and effect dependency lists are not modelled. A handler sees the store's current values, where React may hand it a stale render's values.
- Node's `FormData` parsing is not modelled: a text value in the upload form's `file` field is left out, and the form is a parsed `UploadForm` or a parse error. The base64 conversion before the image host is also left out.
- Broadcast JSON parsing is abstracted to `Option<KeyField>`: a key field that is absent, a string, or some other JSON value.
- Whitespace follows ECMAScript's `trim` and `\s` sets. Case mapping covers ASCII letters only, which are all the archive's names use.
- `EventCountdown.CalculateTimeLeft`: JavaScript's floating-point division is modelled as exact real division. The difference in milliseconds is an integer parameter, since the target instant is fixed and the current time is an input.
- `PrahariStore.Store.SetPrahari`: requires an id in 1..8. The code indexes `praharis[id - 1]` and would store `undefined` for any other id.
- `PrahariWheelSection.Section.HandlePrahariClick`: requires an index in 0..7, the only values the rendered buttons pass.
- `PhotoGallery.Gallery.NavigatePhoto`: requires a non-empty grid. With no photo the modulus is `NaN`, and the lightbox cannot be open then.
- `PhotoGallery.Gallery.SelectYear`: the photo index is not reset when a filter changes, as in the code, so `InStep` holds only after the next click or step.
- `TempleCorridor.Sections`: takes the years of the groups as any listing `keys`. `SectionsIgnoreListing` shows that the listing order does not matter, which stands for `Object.entries`' own order. The memory list of `src/data/memories.ts` is a parameter.
- `UploadRoute.Folder`: a missing watch value yields `null` in the folder name, as the template literal does. An empty one yields the bare `prahar-` prefix.
- `FestivalClock.ValidConfig`: requires a watch of at least one hour, because the code divides by the duration.
- `MemoryUpload.SafeName` and `MemoryUpload.StoragePath`: a Dafny `char` is a Unicode scalar value, while the code's regular expression (no `u` flag) works on UTF-16 code units. A character outside the Basic Multilingual Plane is one `_` in the model and two in the code: `📷.jpg` gives `{ts}__.jpg` here and `{ts}___.jpg` there. "Same length" counts scalar values, not code units.
- `SwipeController.Controller.HandleTouchStart`, `SwipeController.Controller.HandleTouchMove` and `SwipeController.Controller.HandleTouchEnd`: `clientX` is a double in the browser but an `int` here, so a fractional swipe distance such as 50.5 cannot be expressed. The 50-pixel thresholds are compared on whole pixels.
- `FestivalClock.RemainingInPrahar`: the clock reading `Instant` drops milliseconds, so it holds whole seconds only. The model therefore reads the code's countdown at the start of each second, where it is one second short of the true distance.
- `SwipeController.Controller.HandleTouchEnd`: the early return on a missing or zero coordinate skips the reset of both refs, as the code does. So the refs are not cleared after every touchend.

## Findings

| source | as written | input that shows it | evidently intended | confidence | as-written member | corrected member |
|---|---|---|---|---|---|---|
| src/lib/memoryService.ts:69-78 | an hour before `praharStartHour` gives null, so with the shipped configuration watches 7 (12-3 AM) and 8 (3-6 AM), which the watch table at src/store/prahariStore.ts:128,145 schedules, are never active and uploads for them are always refused | 03:00 on 2026-02-01 gives null | hours past midnight continue the cycle: 0-2 AM is watch 7 and 3-5 AM is watch 8 | high, not executed | FestivalClock.NoWatchEightAtThreeAm | FestivalClock.ShippedWrappedWatches |
| src/lib/memoryService.ts:98-103 | the countdown counts from the second after the current one: on a whole-second reading it is the distance to the end of the watch less one second, so in the last second of a watch it reads zero (with a non-zero millisecond part, which the model's clock reading does not carry, it is the true remaining time rounded down) | at 08:59:59 in watch 1 (dev mode, so any date) it shows 00:00:00 while up to one second of the watch remains | possibly a countdown that reaches zero only when the watch ends, 00:00:01 there; nothing in the source says which rounding is meant | low, not executed | FestivalClock.CountdownShortAtEightFiftyNine | FestivalClock.ExactCountdownAtEightFiftyNine |

The corrected clock (`CurrentPraharWrapped`, `ExactRemainingInPrahar`)
agrees with the original wherever the original reports a watch
(`WrappedAgreesWithinDay`). It also agrees with the entry screen at every
hour (`EntryVersusFestivalClock`). The rest of the model keeps the code's
behaviour, because that is what the site does.

The watch-number computation itself expects the cycle to run past midnight.
Its comment at src/lib/memoryService.ts:75 has watch 8 end at 6 AM, and the
watch table at src/store/prahariStore.ts:128,145 schedules watches 7 and 8
from midnight to 6 AM. The first row above follows that reading.
