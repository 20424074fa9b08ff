# Camera composition app: a verified model

This project models the core of an Android camera app for practising composition. The app
is written in Kotlin.

- **Camera screen** (`MainActivity`). It has two shooting modes:
  - *Composition Practice*: shots go to a public "Composition" folder.
  - *Deliberate Shooting* (film): shots go to a private roll of twelve exposures.
- **Film-roll state.** The shot counter, the mode, the last developed roll and the selected
  format are saved in the app's preferences and restored at start-up.
- **Capture.** Each capture is rotated upright from its EXIF orientation and then cropped,
  centred, to the selected format (6x6, 6x9, 6x12 or 4x5). A metadata record for the capture
  is stored next to it.
- **Developing a roll.** Each roll file is copied into a gallery folder named after the roll.
  The roll's format is saved under `ratio_<roll>`.
- **Viewfinder** (`OverlayView`). It draws a centred frame of the selected format and one of
  seven composition grids.
- **Roll gallery** (`GalleryActivity`, `PhotoAdapter`):
  - it lists a roll's JPEG files newest-name-first;
  - it picks a column count from the roll's format;
  - it lays out a shareable contact sheet;
  - it sub-samples thumbnails (`calculateInSampleSize`).
- **Photo detail screen** (`PhotoDetailActivity`). It keeps a favourites set, shows the
  photo's metadata (ISO, aperture, shutter speed, format) and stores free-text notes.

## How the model is laid out

The Dafny modules follow the source files:

| file | module | models |
|---|---|---|
| `wrappers.dfy` | `Wrappers` | `Option`, for Kotlin's nullable values |
| `views.dfy` | `Views` | `Visibility`, a view shown or gone, shared by both screens |
| `text.dfy` | `Text` | decimal rendering of integers in string templates, with its parse round trip |
| `prefs.dfy` | `Prefs` | Android `SharedPreferences` as a map from keys to typed values |
| `photo_metadata.dfy` | `Metadata` | `PhotoMetadata` and how a capture fills it |
| `overlay.dfy` | `Overlay` | `OverlayView`: formats, grids, frame geometry, the drawing as primitives |
| `capture.dfy` | `Capture` | `MainActivity`: persistence, UI enablement, rotation and crop, developing a roll |
| `sampling.dfy` | `Sampling` | `calculateInSampleSize`, which is identical in both gallery files |
| `adapter.dfy` | `Adapter` | `PhotoAdapter` |
| `gallery.dfy` | `Gallery` | `GalleryActivity`: span count, contact-sheet layout, JPEG listing and order |
| `photo_detail.dfy` | `PhotoDetail` | `PhotoDetailActivity` |

How state is modelled:

- Activities and the overlay view update their fields in place, so they are Dafny `class`es.
  Their methods state the complete new state, through an `ActivityState` record in
  `Capture` and field by field in `PhotoDetail`.
- Pure computations are functions, and lemmas state their properties.
- The file system is modelled as values held in fields: the private roll directory is a
  sequence of file names, and the public picture folders are a map from folder name to files.
- Events that arrive from outside become method parameters:
  - the roll id from the clock;
  - the EXIF values;
  - which roll files fail to open;
  - which roll files fail to be written to the gallery;
  - the screen orientation;
  - the text typed into the notes field.

Modelling choices worth knowing:

- **Format comparison.** Kotlin compares `width / height > ratio` in floating point. The model
  uses the exact fractions 1/1, 3/2, 2/1 and 4/5 and multiplies the comparison out, e.g.
  `w * den > h * num`. The view size is a real. For a zero height the multiplied-out form
  agrees with Kotlin's Infinity/NaN comparison, so the frame only requires non-negative sizes.
- **`/` on `Int`.** Kotlin's integer `/` truncates toward zero. The model uses it explicitly
  (`Sampling.KtDiv`) because decoded bounds are -1 when decoding fails. Elsewhere every
  operand is non-negative, so Dafny's `/` agrees with Kotlin's.
- **Null strings.** `putString(key, null)` removes the key. So a missing last-roll id
  round-trips through save and load as an absent key.
- **Reading preferences.** `Capture.WellFormed` states that the preferences hold what
  `loadState` reads with the right types, and that the saved mode name is a valid enum name.
  Otherwise the Kotlin code throws (`ClassCastException`, or `IllegalArgumentException` from
  `valueOf`). This is a precondition of loading. Two further facts hold of everything the
  screen itself saves, and are left out of the precondition because the screen never stores
  anything else: the shot counter is not negative (a negative one would only be shown, as
  "-1 / 12"), and the format index is in range (an index out of range makes
  `aspectRatios[currentRatioIndex]` throw).
- **Drawing inside the frame.** Nothing of a grid should be drawn in the dimmed area outside
  the frame. Every line is inside the frame, but the code draws the four 25-pixel markers of the "Thirds+" grid centred on
  the thirds crossings. They therefore reach outside a frame less than 75 pixels wide or
  tall. The model follows the code, and `Overlay.MarkersInsideFrameIff` states exactly when
  the markers stay inside.

## Model

| member | source | states |
|---|---|---|
| Overlay.AspectRatio.Value | app/src/main/java/com/example/cameracomposition/OverlayView.kt:19-24 | each format's ratio is positive and is exactly its width-over-height fraction (1, 1.5, 2, 0.8) |
| Overlay.Frame | app/src/main/java/com/example/cameracomposition/OverlayView.kt:99-115 | the frame lies inside the view, has the format's ratio and is centred; it spans the full height when the view is wider than the format, else the full width |
| Overlay.OverlayView.constructor | app/src/main/java/com/example/cameracomposition/OverlayView.kt:37-38 | a new viewfinder shows the 6x6 format with the thirds grid |
| Overlay.OverlayView.SetAspectRatio | app/src/main/java/com/example/cameracomposition/OverlayView.kt:86-89 | only the format changes; the grid stays |
| Overlay.OverlayView.SetGridType | app/src/main/java/com/example/cameracomposition/OverlayView.kt:91-94 | only the grid changes; the format stays |
| Overlay.OverlayView.Draw | app/src/main/java/com/example/cameracomposition/OverlayView.kt:96-172 | a redraw is the frame for the view size and current format, plus the current grid's primitives in that frame |
| Overlay.EmptyGrids | app/src/main/java/com/example/cameracomposition/OverlayView.kt:125-172 | nothing is drawn exactly for "Grid Off", "Lines" and "Frame"; every other grid draws something |
| Overlay.ThirdsGrid | app/src/main/java/com/example/cameracomposition/OverlayView.kt:126-135 | the thirds grid is two full-height verticals at one and two thirds of the width and two full-width horizontals at one and two thirds of the height |
| Overlay.IntersectionMarkers | app/src/main/java/com/example/cameracomposition/OverlayView.kt:148-163 | "Thirds+" is the thirds grid plus four 25-pixel circles; a circle centre is a thirds crossing, and every crossing has one |
| Overlay.MarkersInsideFrameIff | app/src/main/java/com/example/cameracomposition/OverlayView.kt:158-162 | the markers lie wholly inside the frame if and only if a third of its width and a third of its height are both at least 25 |
| Overlay.CenterCrossGrid | app/src/main/java/com/example/cameracomposition/OverlayView.kt:136-143 | the cross is one full-height vertical and one full-width horizontal through the frame's centre |
| Overlay.HeadroomGrid | app/src/main/java/com/example/cameracomposition/OverlayView.kt:164-167 | the headroom guide is a single full-width line one third down the frame |
| Overlay.GridAnchoredInFrame | app/src/main/java/com/example/cameracomposition/OverlayView.kt:125-172 | for every grid, each line lies within the frame and each circle is centred in it |
| Capture.NextIndex | app/src/main/java/com/example/cameracomposition/MainActivity.kt:211-224 | the format and grid buttons step to the next entry and wrap from the last to the first |
| Capture.PressesWrap | app/src/main/java/com/example/cameracomposition/MainActivity.kt:211-224 | up to one full cycle, k presses move the selection k places, wrapping once past the end |
| Capture.FullCycleReturns | app/src/main/java/com/example/cameracomposition/MainActivity.kt:211-224 | pressing as many times as there are entries returns to the start, and no fewer presses do |
| Capture.Store | app/src/main/java/com/example/cameracomposition/MainActivity.kt:443-451 | saving writes the counter, mode name and format index; it writes the last roll id or removes it when there is none; it leaves every other key alone |
| Capture.ModeNamed | app/src/main/java/com/example/cameracomposition/MainActivity.kt:457 | `valueOf` gives back the mode with the stored name |
| Capture.Restore | app/src/main/java/com/example/cameracomposition/MainActivity.kt:453-460 | loading yields a valid format index, and the defaults (0 shots, practice, no roll, index 0) for missing keys |
| Capture.StoreWellFormed | app/src/main/java/com/example/cameracomposition/MainActivity.kt:443-460 | whatever is saved can be loaded again without an exception |
| Capture.RestoreStore | app/src/main/java/com/example/cameracomposition/MainActivity.kt:443-460 | loading after saving restores exactly the saved state |
| Capture.ControlsFor | app/src/main/java/com/example/cameracomposition/MainActivity.kt:149-184 | the switch is checked iff in film mode, and the mode label reads "Composition Practice" or "Deliberate Shooting". Practice shows the shutter, hides the counter and develop button, and enables format and grid. Film shows the counter "n / 12", locks the format iff shots were taken, and shows develop instead of the shutter iff the roll is full |
| Capture.CounterTextDistinct | app/src/main/java/com/example/cameracomposition/MainActivity.kt:169 | different shot counts give different counter texts |
| Capture.FilmControlsAgree | app/src/main/java/com/example/cameracomposition/MainActivity.kt:138-181 | in film mode exactly one of shutter and develop is visible, and abandoning is offered exactly when the format is locked |
| Capture.RotationDegrees | app/src/main/java/com/example/cameracomposition/MainActivity.kt:484-488 | EXIF orientations 6, 3 and 8 rotate by 90, 180 and 270 degrees; every other value leaves the image as it is |
| Capture.RotatedSize | app/src/main/java/com/example/cameracomposition/MainActivity.kt:480-490 | rotation keeps the pixel count; quarter turns swap width and height, other turns keep them |
| Capture.CropFor | app/src/main/java/com/example/cameracomposition/MainActivity.kt:492-508 | the crop lies inside the image and is centred. A wider image keeps its height, with width the largest whole number not over height times ratio; otherwise it keeps its width, with height the largest not over width over ratio |
| Capture.ExactRatioKeepsWholeImage | app/src/main/java/com/example/cameracomposition/MainActivity.kt:498-507 | an image already in the format is kept whole |
| Capture.CropMatchesFrame | app/src/main/java/com/example/cameracomposition/MainActivity.kt:492-508 | cropping and the viewfinder take the same branch for the same size; the crop is the viewfinder frame truncated to whole pixels |
| Capture.Developed | app/src/main/java/com/example/cameracomposition/MainActivity.kt:390-401 | no more files reach the gallery than the roll holds |
| Capture.Lost | app/src/main/java/com/example/cameracomposition/MainActivity.kt:390-401 | no more files are lost than the roll holds |
| Capture.Kept | app/src/main/java/com/example/cameracomposition/MainActivity.kt:390-401 | no more files stay in the roll than it holds |
| Capture.DevelopPartitions | app/src/main/java/com/example/cameracomposition/MainActivity.kt:390-401 | developed, lost and kept files split the roll: together they are its multiset and their counts add up. A file develops iff it opens and its copy is written, is lost iff it opens and its copy fails, and stays iff it does not open |
| Capture.DevelopSplitsRoll | app/src/main/java/com/example/cameracomposition/MainActivity.kt:390-401 | the three outcomes of the develop loop together are the roll, as a multiset |
| Capture.DevelopedMembers | app/src/main/java/com/example/cameracomposition/MainActivity.kt:390-401 | a file reaches the gallery iff it is in the roll, opens and is written |
| Capture.LostMembers | app/src/main/java/com/example/cameracomposition/MainActivity.kt:390-401 | a file is lost iff it is in the roll, opens and its copy fails |
| Capture.KeptMembers | app/src/main/java/com/example/cameracomposition/MainActivity.kt:390-401 | a file stays in the roll iff it is in the roll and does not open |
| Capture.WriteFailureLosesPhoto | app/src/main/java/com/example/cameracomposition/MainActivity.kt:394-397 | a roll file that opens but whose copy fails is neither in the gallery nor in the roll afterwards |
| Capture.LostPhotoExample | app/src/main/java/com/example/cameracomposition/MainActivity.kt:522-540 | a one-photo roll whose copy fails counts one developed photo, yet the gallery gets nothing and the roll is left empty |
| Capture.KeptIntended | app/src/main/java/com/example/cameracomposition/MainActivity.kt:390-401 | the corrected develop keeps in the roll no more files than it holds |
| Capture.IntendedDevelopKeepsEveryPhoto | app/src/main/java/com/example/cameracomposition/MainActivity.kt:390-401 | with the correction, every roll file ends either in the gallery or still in the roll, and a file stays iff it fails to open or to be written |
| Capture.DevelopFiles | app/src/main/java/com/example/cameracomposition/MainActivity.kt:390-401 | the loop over the roll yields exactly the developed files and the files left behind, and a count of the developed plus the lost files, at most the roll's size |
| Capture.MetadataWritten | app/src/main/java/com/example/cameracomposition/MainActivity.kt:299-326 | the capture's record, with its path, the format, the EXIF values and empty notes, is stored under "metadata_" plus the file's path and every other key is untouched; an unreadable EXIF block stores nothing |
| Capture.MetadataWriteKeepsState | app/src/main/java/com/example/cameracomposition/MainActivity.kt:299-326 | storing photo records never disturbs the saved camera state |
| Capture.MainActivity.constructor | app/src/main/java/com/example/cameracomposition/MainActivity.kt:91-100 | start-up loads the saved state, selects the thirds grid and shows the saved format in the viewfinder |
| Capture.MainActivity.LoadState | app/src/main/java/com/example/cameracomposition/MainActivity.kt:453-460 | the four persisted fields become what the preferences hold; nothing else changes |
| Capture.MainActivity.SaveState | app/src/main/java/com/example/cameracomposition/MainActivity.kt:443-451 | the preferences become the stored form of the current state; nothing else changes |
| Capture.MainActivity.SelectMode | app/src/main/java/com/example/cameracomposition/MainActivity.kt:129-137 | selecting the mode in force changes nothing; another mode is set and saved |
| Capture.MainActivity.SwitchFormat | app/src/main/java/com/example/cameracomposition/MainActivity.kt:211-217 | the next format is selected, shown in the viewfinder and saved |
| Capture.MainActivity.SwitchGrid | app/src/main/java/com/example/cameracomposition/MainActivity.kt:219-224 | the next grid is selected and shown; nothing is saved |
| Capture.MainActivity.OnImageSaved | app/src/main/java/com/example/cameracomposition/MainActivity.kt:250-289 | the record is stored and the upright image is cropped to the format. A film shot joins the roll, advances the counter and is saved; a practice shot joins the composition folder |
| Capture.MainActivity.DevelopRoll | app/src/main/java/com/example/cameracomposition/MainActivity.kt:374-417 | an empty roll changes nothing. Otherwise the roll's format is saved, files that open leave the roll and those whose copy is written are added to the roll's folder, the rest stay, and the counter resets in practice mode, all saved. It returns how many left the roll, lost copies included |
| Capture.MainActivity.AbandonRoll | app/src/main/java/com/example/cameracomposition/MainActivity.kt:431-441 | the roll is emptied and the counter reset and saved; nothing else changes |
| Metadata.DefaultFor | app/src/main/java/com/example/cameracomposition/PhotoDetailActivity.kt:118-121 | the default record for a photo has its path, format "N/A", no exposure data and no notes |
| Metadata.Truncate | app/src/main/java/com/example/cameracomposition/MainActivity.kt:308 | `toLong` keeps the integer part, rounding toward zero |
| Metadata.ExposureNanosAsWritten | app/src/main/java/com/example/cameracomposition/MainActivity.kt:307-308 | as written, a parsed exposure time is truncated to whole seconds, and an unparsable one becomes 0 |
| Metadata.ExposureNanos | app/src/main/java/com/example/cameracomposition/MainActivity.kt:307-308 | as intended, the exposure time in nanoseconds is the parsed seconds times 10^9, truncated; an unparsable one becomes 0 |
| Metadata.SubSecondExposureLost | app/src/main/java/com/example/cameracomposition/MainActivity.kt:308 | as written, every exposure shorter than a second is recorded as 0 ns |
| Metadata.EighthOfMillisecondExample | app/src/main/java/com/example/cameracomposition/MainActivity.kt:308 | a 1/125 s exposure is recorded as 0 ns as written and as 8,000,000 ns as intended |
| Metadata.CapturedMetadata | app/src/main/java/com/example/cameracomposition/MainActivity.kt:305-317 | a capture's record holds its path, the selected format, the EXIF ISO, the f-number (0 when unparsable), the exposure in nanoseconds and no notes |
| Prefs.GetInt | app/src/main/java/com/example/cameracomposition/MainActivity.kt:455 | reading an integer gives the stored value, or the default when the key is missing |
| Prefs.GetString | app/src/main/java/com/example/cameracomposition/MainActivity.kt:456-458 | reading a string gives the stored value, or the default when the key is missing |
| Prefs.GetStringSet | app/src/main/java/com/example/cameracomposition/PhotoDetailActivity.kt:155 | reading a set gives the stored set, or the default when the key is missing |
| Prefs.PutString | app/src/main/java/com/example/cameracomposition/MainActivity.kt:448 | writing a string sets the key, writing null removes it, and other keys are unchanged |
| Text.NatToString | app/src/main/java/com/example/cameracomposition/MainActivity.kt:169 | a count renders as a non-empty string of decimal digits without a leading zero |
| Text.ParseNatToString | app/src/main/java/com/example/cameracomposition/MainActivity.kt:169 | the rendered digits read back as the same number |
| Text.NatToStringInjective | app/src/main/java/com/example/cameracomposition/MainActivity.kt:169 | different numbers render differently |
| Sampling.KtDiv | app/src/main/java/com/example/cameracomposition/GalleryActivity.kt:247-249 | integer division truncates toward zero, also for the -1 bounds of a failed decode: a negative quotient is the one whose product with the divisor is the nearest multiple at or above the dividend |
| Sampling.CalculateInSampleSize | app/src/main/java/com/example/cameracomposition/GalleryActivity.kt:243-254 | the factor is a power of two, and 1 when the image already fits. On exit the halved image sampled by it no longer covers the request, while sampled by half of it (when above 1) it still did. The copy in PhotoAdapter.kt:41-52 is identical |
| Sampling.PowersOfTwoOrdered | app/src/main/java/com/example/cameracomposition/GalleryActivity.kt:249-250 | of two different powers of two, the smaller is at most half the larger |
| Sampling.DivAntitone | app/src/main/java/com/example/cameracomposition/GalleryActivity.kt:249 | sampling by a larger factor never gives a larger size |
| Sampling.CoversAtSmallerFactor | app/src/main/java/com/example/cameracomposition/GalleryActivity.kt:249 | when a factor still covers the request, every smaller factor does too |
| Sampling.SampleSizeUnique | app/src/main/java/com/example/cameracomposition/GalleryActivity.kt:243-254 | for positive requests, exactly one power of two meets the loop's exit condition, so the result is determined |
| Adapter.PhotoAdapter.constructor | app/src/main/java/com/example/cameracomposition/PhotoAdapter.kt:12-13 | the adapter holds the listed files |
| Adapter.PhotoAdapter.ItemCount | app/src/main/java/com/example/cameracomposition/PhotoAdapter.kt:37-39 | the item count is the number of files |
| Gallery.LoadFilmRollAspectRatio | app/src/main/java/com/example/cameracomposition/GalleryActivity.kt:114-117 | a roll's format is the string stored under "ratio_" plus its id, or "4:3" when none was stored |
| Gallery.SpanCount | app/src/main/java/com/example/cameracomposition/GalleryActivity.kt:119-129 | the column count is between 1 and 5 |
| Gallery.LandscapeNoNarrower | app/src/main/java/com/example/cameracomposition/GalleryActivity.kt:122-128 | landscape never shows fewer columns than portrait |
| Gallery.SpanCountPerFormat | app/src/main/java/com/example/cameracomposition/GalleryActivity.kt:122-128 | for each format the app produces, and for the "4:3" default, the columns in landscape and portrait are as listed (4x5 and "4:3" fall to the default row) |
| Gallery.DevelopedRollFormat | app/src/main/java/com/example/cameracomposition/MainActivity.kt:414-417 | after developing, the gallery reads back the exact format name the camera stored for the roll, even after the camera saves its state |
| Gallery.RowsIsCeiling | app/src/main/java/com/example/cameracomposition/GalleryActivity.kt:174 | the row count is the ceiling of photos over columns |
| Gallery.RowOfIndex | app/src/main/java/com/example/cameracomposition/GalleryActivity.kt:201 | every photo's row is one of the sheet's rows |
| Gallery.CellInsideSheet | app/src/main/java/com/example/cameracomposition/GalleryActivity.kt:180-205 | every photo's 200 x 200 cell lies inside the sheet, below the header |
| Gallery.CellsApart | app/src/main/java/com/example/cameracomposition/GalleryActivity.kt:200-205 | the 200 x 200 cells of different photos do not overlap and keep the padding between them |
| Gallery.ContactSheetCells | app/src/main/java/com/example/cameracomposition/GalleryActivity.kt:200-212 | the loop places one cell per photo, at its row and column, inside the sheet and pairwise apart |
| Gallery.Extension | app/src/main/java/com/example/cameracomposition/GalleryActivity.kt:110 | a file's extension is the text after its last dot; it is empty exactly when the name has no dot or ends with one |
| Gallery.JpegFiles | app/src/main/java/com/example/cameracomposition/GalleryActivity.kt:109-110 | a name is listed iff it is a regular file with extension jpg or jpeg, in any letter case |
| Gallery.AtMostTotal | app/src/main/java/com/example/cameracomposition/GalleryActivity.kt:111 | any two paths are ordered one way or the other |
| Gallery.AtMostTransitive | app/src/main/java/com/example/cameracomposition/GalleryActivity.kt:111 | the path order is transitive |
| Gallery.Insert | app/src/main/java/com/example/cameracomposition/GalleryActivity.kt:111 | inserting adds exactly the one name |
| Gallery.InsertDescending | app/src/main/java/com/example/cameracomposition/GalleryActivity.kt:111 | inserting into a descending list keeps it descending |
| Gallery.SortDescending | app/src/main/java/com/example/cameracomposition/GalleryActivity.kt:111 | sorting is a permutation |
| Gallery.SortDescendingSorts | app/src/main/java/com/example/cameracomposition/GalleryActivity.kt:111 | the sorted list is descending |
| Gallery.LoadPhotosFromGallery | app/src/main/java/com/example/cameracomposition/GalleryActivity.kt:97-112 | a missing folder lists nothing; otherwise the list is a permutation of the folder's JPEG files |
| Gallery.LoadedPhotosSorted | app/src/main/java/com/example/cameracomposition/GalleryActivity.kt:109-111 | the listed photos are in descending path order and are all JPEG names |
| Gallery.SetupRecyclerView | app/src/main/java/com/example/cameracomposition/GalleryActivity.kt:132-138 | the grid gets the roll's column count, and a fresh adapter over the listed photos whose item count is their number |
| PhotoDetail.Toggled | app/src/main/java/com/example/cameracomposition/PhotoDetailActivity.kt:160-173 | a toggle removes the photo from the favourites when flagged and adds it otherwise; without a path, and for every other photo, nothing changes |
| PhotoDetail.ToggleKeepsFlag | app/src/main/java/com/example/cameracomposition/PhotoDetailActivity.kt:153-173 | a flag that agreed with the stored set still agrees after a toggle |
| PhotoDetail.ToggleTwiceRestores | app/src/main/java/com/example/cameracomposition/PhotoDetailActivity.kt:160-173 | two toggles from an agreeing state restore the favourites |
| PhotoDetail.StaleFlagDoubleToggle | app/src/main/java/com/example/cameracomposition/PhotoDetailActivity.kt:160-173 | with a stale flag, two toggles leave the photo added |
| PhotoDetail.FavoriteIcon | app/src/main/java/com/example/cameracomposition/PhotoDetailActivity.kt:58-66 | the star is filled iff the photo is flagged as a favourite |
| PhotoDetail.IsoLabel | app/src/main/java/com/example/cameracomposition/PhotoDetailActivity.kt:106 | a positive speed shows as "ISO: " and its decimal digits, which read back as the speed; any other value shows "ISO: N/A" |
| PhotoDetail.IsoLabelFaithful | app/src/main/java/com/example/cameracomposition/PhotoDetailActivity.kt:106 | a recorded speed is never shown as "N/A", and different recorded speeds show differently |
| PhotoDetail.RoundHalfUp | app/src/main/java/com/example/cameracomposition/PhotoDetailActivity.kt:141 | rounding gives the nearest integer, halves up |
| PhotoDetail.ShutterSpeedLabel | app/src/main/java/com/example/cameracomposition/PhotoDetailActivity.kt:135-143 | "N/A" iff there is no positive exposure. A second or more is shown in seconds; shorter times show "1/n", with n at least 1 and nearest to the exact reciprocal |
| PhotoDetail.SubSecondShutterShown | app/src/main/java/com/example/cameracomposition/MainActivity.kt:308 | a 1/125 s capture is shown as "N/A" as written and as "1/125" as intended |
| PhotoDetail.DisplayMetadata | app/src/main/java/com/example/cameracomposition/PhotoDetailActivity.kt:100-113 | without a record, every value shows "N/A" and the notes are empty. With one, the format and notes are the record's, the ISO and shutter labels are those of the record's speed and exposure, a positive aperture shows as that f-number, and each of ISO, aperture and shutter shows "N/A" iff its value is not positive |
| PhotoDetail.NotesRecord | app/src/main/java/com/example/cameracomposition/PhotoDetailActivity.kt:115-133 | saving notes updates the loaded record, or creates the default record when the photo has none; with neither, nothing is saved |
| PhotoDetail.NotesRoundTrip | app/src/main/java/com/example/cameracomposition/PhotoDetailActivity.kt:90-133 | after notes are saved, reopening the photo loads that record and shows the saved notes |
| PhotoDetail.PhotoDetailActivity.constructor | app/src/main/java/com/example/cameracomposition/PhotoDetailActivity.kt:31-46 | with a path, opening reads the favourite flag from the stored set and loads the photo's record; without one, it reads nothing |
| PhotoDetail.PhotoDetailActivity.CheckIfFavorited | app/src/main/java/com/example/cameracomposition/PhotoDetailActivity.kt:153-158 | the flag becomes whether the path is in the stored favourites (empty when none are stored); nothing else changes |
| PhotoDetail.PhotoDetailActivity.ToggleFavorite | app/src/main/java/com/example/cameracomposition/PhotoDetailActivity.kt:160-173 | the stored favourites become the toggled set, the flag flips, and agreement between them is kept |
| PhotoDetail.PhotoDetailActivity.LoadMetadata | app/src/main/java/com/example/cameracomposition/PhotoDetailActivity.kt:90-98 | a stored record replaces the held one, a missing one keeps it, and the display shows the result |
| PhotoDetail.PhotoDetailActivity.SaveNotes | app/src/main/java/com/example/cameracomposition/PhotoDetailActivity.kt:115-133 | the record with the new notes is held and stored under its own path; with no record and no path, nothing changes |
| PhotoDetail.PhotoDetailActivity.ToggleNotebookVisibility | app/src/main/java/com/example/cameracomposition/PhotoDetailActivity.kt:145-151 | the notes panel switches between shown and hidden; nothing else changes |

## Findings

| source | as written | input that shows it | evidently intended | confidence | as-written member | corrected member |
|---|---|---|---|---|---|---|
| app/src/main/java/com/example/cameracomposition/MainActivity.kt:308 | the factor 1,000,000,000 multiplies only the `?:` fallback, so a parsed exposure time in seconds goes straight to `toLong()` | EXIF exposure time "0.008" (1/125 s) is stored as 0 ns, and the detail screen shows the shutter speed as "N/A" | scale the parsed seconds to nanoseconds before truncating, giving 8,000,000 ns shown as "1/125" | high (not executed) | Metadata.ExposureNanosAsWritten | Metadata.ExposureNanos |
| app/src/main/java/com/example/cameracomposition/MainActivity.kt:394-397 | `saveBitmapToGallery` catches its own failure and returns null, which `developRoll` ignores; the file is then deleted from the roll and counted | a one-photo roll whose copy into the public pictures folder fails: the toast reports 1 developed photo, the gallery folder gets nothing and the roll is empty | delete and count a roll file only when its copy was written, leaving it in the roll otherwise | high (not executed) | Capture.WriteFailureLosesPhoto | Capture.IntendedDevelopKeepsEveryPhoto |

The discrepancy is exhibited by `Metadata.SubSecondExposureLost`, `Metadata.EighthOfMillisecondExample` and `PhotoDetail.SubSecondShutterShown`. The capture record (`Metadata.CapturedMetadata`) uses the corrected conversion.

The lost photo is exhibited by `Capture.WriteFailureLosesPhoto` and `Capture.LostPhotoExample`. `Capture.MainActivity.DevelopRoll` keeps the behaviour as written, because the roll state it describes is what the app leaves on the device; `Capture.KeptIntended` and `Capture.IntendedDevelopKeepsEveryPhoto` state the correction.

## Left out

- Camera binding, permissions, the MediaStore insertion, toasts, vibration, the shutter sound and the flash animation are left out. They are platform I/O and change no modelled state.
- Background execution is left out. `developRoll`'s executor loop and its UI-thread continuation run in sequence in `DevelopRoll`, so interleavings with other events are not modelled.
- Pixels are left out. Decoding, rotating, cropping and compressing bitmaps are modelled by their sizes and crop rectangles. A file that fails to open is given as the set `unreadable`.
- Capture.MainActivity.OnImageSaved: the case where the camera is not yet bound is left out; `takePhoto` simply returns then.
- Capture.MainActivity.OnImageSaved: the failure of the file overwrite is left out; it is logged and nothing else changes.
- Capture.MainActivity.OnImageSaved requires a positive decoded size. `Bitmap.createBitmap` rejects an empty crop, which the model does not follow.
- Capture.CropFor: float rounding is left out. Kotlin's `Float` ratios (1.5f, 0.8f) and the float product are replaced by exact fractions, so the crop can differ by one pixel where the float result lands within rounding of a whole number.
- Overlay.Frame: float rounding is left out. The frame is computed in exact reals.
- Capture.MainActivity.DevelopRoll: the roll id comes from the clock (a `yyyyMMdd_HHmmss` timestamp) and is a parameter.
- Capture.MainActivity.DevelopRoll: the folder's absolute path is left out.
- Capture.MainActivity.DevelopRoll: which files fail to open or fail to be written are parameters (`unreadable`, `unwritable`); the causes are storage I/O.
- Capture.MainActivity.DevelopRoll: the shot counter still resets to 0 even when files stay behind. The model states this as the code does it.
- Capture.MainActivity.AbandonRoll: the confirmation dialog is left out. The model is the confirmed action.
- Capture.MetadataWritten: reading EXIF attributes is left out (a foreign library). The values are a parameter, with None for an EXIF block that throws.
- Capture.MetadataWritten: parsing the decimal texts is left out. The parsed value is given directly.
- The grid index is not persisted in the source. The model keeps it so, and it starts at "Thirds" each time.
- Prefs: Gson serialisation of `PhotoMetadata` is left out. The record is stored as a value, since a round trip through Gson gives back the same fields.
- Prefs: `apply()`'s asynchronous write to disk is left out. It is treated as immediate.
- Capture.WellFormed: the exceptions thrown for mistyped or unknown stored values are not modelled. The model requires well-formed preferences instead.
- Sampling.CalculateInSampleSize requires a positive requested width or height. Both callers pass constants (150 and 200). With neither positive the loop condition stays true, so the `Int` factor doubles until it wraps to `Int.MIN_VALUE` and then to 0 after 32 steps, and `halfHeight / 0` throws `ArithmeticException`.
- Sampling.CalculateInSampleSize does not model 32-bit overflow of the doubling, because with a positive request the factor stays at most half the decoded size, which fits in an `Int`.
- PhotoDetail.ShutterSpeedLabel does not render the `Double` of seconds as text; it keeps the value in seconds.
- PhotoDetail.DisplayMetadata keeps the aperture as a number instead of its `Float` text. It also does not join the labels into one line with " • ".
- Sharing (the share intents and the contact sheet's bitmap drawing, title text and file provider) is left out. The contact sheet's layout arithmetic is modelled (`Gallery.ContactSheetCells`).
- GalleryActivity's missing-roll-id path (a toast, then finish) is left out. The model takes the roll id as given.
- Decoding thumbnails with the computed factor is left out.
- Gallery.CellInsideSheet and Gallery.CellsApart speak of the 200 x 200 cells only. `createContactSheet` draws each decoded bitmap at its own size (GalleryActivity.kt:209), and the sampling factor only keeps it at least 200 pixels on each side. A 3000 x 3000 photo gets factor 8 and is drawn 375 pixels wide against a 220-pixel stride, so drawn thumbnails can overlap their neighbours and run off the sheet.
- The "6x7" row of the column table can never be selected. No format has that name; `Gallery.SpanCountPerFormat` states what each real format gets.
- Gallery.AtMost orders names by Dafny characters, which are Unicode scalar values, while `String.compareTo` (used by `java.io.File.compareTo` on Linux and so by `sortedDescending`) compares UTF-16 code units. The two orders agree except when a character outside the Basic Multilingual Plane meets one in U+E000 to U+FFFF at the same position. The full path is the roll folder plus the name, so ordering names gives the same order as ordering paths.
- Gallery.EqualsIgnoreCase folds only ASCII letters. This is exact for comparisons against "jpg" and "jpeg".
- PhotoDetail.PhotoDetailActivity.constructor takes the notes panel's initial visibility as a parameter. It comes from the layout file, which is not part of this model.
- PhotoDetail.PhotoDetailActivity.SaveNotes replaces the held record instead of mutating the shared object. Aliasing of the record is not modelled.
