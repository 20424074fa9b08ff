/**
 * The camera screen (MainActivity.kt): the shooting mode and film-roll counter, the
 * selected format and grid, their persistence in the preferences store, the controls
 * each state enables, and the centred crop applied to every captured image.
 */
module Capture {
  import opened Wrappers
  import opened Prefs
  import opened Metadata
  import opened Views
  import Overlay
  import Text

  datatype ShootingMode = Practice | Film {
    /** `ShootingMode.name`, the string saved in the preferences. */
    function Name(): string {
      match this
      case Practice => "PRACTICE"
      case Film => "FILM"
    }
  }

  const RollCapacity: nat := 12

  const KeyShotsTaken: string := "shotsTaken"
  const KeyShootingMode: string := "shootingMode"
  const KeyLastRollId: string := "lastDevelopedRollId"
  const KeyRatioIndex: string := "ratioIndex"
  /** Prefix of the key under which a developed roll's format name is kept. */
  const RollRatioPrefix: string := "ratio_"
  /** Gallery sub-folder that receives practice shots. */
  const CompositionFolder: string := "Composition"
  /** `currentGridIndex`'s initial value: THIRDS, the overlay's own default grid. */
  const InitialGridIndex: nat := 1

  // ---------------------------------------------------------------------------
  // Index cycling of switchFormat / switchGrid

  function NextIndex(i: nat, n: nat): (j: nat)
    requires n > 0
    ensures j < n
    ensures i < n - 1 ==> j == i + 1
    ensures i == n - 1 ==> j == 0
  {
    (i + 1) % n
  }

  /** The index after `k` presses of the button. */
  function Presses(i: nat, n: nat, k: nat): nat
    requires n > 0
  {
    if k == 0 then i else NextIndex(Presses(i, n, k - 1), n)
  }

  /** Within one cycle, k presses advance the index by k, wrapping once past the end. */
  lemma {:induction false} PressesWrap(i: nat, n: nat, k: nat)
    requires n > 0 && i < n && k <= n
    ensures Presses(i, n, k) == if i + k < n then i + k else i + k - n
  {
    if k > 0 {
      PressesWrap(i, n, k - 1);
    }
  }

  /** A full cycle of presses returns to the starting format or grid, and no shorter one does. */
  lemma FullCycleReturns(i: nat, n: nat)
    requires n > 0 && i < n
    ensures Presses(i, n, n) == i
    ensures forall k :: 0 < k < n ==> Presses(i, n, k) != i
  {
    PressesWrap(i, n, n);
    forall k | 0 < k < n
      ensures Presses(i, n, k) != i
    {
      PressesWrap(i, n, k);
    }
  }

  // ---------------------------------------------------------------------------
  // Persisted state (saveState / loadState)

  /** The four values that saveState writes and loadState reads back. */
  datatype Persisted = Persisted(shotsTaken: nat, mode: ShootingMode, lastRollId: Option<string>, ratioIndex: nat)

  predicate IsPersistedKey(k: string) {
    k == KeyShotsTaken || k == KeyShootingMode || k == KeyLastRollId || k == KeyRatioIndex
  }

  /** The preference edit of `saveState`. */
  function Store(p: SharedPrefs, s: Persisted): (r: SharedPrefs)
    ensures KeyShotsTaken in r && r[KeyShotsTaken] == IntPref(s.shotsTaken)
    ensures KeyShootingMode in r && r[KeyShootingMode] == StringPref(s.mode.Name())
    ensures KeyRatioIndex in r && r[KeyRatioIndex] == IntPref(s.ratioIndex)
    ensures KeyLastRollId in r <==> s.lastRollId.Some?
    ensures s.lastRollId.Some? ==> r[KeyLastRollId] == StringPref(s.lastRollId.value)
    ensures forall k :: !IsPersistedKey(k) ==> (k in r <==> k in p) && (k in r ==> r[k] == p[k])
  {
    var withCounts := p[KeyShotsTaken := IntPref(s.shotsTaken)][KeyShootingMode := StringPref(s.mode.Name())];
    PutString(withCounts, KeyLastRollId, s.lastRollId)[KeyRatioIndex := IntPref(s.ratioIndex)]
  }

  /**
   * Preferences as this screen writes them. loadState throws on a value of the wrong
   * type or a mode name `ShootingMode.valueOf` does not know. The screen never stores a
   * negative counter or an out-of-range format index; such an index would make
   * `aspectRatios[currentRatioIndex]` throw, and a negative counter would only be shown.
   */
  predicate WellFormed(p: SharedPrefs) {
    && IntOrAbsent(p, KeyShotsTaken) && (KeyShotsTaken in p ==> p[KeyShotsTaken].i >= 0)
    && StringOrAbsent(p, KeyShootingMode)
    && (KeyShootingMode in p ==> p[KeyShootingMode].s in {"PRACTICE", "FILM"})
    && StringOrAbsent(p, KeyLastRollId)
    && IntOrAbsent(p, KeyRatioIndex)
    && (KeyRatioIndex in p ==> 0 <= p[KeyRatioIndex].i < |Overlay.AspectRatios|)
  }

  function ModeNamed(name: string): (m: ShootingMode)
    requires name in {"PRACTICE", "FILM"}
    ensures m.Name() == name
  {
    if name == "FILM" then Film else Practice
  }

  /** What `loadState` reads; every missing key falls back to its default. */
  function Restore(p: SharedPrefs): (s: Persisted)
    requires WellFormed(p)
    ensures s.ratioIndex < |Overlay.AspectRatios|
    ensures KeyShotsTaken !in p ==> s.shotsTaken == 0
    ensures KeyShootingMode !in p ==> s.mode == Practice
    ensures KeyLastRollId !in p ==> s.lastRollId == None
    ensures KeyRatioIndex !in p ==> s.ratioIndex == 0
  {
    var shots := GetInt(p, KeyShotsTaken, 0);
    var modeName := GetString(p, KeyShootingMode, Some(Practice.Name())).GetOr(Practice.Name());
    Persisted(shots, ModeNamed(modeName), GetString(p, KeyLastRollId, None), GetInt(p, KeyRatioIndex, 0))
  }

  /** Whatever was stored before, saveState leaves the preferences well formed. */
  lemma StoreWellFormed(p: SharedPrefs, s: Persisted)
    requires s.ratioIndex < |Overlay.AspectRatios|
    ensures WellFormed(Store(p, s))
  {
  }

  /** loadState after saveState restores all four values, whatever else the store holds. */
  lemma RestoreStore(p: SharedPrefs, s: Persisted)
    requires s.ratioIndex < |Overlay.AspectRatios|
    ensures WellFormed(Store(p, s)) && Restore(Store(p, s)) == s
  {
    var r := Store(p, s);
    assert s.mode.Name() in {"PRACTICE", "FILM"};
    assert ModeNamed(s.mode.Name()) == s.mode;
  }

  // ---------------------------------------------------------------------------
  // Controls derived from the state (updateUiForMode)

  /** Where the gallery button leads, and which icon it shows. */
  datatype GalleryTarget = CompositionGallery | Rolls

  datatype Controls = Controls(
    modeSwitchChecked: bool,
    modeLabel: string,
    gallery: GalleryTarget,
    filmCounter: Visibility,
    counterText: Option<string>,  // None: the text is left as it was
    develop: Visibility,
    shutter: Visibility,
    formatEnabled: bool,
    gridEnabled: bool)

  function CounterText(shots: nat): string {
    Text.NatToString(shots) + " / " + Text.NatToString(RollCapacity)
  }

  function ControlsFor(mode: ShootingMode, shots: nat): (c: Controls)
    ensures c.modeSwitchChecked <==> mode == Film
    ensures c.gridEnabled
    ensures mode == Practice ==> c.modeLabel == "Composition Practice"
    ensures mode == Film ==> c.modeLabel == "Deliberate Shooting"
    ensures mode == Practice ==>
      && c.gallery == CompositionGallery && c.filmCounter == Gone && c.counterText == None
      && c.shutter == Visible && c.develop == Gone && c.formatEnabled
    ensures mode == Film ==>
      && c.gallery == Rolls && c.filmCounter == Visible && c.counterText == Some(CounterText(shots))
      && (c.develop == Visible <==> shots >= RollCapacity)
      && (c.shutter == Visible <==> shots < RollCapacity)
      && (c.formatEnabled <==> shots == 0)
  {
    match mode
    case Practice =>
      Controls(false, "Composition Practice", CompositionGallery, Gone, None, Gone, Visible, true, true)
    case Film =>
      var full := shots >= RollCapacity;
      Controls(true, "Deliberate Shooting", Rolls, Visible, Some(CounterText(shots)),
               if full then Visible else Gone, if full then Gone else Visible, shots == 0, true)
  }

  /** The film counter's label names the exact shot count: distinct counts, distinct labels. */
  lemma {:induction false} CounterTextDistinct(a: nat, b: nat)
    ensures CounterText(a) == CounterText(b) ==> a == b
  {
    if CounterText(a) == CounterText(b) {
      var sa, sb := Text.NatToString(a), Text.NatToString(b);
      var tail := " / " + Text.NatToString(RollCapacity);
      assert CounterText(a) == sa + tail && CounterText(b) == sb + tail;
      assert sa == (sa + tail)[..|sa|];
      assert sb == (sb + tail)[..|sb|];
      Text.NatToStringInjective(a, b);
    }
  }

  /** The long press on the counter offers to abandon the roll only once a shot is on it. */
  predicate AbandonOffered(shots: nat) {
    shots > 0
  }

  /**
   * In film mode exactly one of shutter and develop is shown, and the abandon offer is
   * available exactly while the format is locked.
   */
  lemma FilmControlsAgree(shots: nat)
    ensures var c := ControlsFor(Film, shots);
      && (c.shutter == Visible) != (c.develop == Visible)
      && (AbandonOffered(shots) <==> !c.formatEnabled)
  {
  }

  // ---------------------------------------------------------------------------
  // Rotation and crop of a captured image (rotateBitmap / cropBitmap)

  /** ExifInterface's orientation tags for a quarter, half and three-quarter turn. */
  const OrientationRotate90: int := 6
  const OrientationRotate180: int := 3
  const OrientationRotate270: int := 8

  function RotationDegrees(orientation: int): (deg: int)
    ensures deg == 0 || deg == 90 || deg == 180 || deg == 270
    ensures deg == 0 <==>
      orientation != OrientationRotate90 && orientation != OrientationRotate180 && orientation != OrientationRotate270
  {
    if orientation == OrientationRotate90 then 90
    else if orientation == OrientationRotate180 then 180
    else if orientation == OrientationRotate270 then 270
    else 0
  }

  datatype Size = Size(width: int, height: int)

  /** The dimensions of the upright image `Bitmap.createBitmap` returns for the rotation. */
  function RotatedSize(s: Size, orientation: int): (r: Size)
    ensures r.width * r.height == s.width * s.height
    ensures RotationDegrees(orientation) % 180 == 90 ==> r == Size(s.height, s.width)
    ensures RotationDegrees(orientation) % 180 == 0 ==> r == s
  {
    var deg := RotationDegrees(orientation);
    if deg == 90 || deg == 270 then Size(s.height, s.width) else s
  }

  datatype CropBox = CropBox(x: int, y: int, width: int, height: int)

  /** `sourceWidth / sourceHeight > ratio`, multiplied out over the exact fraction. */
  predicate SourceWider(w: int, h: int, ratio: Overlay.AspectRatio) {
    w * ratio.Den() > h * ratio.Num()
  }

  /**
   * The centred crop of `cropBitmap`: the kept dimension is the full one, the other is
   * the kept one times (or over) the ratio, truncated; the offsets halve the slack.
   */
  function CropFor(w: int, h: int, ratio: Overlay.AspectRatio): (c: CropBox)
    requires w > 0 && h > 0
    ensures 0 <= c.x && 0 <= c.y && 0 <= c.width && 0 <= c.height
    ensures c.x + c.width <= w && c.y + c.height <= h
    ensures c.x == (w - c.width) / 2 && c.y == (h - c.height) / 2
    ensures SourceWider(w, h, ratio) ==>
      c.height == h && c.width * ratio.Den() <= h * ratio.Num() < (c.width + 1) * ratio.Den()
    ensures !SourceWider(w, h, ratio) ==>
      c.width == w && c.height * ratio.Num() <= w * ratio.Den() < (c.height + 1) * ratio.Num()
  {
    var num, den := ratio.Num(), ratio.Den();
    var targetWidth := if SourceWider(w, h, ratio) then (h * num) / den else w;
    var targetHeight := if SourceWider(w, h, ratio) then h else (w * den) / num;
    CropBox((w - targetWidth) / 2, (h - targetHeight) / 2, targetWidth, targetHeight)
  }

  /** An image already in the format is kept whole, whichever branch the comparison takes. */
  lemma ExactRatioKeepsWholeImage(w: int, h: int, ratio: Overlay.AspectRatio)
    requires w > 0 && h > 0 && w * ratio.Den() == h * ratio.Num()
    ensures CropFor(w, h, ratio) == CropBox(0, 0, w, h)
  {
  }

  /**
   * The crop keeps what the viewfinder framed: for an image of the same size as the
   * view, it takes the same branch as the overlay's frame and its size is the frame's
   * size truncated to whole pixels.
   */
  lemma CropMatchesFrame(w: int, h: int, ratio: Overlay.AspectRatio)
    requires w > 0 && h > 0
    ensures SourceWider(w, h, ratio) <==> Overlay.WiderThan(w as real, h as real, ratio)
    ensures var f := Overlay.Frame(w as real, h as real, ratio);
      var c := CropFor(w, h, ratio);
      c.width == f.Width().Floor && c.height == f.Height().Floor
  {
  }

  // ---------------------------------------------------------------------------
  // Developing a roll

  /**
   * A roll file meets one of three fates in `developRoll`'s loop. One in `unreadable`
   * fails to open or decode; the exception reaches the loop's own `catch`, so the file
   * stays in the roll. One in `unwritable` opens, but its copy into the gallery folder
   * fails; `saveBitmapToGallery` swallows that failure and returns null, which the loop
   * ignores, so the file is deleted and counted anyway. Every other file is copied into
   * the gallery, deleted from the roll and counted.
   */
  function Developed(files: seq<string>, unreadable: set<string>, unwritable: set<string>): (d: seq<string>)
    ensures |d| <= |files|
  {
    if files == [] then []
    else (if files[0] in unreadable || files[0] in unwritable then [] else [files[0]])
         + Developed(files[1..], unreadable, unwritable)
  }

  /** The files deleted from the roll without reaching the gallery. */
  function Lost(files: seq<string>, unreadable: set<string>, unwritable: set<string>): (l: seq<string>)
    ensures |l| <= |files|
  {
    if files == [] then []
    else (if files[0] !in unreadable && files[0] in unwritable then [files[0]] else [])
         + Lost(files[1..], unreadable, unwritable)
  }

  /** The roll's files left behind in the roll directory after developing. */
  function Kept(files: seq<string>, unreadable: set<string>): (k: seq<string>)
    ensures |k| <= |files|
  {
    if files == [] then []
    else (if files[0] in unreadable then [files[0]] else []) + Kept(files[1..], unreadable)
  }

  /**
   * The three fates split the roll: every file is developed, lost or kept, exactly as
   * it opens and as its copy is written.
   */
  lemma DevelopPartitions(files: seq<string>, unreadable: set<string>, unwritable: set<string>)
    ensures multiset(Developed(files, unreadable, unwritable)) + multiset(Lost(files, unreadable, unwritable))
              + multiset(Kept(files, unreadable)) == multiset(files)
    ensures |Developed(files, unreadable, unwritable)| + |Lost(files, unreadable, unwritable)|
              + |Kept(files, unreadable)| == |files|
    ensures forall f :: f in Developed(files, unreadable, unwritable) <==>
      f in files && f !in unreadable && f !in unwritable
    ensures forall f :: f in Lost(files, unreadable, unwritable) <==> f in files && f !in unreadable && f in unwritable
    ensures forall f :: f in Kept(files, unreadable) <==> f in files && f in unreadable
  {
    DevelopSplitsRoll(files, unreadable, unwritable);
    DevelopedMembers(files, unreadable, unwritable);
    LostMembers(files, unreadable, unwritable);
    KeptMembers(files, unreadable);
  }

  lemma {:induction false} DevelopSplitsRoll(files: seq<string>, unreadable: set<string>, unwritable: set<string>)
    ensures multiset(Developed(files, unreadable, unwritable)) + multiset(Lost(files, unreadable, unwritable))
              + multiset(Kept(files, unreadable)) == multiset(files)
  {
    if files != [] {
      var x, rest := files[0], files[1..];
      DevelopSplitsRoll(rest, unreadable, unwritable);
      var D, L, K := Developed(rest, unreadable, unwritable), Lost(rest, unreadable, unwritable), Kept(rest, unreadable);
      if x in unreadable {
        assert Developed(files, unreadable, unwritable) == D;
        assert Lost(files, unreadable, unwritable) == L;
        assert Kept(files, unreadable) == [x] + K;
      } else if x in unwritable {
        assert Developed(files, unreadable, unwritable) == D;
        assert Lost(files, unreadable, unwritable) == [x] + L;
        assert Kept(files, unreadable) == K;
      } else {
        assert Developed(files, unreadable, unwritable) == [x] + D;
        assert Lost(files, unreadable, unwritable) == L;
        assert Kept(files, unreadable) == K;
      }
      assert multiset(files) == multiset{x} + multiset(rest) by {
        assert files == [x] + rest;
      }
    }
  }

  lemma {:induction false} DevelopedMembers(files: seq<string>, unreadable: set<string>, unwritable: set<string>)
    ensures forall f :: f in Developed(files, unreadable, unwritable) <==>
      f in files && f !in unreadable && f !in unwritable
  {
    if files != [] {
      DevelopedMembers(files[1..], unreadable, unwritable);
      assert files == [files[0]] + files[1..];
    }
  }

  lemma {:induction false} LostMembers(files: seq<string>, unreadable: set<string>, unwritable: set<string>)
    ensures forall f :: f in Lost(files, unreadable, unwritable) <==> f in files && f !in unreadable && f in unwritable
  {
    if files != [] {
      LostMembers(files[1..], unreadable, unwritable);
      assert files == [files[0]] + files[1..];
    }
  }

  lemma {:induction false} KeptMembers(files: seq<string>, unreadable: set<string>)
    ensures forall f :: f in Kept(files, unreadable) <==> f in files && f in unreadable
  {
    if files != [] {
      KeptMembers(files[1..], unreadable);
      assert files == [files[0]] + files[1..];
    }
  }

  /** As written, a photo whose gallery copy fails is in neither the gallery nor the roll. */
  lemma WriteFailureLosesPhoto(files: seq<string>, unreadable: set<string>, unwritable: set<string>, f: string)
    requires f in files && f !in unreadable && f in unwritable
    ensures f !in Developed(files, unreadable, unwritable) && f !in Kept(files, unreadable)
    ensures f in Lost(files, unreadable, unwritable)
  {
    DevelopedMembers(files, unreadable, unwritable);
    LostMembers(files, unreadable, unwritable);
    KeptMembers(files, unreadable);
  }

  /** A one-photo roll whose copy fails: one photo counted, none in the gallery, none left in the roll. */
  lemma LostPhotoExample()
    ensures Developed(["photo_1.jpg"], {}, {"photo_1.jpg"}) == []
    ensures Kept(["photo_1.jpg"], {}) == []
    ensures |Developed(["photo_1.jpg"], {}, {"photo_1.jpg"})| + |Lost(["photo_1.jpg"], {}, {"photo_1.jpg"})| == 1
  {
  }

  /** As evidently intended: a file stays in the roll unless its copy reached the gallery. */
  function KeptIntended(files: seq<string>, unreadable: set<string>, unwritable: set<string>): (k: seq<string>)
    ensures |k| <= |files|
  {
    if files == [] then []
    else (if files[0] in unreadable || files[0] in unwritable then [files[0]] else [])
         + KeptIntended(files[1..], unreadable, unwritable)
  }

  /** Developing as intended loses no photo: each is in the gallery or still in the roll. */
  lemma {:induction false} IntendedDevelopKeepsEveryPhoto(files: seq<string>, unreadable: set<string>, unwritable: set<string>)
    ensures multiset(Developed(files, unreadable, unwritable)) + multiset(KeptIntended(files, unreadable, unwritable))
              == multiset(files)
    ensures forall f :: f in KeptIntended(files, unreadable, unwritable) <==>
      f in files && (f in unreadable || f in unwritable)
  {
    if files != [] {
      IntendedDevelopKeepsEveryPhoto(files[1..], unreadable, unwritable);
      assert files == [files[0]] + files[1..];
    }
  }

  /**
   * The background loop of `developRoll` over the roll's files: it yields the files
   * copied into the gallery, the files left in the roll, and the count the toast shows,
   * which also takes in the lost files.
   */
  method DevelopFiles(files: seq<string>, unreadable: set<string>, unwritable: set<string>)
    returns (developed: seq<string>, kept: seq<string>, developedCount: nat)
    ensures developed == Developed(files, unreadable, unwritable) && kept == Kept(files, unreadable)
    ensures developedCount == |developed| + |Lost(files, unreadable, unwritable)| <= |files|
  {
    developed, kept, developedCount := [], [], 0;
    ghost var lost: seq<string> := [];
    var i := 0;
    while i < |files|
      invariant 0 <= i <= |files|
      invariant developed + Developed(files[i..], unreadable, unwritable) == Developed(files, unreadable, unwritable)
      invariant lost + Lost(files[i..], unreadable, unwritable) == Lost(files, unreadable, unwritable)
      invariant kept + Kept(files[i..], unreadable) == Kept(files, unreadable)
      invariant developedCount == |developed| + |lost|
    {
      assert files[i..][0] == files[i] && files[i..][1..] == files[i + 1..];
      assert Developed(files[i..], unreadable, unwritable) ==
        (if files[i] in unreadable || files[i] in unwritable then [] else [files[i]])
        + Developed(files[i + 1..], unreadable, unwritable);
      assert Lost(files[i..], unreadable, unwritable) ==
        (if files[i] !in unreadable && files[i] in unwritable then [files[i]] else [])
        + Lost(files[i + 1..], unreadable, unwritable);
      assert Kept(files[i..], unreadable) ==
        (if files[i] in unreadable then [files[i]] else []) + Kept(files[i + 1..], unreadable);
      if files[i] in unreadable {
        kept := kept + [files[i]];
      } else {
        if files[i] !in unwritable {
          developed := developed + [files[i]];
        } else {
          lost := lost + [files[i]];
        }
        developedCount := developedCount + 1;
      }
      i := i + 1;
    }
    assert files[i..] == [];
    DevelopSplitsRoll(files, unreadable, unwritable);
    assert |multiset(files)| == |files|;
  }

  /**
   * `savePhotoMetadata`: the capture's record (`CapturedMetadata`: the file's path, the
   * selected format, the EXIF values and empty notes) stored under the file's path;
   * nothing is stored when the EXIF block cannot be read (None).
   */
  function MetadataWritten(p: SharedPrefs, filePath: string, ratio: Overlay.AspectRatio, exif: Option<ExifReading>)
    : (r: SharedPrefs)
    ensures exif.None? ==> r == p
    ensures exif.Some? ==> r.Keys == p.Keys + {MetadataKey(filePath)}
    ensures exif.Some? ==> r[MetadataKey(filePath)] == MetadataPref(CapturedMetadata(filePath, ratio.DisplayName(), exif.value))
    ensures exif.Some? ==> r[MetadataKey(filePath)].m.imagePath == filePath
    ensures exif.Some? ==> r[MetadataKey(filePath)].m.aspectRatio == ratio.DisplayName()
    ensures forall k :: k in p && k != MetadataKey(filePath) ==> r[k] == p[k]
  {
    match exif
    case None => p
    case Some(e) => p[MetadataKey(filePath) := MetadataPref(CapturedMetadata(filePath, ratio.DisplayName(), e))]
  }

  /** Photo records live beside the saved state without disturbing it. */
  lemma MetadataWriteKeepsState(p: SharedPrefs, filePath: string, ratio: Overlay.AspectRatio, exif: Option<ExifReading>)
    requires WellFormed(p)
    ensures WellFormed(MetadataWritten(p, filePath, ratio, exif))
    ensures Restore(MetadataWritten(p, filePath, ratio, exif)) == Restore(p)
  {
    var key := MetadataKey(filePath);
    assert key[0] == 'm';
    assert !IsPersistedKey(key) by {
      assert KeyShotsTaken[0] == 's' && KeyShootingMode[0] == 's';
      assert KeyLastRollId[0] == 'l' && KeyRatioIndex[0] == 'r';
    }
  }

  function Folder(gallery: map<string, seq<string>>, name: string): seq<string> {
    if name in gallery then gallery[name] else []
  }

  /** Every field of the screen's state, for stating what an operation leaves alone. */
  datatype ActivityState = ActivityState(
    mode: ShootingMode,
    shotsTaken: nat,
    lastRollId: Option<string>,
    ratioIndex: nat,
    gridIndex: nat,
    prefs: SharedPrefs,
    rollFiles: seq<string>,
    gallery: map<string, seq<string>>)

  /**
   * The camera screen's state. `rollFiles` is the private "film_roll" directory and
   * `gallery` the public picture folders by name; `overlay` is the viewfinder, which
   * always shows the selected format and grid.
   */
  class MainActivity {
    var currentMode: ShootingMode
    var shotsTaken: nat
    var lastDevelopedRollId: Option<string>
    var currentRatioIndex: nat
    var currentGridIndex: nat
    var prefs: SharedPrefs
    var rollFiles: seq<string>
    var gallery: map<string, seq<string>>
    const overlay: Overlay.OverlayView

    ghost predicate Valid()
      reads this, overlay
    {
      && currentRatioIndex < |Overlay.AspectRatios|
      && currentGridIndex < |Overlay.GridTypes|
      && overlay.currentAspectRatio == Overlay.AspectRatios[currentRatioIndex]
      && overlay.currentGridType == Overlay.GridTypes[currentGridIndex]
    }

    function State(): ActivityState
      reads this
    {
      ActivityState(currentMode, shotsTaken, lastDevelopedRollId, currentRatioIndex, currentGridIndex,
                    prefs, rollFiles, gallery)
    }

    function Snapshot(): Persisted
      reads this
    {
      Persisted(shotsTaken, currentMode, lastDevelopedRollId, currentRatioIndex)
    }

    function CurrentRatio(): Overlay.AspectRatio
      requires currentRatioIndex < |Overlay.AspectRatios|
      reads this
    {
      Overlay.AspectRatios[currentRatioIndex]
    }

    /** The controls `updateUiForMode` sets up for the current state. */
    function Ui(): Controls
      reads this
    {
      ControlsFor(currentMode, shotsTaken)
    }

    /** `onCreate`: a fresh viewfinder, the saved state loaded and its format shown. */
    constructor (stored: SharedPrefs, rollDir: seq<string>, pictures: map<string, seq<string>>)
      requires WellFormed(stored)
      ensures Valid() && fresh(overlay)
      ensures Snapshot() == Restore(stored)
      ensures currentGridIndex == InitialGridIndex
      ensures prefs == stored && rollFiles == rollDir && gallery == pictures
    {
      overlay := new Overlay.OverlayView();
      currentMode, shotsTaken, lastDevelopedRollId := Practice, 0, None;
      currentRatioIndex, currentGridIndex := 0, InitialGridIndex;
      prefs, rollFiles, gallery := stored, rollDir, pictures;
      new;
      LoadState();
      overlay.SetAspectRatio(Overlay.AspectRatios[currentRatioIndex]);
    }

    method LoadState()
      requires WellFormed(prefs)
      modifies this
      ensures prefs == old(prefs)
      ensures Snapshot() == Restore(prefs)
      ensures State() == old(State()).(mode := currentMode, shotsTaken := shotsTaken,
                                        lastRollId := lastDevelopedRollId, ratioIndex := currentRatioIndex)
    {
      shotsTaken := GetInt(prefs, KeyShotsTaken, 0);
      var savedMode := GetString(prefs, KeyShootingMode, Some(Practice.Name()));
      currentMode := ModeNamed(savedMode.GetOr(Practice.Name()));
      lastDevelopedRollId := GetString(prefs, KeyLastRollId, None);
      currentRatioIndex := GetInt(prefs, KeyRatioIndex, 0);
    }

    method SaveState()
      modifies this
      ensures State() == old(State()).(prefs := Store(old(prefs), Snapshot()))
    {
      prefs := Store(prefs, Snapshot());
    }

    /** The mode switch's listener: a no-op for the mode in force, else switch and save. */
    method SelectMode(isChecked: bool)
      requires Valid()
      modifies this
      ensures Valid()
      ensures var newMode := if isChecked then Film else Practice;
        && (old(currentMode) == newMode ==> State() == old(State()))
        && (old(currentMode) != newMode ==>
              State() == old(State()).(mode := newMode,
                                       prefs := Store(old(prefs), old(Snapshot()).(mode := newMode))))
    {
      var newMode := if isChecked then Film else Practice;
      if newMode == currentMode {
        return;
      }
      currentMode := newMode;
      SaveState();
    }

    method SwitchFormat()
      requires Valid()
      modifies this, overlay
      ensures Valid()
      ensures currentRatioIndex == NextIndex(old(currentRatioIndex), |Overlay.AspectRatios|)
      ensures State() == old(State()).(ratioIndex := currentRatioIndex,
                                       prefs := Store(old(prefs), old(Snapshot()).(ratioIndex := currentRatioIndex)))
    {
      currentRatioIndex := (currentRatioIndex + 1) % |Overlay.AspectRatios|;
      overlay.SetAspectRatio(Overlay.AspectRatios[currentRatioIndex]);
      SaveState();
    }

    /** Unlike the format, the grid choice is not saved. */
    method SwitchGrid()
      requires Valid()
      modifies this, overlay
      ensures Valid()
      ensures currentGridIndex == NextIndex(old(currentGridIndex), |Overlay.GridTypes|)
      ensures State() == old(State()).(gridIndex := currentGridIndex)
    {
      currentGridIndex := (currentGridIndex + 1) % |Overlay.GridTypes|;
      overlay.SetGridType(Overlay.GridTypes[currentGridIndex]);
    }

    /**
     * The capture callback `onImageSaved` for a file of the given raw size and EXIF
     * orientation: the image is rotated upright and cropped to the current format; a
     * film shot joins the roll and advances the counter, a practice shot goes to the
     * composition folder.
     */
    method OnImageSaved(fileName: string, filePath: string, exif: Option<ExifReading>, raw: Size, orientation: int)
      returns (crop: CropBox)
      requires Valid()
      requires raw.width > 0 && raw.height > 0
      modifies this
      ensures Valid()
      ensures var upright := RotatedSize(raw, orientation);
        crop == CropFor(upright.width, upright.height, CurrentRatio())
      ensures var tagged := MetadataWritten(old(prefs), filePath, old(CurrentRatio()), exif);
        && (old(currentMode) == Film ==>
              State() == old(State()).(shotsTaken := old(shotsTaken) + 1, rollFiles := old(rollFiles) + [fileName],
                                       prefs := Store(tagged, old(Snapshot()).(shotsTaken := old(shotsTaken) + 1))))
        && (old(currentMode) == Practice ==>
              State() == old(State()).(prefs := tagged,
                                       gallery := old(gallery)[CompositionFolder :=
                                         Folder(old(gallery), CompositionFolder) + [fileName]]))
    {
      prefs := MetadataWritten(prefs, filePath, CurrentRatio(), exif);
      var upright := RotatedSize(raw, orientation);
      crop := CropFor(upright.width, upright.height, CurrentRatio());
      if currentMode == Film {
        rollFiles := rollFiles + [fileName];
        shotsTaken := shotsTaken + 1;
        SaveState();
      } else {
        gallery := gallery[CompositionFolder := Folder(gallery, CompositionFolder) + [fileName]];
      }
    }

    /**
     * `developRoll` as written, with its background loop run in sequence: a roll file
     * whose stream does not open stays in the roll; every other file is deleted from the
     * roll and counted, and it reaches the gallery folder named by `rollId` only when the
     * copy succeeds, because the failed copy is swallowed. Then the counter resets and the
     * screen returns to practice mode.
     */
    method DevelopRoll(rollId: string, unreadable: set<string>, unwritable: set<string>) returns (developedCount: nat)
      requires Valid()
      modifies this
      ensures Valid()
      ensures old(rollFiles) == [] ==> developedCount == 0 && State() == old(State())
      ensures old(rollFiles) != [] ==>
        && developedCount == |Developed(old(rollFiles), unreadable, unwritable)|
                             + |Lost(old(rollFiles), unreadable, unwritable)| <= |old(rollFiles)|
        && var ratioPrefs := old(prefs)[RollRatioPrefix + rollId := StringPref(old(CurrentRatio()).DisplayName())];
           var after := old(Snapshot()).(shotsTaken := 0, mode := Practice, lastRollId := Some(rollId));
           State() == old(State()).(
             mode := Practice, shotsTaken := 0, lastRollId := Some(rollId),
             rollFiles := Kept(old(rollFiles), unreadable),
             gallery := old(gallery)[rollId := Folder(old(gallery), rollId) + Developed(old(rollFiles), unreadable, unwritable)],
             prefs := Store(ratioPrefs, after))
    {
      developedCount := 0;
      if rollFiles == [] {
        return;
      }
      var files := rollFiles;
      lastDevelopedRollId := Some(rollId);
      prefs := prefs[RollRatioPrefix + rollId := StringPref(CurrentRatio().DisplayName())];

      var developed, kept;
      developed, kept, developedCount := DevelopFiles(files, unreadable, unwritable);
      gallery := gallery[rollId := Folder(gallery, rollId) + developed];
      rollFiles := kept;
      shotsTaken := 0;
      currentMode := Practice;
      SaveState();
    }

    /** `abandonRoll`: every roll file deleted and the counter reset; nothing else changes. */
    method AbandonRoll()
      requires Valid()
      modifies this
      ensures Valid()
      ensures State() == old(State()).(shotsTaken := 0, rollFiles := [],
                                       prefs := Store(old(prefs), old(Snapshot()).(shotsTaken := 0)))
    {
      rollFiles := [];
      shotsTaken := 0;
      SaveState();
    }
  }
}
