/**
 * The single-photo screen (PhotoDetailActivity.kt): the favourite flag kept in step
 * with the stored set of favourite paths, the star icon, the notebook panel, and the
 * photo's metadata record, created with defaults when notes are saved for a photo that
 * has none.
 */
module PhotoDetail {
  import opened Wrappers
  import opened Prefs
  import opened Metadata
  import opened Views
  import Text

  const KeyFavorites: string := "favoritePhotos"

  // ---------------------------------------------------------------------------
  // Favourites (checkIfFavorited / toggleFavorite / onPrepareOptionsMenu)

  /**
   * The favourites set after a toggle: the photo leaves the set when it was flagged as a
   * favourite and joins it otherwise; a screen without a path changes nothing.
   */
  function Toggled(favorites: set<string>, path: Option<string>, isFavorited: bool): (r: set<string>)
    ensures forall p :: (path.None? || p != path.value) ==> (p in r <==> p in favorites)
    ensures path.Some? ==> (path.value in r <==> !isFavorited)
  {
    match path
    case None => favorites
    case Some(p) => if isFavorited then favorites - {p} else favorites + {p}
  }

  /** A flag that agreed with the set before a toggle still agrees after it. */
  lemma ToggleKeepsFlag(favorites: set<string>, path: string, isFavorited: bool)
    requires isFavorited == (path in favorites)
    ensures !isFavorited == (path in Toggled(favorites, Some(path), isFavorited))
  {
  }

  /** Two toggles from an agreeing state restore the original set. */
  lemma ToggleTwiceRestores(favorites: set<string>, path: string, isFavorited: bool)
    requires isFavorited == (path in favorites)
    ensures Toggled(Toggled(favorites, Some(path), isFavorited), Some(path), !isFavorited) == favorites
  {
  }

  /** Without agreement a double toggle need not restore the set (a stale flag). */
  lemma StaleFlagDoubleToggle()
    ensures Toggled(Toggled({}, Some("p"), true), Some("p"), false) == {"p"}
  {
  }

  datatype StarIcon = Filled | Outline

  function FavoriteIcon(isFavorited: bool): (icon: StarIcon)
    ensures icon == Filled <==> isFavorited
  {
    if isFavorited then Filled else Outline
  }

  // ---------------------------------------------------------------------------
  // Metadata display (displayMetadata / formatShutterSpeed)

  /** "ISO: n" for a recorded speed, "ISO: N/A" otherwise. */
  function IsoLabel(iso: int): (text: string)
    ensures |text| >= 6 && text[..5] == "ISO: "
    ensures iso > 0 ==> text == "ISO: " + Text.NatToString(iso) && Text.ParseNat(text[5..]) == iso
    ensures iso <= 0 ==> text == "ISO: N/A"
  {
    if iso > 0 then
      var digits := Text.NatToString(iso);
      Text.ParseNatToString(iso);
      assert ("ISO: " + digits)[5..] == digits;
      "ISO: " + digits
    else "ISO: N/A"
  }

  /** The label tells a recorded speed from a missing one, and names the speed exactly. */
  lemma {:induction false} IsoLabelFaithful(a: int, b: int)
    ensures a > 0 ==> IsoLabel(a) != IsoLabel(0)
    ensures a > 0 && b > 0 && IsoLabel(a) == IsoLabel(b) ==> a == b
  {
    if a > 0 {
      assert IsoLabel(a)[5] == Text.NatToString(a)[0];
      assert IsoLabel(0)[5] == 'N';
    }
    if a > 0 && b > 0 && IsoLabel(a) == IsoLabel(b) {
      assert Text.NatToString(a) == IsoLabel(a)[5..];
      assert Text.NatToString(b) == IsoLabel(b)[5..];
      Text.NatToStringInjective(a, b);
    }
  }

  /**
   * `formatShutterSpeed`: "N/A" for no exposure time, whole seconds and more as seconds,
   * shorter times as "1/n" with n the reciprocal rounded half up. The Double rendering
   * of the seconds is not modelled.
   */
  datatype ShutterLabel = NotAvailable | Seconds(seconds: real) | Reciprocal(denominator: int)

  /** Kotlin's roundToInt on a non-negative value: the nearest integer, halves rounded up. */
  function RoundHalfUp(x: real): (n: int)
    requires x >= 0.0
    ensures n as real - 0.5 <= x < n as real + 0.5
  {
    (x + 0.5).Floor
  }

  function ShutterSpeedLabel(nanos: int): (shown: ShutterLabel)
    ensures shown == NotAvailable <==> nanos <= 0
    ensures shown.Seconds? <==> nanos >= NanosPerSecond
    ensures shown.Seconds? ==> shown.seconds * NanosPerSecond as real == nanos as real
    ensures shown.Reciprocal? ==> shown.denominator >= 1
    ensures shown.Reciprocal? ==>
      var exact := NanosPerSecond as real / nanos as real;
      shown.denominator as real - 0.5 <= exact < shown.denominator as real + 0.5
  {
    if nanos <= 0 then NotAvailable
    else
      var seconds := nanos as real / NanosPerSecond as real;
      if seconds >= 1.0 then Seconds(seconds)
      else
        assert 1.0 / seconds == NanosPerSecond as real / nanos as real;
        assert 1.0 / seconds > 1.0 by { assert seconds * (1.0 / seconds) == 1.0; }
        Reciprocal(RoundHalfUp(1.0 / seconds))
  }

  /** As written, a 1/125 s exposure is shown as "N/A"; as intended it is shown. */
  lemma SubSecondShutterShown()
    ensures ShutterSpeedLabel(ExposureNanosAsWritten(Some(0.008))) == NotAvailable
    ensures ShutterSpeedLabel(ExposureNanos(Some(0.008))) == Reciprocal(125)
  {
  }

  /** "f/N/A" when no aperture was recorded; the Float rendering of one is not modelled. */
  datatype ApertureLabel = NoAperture | FNumber(f: real)

  datatype MetadataDisplay = MetadataDisplay(
    format: string, iso: string, aperture: ApertureLabel, shutter: ShutterLabel, notes: string)

  /** What the screen shows for the photo's record, or for no record at all. */
  function DisplayMetadata(m: Option<PhotoMetadata>): (d: MetadataDisplay)
    ensures m.None? ==> d == MetadataDisplay("N/A", "ISO: N/A", NoAperture, NotAvailable, "")
    ensures m.Some? ==> d.format == m.value.aspectRatio && d.notes == m.value.notes
    ensures m.Some? ==> d.iso == IsoLabel(m.value.iso) && (d.iso == "ISO: N/A" <==> m.value.iso <= 0)
    ensures m.Some? ==> d.shutter == ShutterSpeedLabel(m.value.shutterSpeed)
    ensures m.Some? ==> (d.shutter == NotAvailable <==> m.value.shutterSpeed <= 0)
    ensures m.Some? && m.value.aperture > 0.0 ==> d.aperture == FNumber(m.value.aperture)
    ensures m.Some? ==> (d.aperture == NoAperture <==> m.value.aperture <= 0.0)
  {
    var iso := if m.Some? then m.value.iso else 0;
    var aperture := if m.Some? then m.value.aperture else 0.0;
    var shutterSpeed := if m.Some? then m.value.shutterSpeed else 0;
    var aspectRatio := if m.Some? then m.value.aspectRatio else "N/A";
    IsoLabelFaithful(iso, 0);
    MetadataDisplay(aspectRatio, IsoLabel(iso), if aperture > 0.0 then FNumber(aperture) else NoAperture,
                    ShutterSpeedLabel(shutterSpeed), if m.Some? then m.value.notes else "")
  }

  // ---------------------------------------------------------------------------
  // Notes (saveNotes)

  /** The record `saveNotes` writes: the loaded one, or a default for the photo, with the new notes. */
  function NotesRecord(metadata: Option<PhotoMetadata>, path: Option<string>, newNotes: string): (r: Option<PhotoMetadata>)
    ensures r.None? <==> metadata.None? && path.None?
    ensures metadata.Some? ==> r == Some(metadata.value.(notes := newNotes))
    ensures metadata.None? && path.Some? ==> r == Some(DefaultFor(path.value).(notes := newNotes))
  {
    var m := if metadata.None? && path.Some? then Some(DefaultFor(path.value)) else metadata;
    match m
    case None => None
    case Some(record) => Some(record.(notes := newNotes))
  }

  /** A record is stored in a form `loadMetadata` reads back. */
  predicate MetadataOrAbsent(p: SharedPrefs, key: string) {
    key in p ==> p[key].MetadataPref?
  }

  /** `loadMetadata`: the stored record for the photo, if any, else the one already held. */
  function LoadedMetadata(p: SharedPrefs, path: Option<string>, held: Option<PhotoMetadata>): Option<PhotoMetadata>
    requires path.Some? ==> MetadataOrAbsent(p, MetadataKey(path.value))
  {
    if path.Some? && MetadataKey(path.value) in p then Some(p[MetadataKey(path.value)].m) else held
  }

  /**
   * Notes survive a visit: after saveNotes for a photo whose record (if any) belongs to
   * it, opening the photo again shows the saved notes and the record's other fields.
   */
  lemma NotesRoundTrip(p: SharedPrefs, path: string, metadata: Option<PhotoMetadata>, newNotes: string)
    requires metadata.Some? ==> metadata.value.imagePath == path
    ensures var r := NotesRecord(metadata, Some(path), newNotes);
      var p' := p[MetadataKey(r.value.imagePath) := MetadataPref(r.value)];
      && LoadedMetadata(p', Some(path), None) == r
      && DisplayMetadata(LoadedMetadata(p', Some(path), None)).notes == newNotes
      && (metadata.None? ==> DisplayMetadata(LoadedMetadata(p', Some(path), None)).format == "N/A")
  {
  }

  // ---------------------------------------------------------------------------
  // The screen's state

  class PhotoDetailActivity {
    var photoPath: Option<string>
    var isFavorited: bool
    var metadata: Option<PhotoMetadata>
    var notebook: Visibility
    var prefs: SharedPrefs

    predicate Readable()
      reads this
    {
      StringSetOrAbsent(prefs, KeyFavorites)
    }

    /** The stored favourites, empty when none were ever saved. */
    function Favorites(): set<string>
      requires Readable()
      reads this
    {
      GetStringSet(prefs, KeyFavorites, {})
    }

    /** The star shown by `onPrepareOptionsMenu`. */
    function MenuIcon(): StarIcon
      reads this
    {
      FavoriteIcon(isFavorited)
    }

    /** The flag agrees with the stored set. */
    predicate FlagInStep()
      requires Readable()
      reads this
    {
      photoPath.Some? && isFavorited == (photoPath.value in Favorites())
    }

    /**
     * `onCreate`: with a photo path, the favourite flag is read from the stored set and
     * the photo's record loaded; without one nothing is read. The notebook panel starts
     * as the layout declares it.
     */
    constructor (path: Option<string>, stored: SharedPrefs, notebookAtStart: Visibility)
      requires StringSetOrAbsent(stored, KeyFavorites)
      requires path.Some? ==> MetadataOrAbsent(stored, MetadataKey(path.value))
      ensures photoPath == path && prefs == stored && notebook == notebookAtStart
      ensures isFavorited == (path.Some? && path.value in GetStringSet(stored, KeyFavorites, {}))
      ensures path.Some? ==> FlagInStep()
      ensures metadata == LoadedMetadata(stored, path, None)
    {
      photoPath := path;
      isFavorited := false;
      metadata := None;
      notebook := notebookAtStart;
      prefs := stored;
      new;
      if path.Some? {
        CheckIfFavorited();
        var _ := LoadMetadata();
      }
    }

    method CheckIfFavorited()
      requires Readable()
      modifies this
      ensures prefs == old(prefs)
      ensures isFavorited == (photoPath.Some? && photoPath.value in Favorites())
      ensures photoPath.Some? ==> FlagInStep()
      ensures photoPath == old(photoPath) && prefs == old(prefs) && metadata == old(metadata) && notebook == old(notebook)
    {
      var favorites := GetStringSet(prefs, KeyFavorites, {});
      isFavorited := photoPath.Some? && photoPath.value in favorites;
    }

    method ToggleFavorite()
      requires Readable()
      modifies this
      ensures Readable()
      ensures Favorites() == Toggled(old(Favorites()), photoPath, old(isFavorited))
      ensures prefs == old(prefs)[KeyFavorites := StringSetPref(Favorites())]
      ensures isFavorited == !old(isFavorited)
      ensures old(FlagInStep()) ==> FlagInStep()
      ensures photoPath == old(photoPath) && metadata == old(metadata) && notebook == old(notebook)
    {
      var favorites := GetStringSet(prefs, KeyFavorites, {});
      if isFavorited {
        if photoPath.Some? {
          favorites := favorites - {photoPath.value};
        }
      } else {
        if photoPath.Some? {
          favorites := favorites + {photoPath.value};
        }
      }
      prefs := prefs[KeyFavorites := StringSetPref(favorites)];
      isFavorited := !isFavorited;
    }

    /** `loadMetadata` followed by `displayMetadata`. */
    method LoadMetadata() returns (shown: MetadataDisplay)
      requires photoPath.Some? ==> MetadataOrAbsent(prefs, MetadataKey(photoPath.value))
      modifies this
      ensures prefs == old(prefs) && photoPath == old(photoPath)
      ensures metadata == LoadedMetadata(prefs, photoPath, old(metadata))
      ensures shown == DisplayMetadata(metadata)
      ensures photoPath == old(photoPath) && prefs == old(prefs) && isFavorited == old(isFavorited)
      ensures notebook == old(notebook)
    {
      if photoPath.Some? && MetadataKey(photoPath.value) in prefs {
        metadata := Some(prefs[MetadataKey(photoPath.value)].m);
      }
      shown := DisplayMetadata(metadata);
    }

    /** `saveNotes` with the text currently in the notes field. */
    method SaveNotes(newNotes: string)
      modifies this
      ensures metadata == NotesRecord(old(metadata), photoPath, newNotes)
      ensures metadata.None? ==> prefs == old(prefs)
      ensures metadata.Some? ==> prefs == old(prefs)[MetadataKey(metadata.value.imagePath) := MetadataPref(metadata.value)]
      ensures photoPath == old(photoPath) && isFavorited == old(isFavorited) && notebook == old(notebook)
    {
      if metadata.None? && photoPath.Some? {
        metadata := Some(DefaultFor(photoPath.value));
      }
      if metadata.Some? {
        metadata := Some(metadata.value.(notes := newNotes));
        prefs := prefs[MetadataKey(metadata.value.imagePath) := MetadataPref(metadata.value)];
      }
    }

    method ToggleNotebookVisibility()
      modifies this
      ensures notebook == if old(notebook) == Visible then Gone else Visible
      ensures photoPath == old(photoPath) && prefs == old(prefs) && isFavorited == old(isFavorited)
      ensures metadata == old(metadata)
    {
      notebook := if notebook == Visible then Gone else Visible;
    }
  }
}
