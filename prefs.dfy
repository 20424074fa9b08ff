/**
 * The "FormatAppPrefs" SharedPreferences file shared by the camera, gallery and detail
 * screens, as a map from key to typed value. Gson's JSON encoding of a metadata record
 * is abstracted as storing the record itself.
 */
module Prefs {
  import opened Wrappers
  import opened Metadata

  datatype Pref =
    | IntPref(i: int)
    | StringPref(s: string)
    | StringSetPref(ss: set<string>)
    | MetadataPref(m: PhotoMetadata)

  type SharedPrefs = map<string, Pref>

  /** `getInt(key, default)`; a key holding another type would throw, so callers require IntOrAbsent. */
  predicate IntOrAbsent(p: SharedPrefs, key: string) {
    key in p ==> p[key].IntPref?
  }

  predicate StringOrAbsent(p: SharedPrefs, key: string) {
    key in p ==> p[key].StringPref?
  }

  predicate StringSetOrAbsent(p: SharedPrefs, key: string) {
    key in p ==> p[key].StringSetPref?
  }

  function GetInt(p: SharedPrefs, key: string, default: int): (r: int)
    requires IntOrAbsent(p, key)
    ensures key !in p ==> r == default
    ensures key in p ==> p[key] == IntPref(r)
  {
    if key in p then p[key].i else default
  }

  function GetString(p: SharedPrefs, key: string, default: Option<string>): (r: Option<string>)
    requires StringOrAbsent(p, key)
    ensures key !in p ==> r == default
    ensures key in p ==> r.Some? && p[key] == StringPref(r.value)
  {
    if key in p then Some(p[key].s) else default
  }

  function GetStringSet(p: SharedPrefs, key: string, default: set<string>): (r: set<string>)
    requires StringSetOrAbsent(p, key)
    ensures key !in p ==> r == default
    ensures key in p ==> p[key] == StringSetPref(r)
  {
    if key in p then p[key].ss else default
  }

  /** `putString(key, value)`: a null value removes the key, as the Android editor does. */
  function PutString(p: SharedPrefs, key: string, value: Option<string>): (r: SharedPrefs)
    ensures value.Some? ==> key in r && r[key] == StringPref(value.value)
    ensures value.None? ==> key !in r
    ensures forall k :: k != key ==> (k in r <==> k in p) && (k in r ==> r[k] == p[k])
  {
    match value
    case Some(v) => p[key := StringPref(v)]
    case None => p - {key}
  }
}
