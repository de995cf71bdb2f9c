/**
 * The field indices both plugin implementations enumerate (FieldIndexes), the
 * editable part of that enumeration, and the tag edit that the write path's
 * switch performs.
 */
module TagFields {
  import opened Wrappers
  import opened ContentPlugin
  import opened TagLibHandle

  const FI_TITLE: int := 0
  const FI_ARTIST: int := 1
  const FI_ALBUM: int := 2
  const FI_YEAR: int := 3
  const FI_TRACKNUMBER: int := 4
  const FI_COMMENT: int := 5
  const FI_GENRE: int := 6
  const FI_BITRATE: int := 7
  const FI_SAMPLERATE: int := 8
  const FI_CHANNELS: int := 9
  const FI_LENGTH_S: int := 10
  const FI_LENGTH_M: int := 11
  const FI_TAGTYPE: int := 12
  const FIELD_COUNT: int := 13

  /** The seven tag fields, the ones the write path can set. */
  predicate IsTagField(index: int)
  {
    FI_TITLE <= index <= FI_GENRE
  }

  /** Year and track number travel as `__int32`; the other tag fields as wide strings. */
  predicate IsNumericTagField(index: int)
  {
    index == FI_YEAR || index == FI_TRACKNUMBER
  }

  /** A tag field as the host reads it: text, or the unsigned value cast to `__int32`. */
  function TagField(t: Tag, index: int): (v: Value)
    requires IsTagField(index)
    ensures v.Number? <==> IsNumericTagField(index)
  {
    if index == FI_TITLE then Text(t.title)
    else if index == FI_ARTIST then Text(t.artist)
    else if index == FI_ALBUM then Text(t.album)
    else if index == FI_YEAR then Number(ToSigned(t.year))
    else if index == FI_TRACKNUMBER then Number(ToSigned(t.track))
    else if index == FI_COMMENT then Text(t.comment)
    else Text(t.genre)
  }

  /** The host's buffer read the way the write path reads it for `index`. */
  function BufferValue(index: int, buf: SetBuffer): Value
  {
    if IsNumericTagField(index) then Number(buf.asInt32) else Text(buf.asText)
  }

  /** The tag setter the write path's switch calls for `index` (setTitle ... setGenre). */
  function SetField(t: Tag, index: int, buf: SetBuffer): (r: Tag)
    requires IsTagField(index)
    ensures TagField(r, index) == BufferValue(index, buf)
  {
    SignedRoundTrip(buf.asInt32);
    match index
    case 0 => t.(title := buf.asText)
    case 1 => t.(artist := buf.asText)
    case 2 => t.(album := buf.asText)
    case 3 => t.(year := ToUnsigned(buf.asInt32))
    case 4 => t.(track := ToUnsigned(buf.asInt32))
    case 5 => t.(comment := buf.asText)
    case 6 => t.(genre := buf.asText)
  }

  /** Setting field `index` changes exactly that field, to the value the host handed over. */
  lemma SetFieldExactly(t: Tag, index: int, buf: SetBuffer, other: int)
    requires IsTagField(index) && IsTagField(other)
    ensures TagField(SetField(t, index, buf), other) ==
            if other == index then BufferValue(index, buf) else TagField(t, other)
  {
    SignedRoundTrip(buf.asInt32);
  }

  /**
   * What one write does to the handle it works on: a null or tagless handle is
   * a file error; a tag field is set; any other index is not a field.
   */
  function EditHandle(h: Handle, index: int, buf: SetBuffer): (r: (SetResult, Handle))
    ensures r.0 == SetFileError <==> h.isNull || h.tag.None?
    ensures r.0 == SetSuccess <==> !h.isNull && h.tag.Some? && IsTagField(index)
    ensures r.0 == SetSuccess ==> r.1 == h.(tag := Some(SetField(h.tag.value, index, buf)))
    ensures r.0 != SetSuccess ==> r.1 == h
  {
    if h.isNull || h.tag.None? then (SetFileError, h)
    else if IsTagField(index) then (SetSuccess, h.(tag := Some(SetField(h.tag.value, index, buf))))
    else (SetNoSuchField, h)
  }

  /** The handle a batch works on for `path`: the cached one, else the one FileRef(path) opens. */
  function CachedOr(files: map<Path, Handle>, path: Path, fromDisk: Handle): Handle
  {
    if path in files then files[path] else fromDisk
  }

  /** The paths a save log mentions. */
  function SavedPaths(log: seq<(Path, Handle)>): set<Path>
  {
    if log == [] then {} else SavedPaths(log[..|log| - 1]) + {log[|log| - 1].0}
  }

  /** Every entry of `log` is an entry of `files`, and no path is saved twice. */
  ghost predicate SavesFrom(log: seq<(Path, Handle)>, files: map<Path, Handle>)
  {
    log == [] ||
    (var init, last := log[..|log| - 1], log[|log| - 1];
     SavesFrom(init, files) && last.0 in files && last.1 == files[last.0] && last.0 !in SavedPaths(init))
  }

  /** `log` saves each entry of `files` exactly once, with the handle cached for it, and nothing else. */
  ghost predicate SavesEachOnce(log: seq<(Path, Handle)>, files: map<Path, Handle>)
  {
    SavesFrom(log, files) && SavedPaths(log) == files.Keys && |log| == |files|
  }

  /** Saving one more cached path that was not saved yet keeps the log well formed. */
  lemma SavesFromStep(log: seq<(Path, Handle)>, files: map<Path, Handle>, path: Path)
    requires SavesFrom(log, files)
    requires path in files && path !in SavedPaths(log)
    ensures var l := log + [(path, files[path])];
            SavesFrom(l, files) && SavedPaths(l) == SavedPaths(log) + {path}
  {
    var l := log + [(path, files[path])];
    assert l[..|l| - 1] == log;
  }

  /** Each entry of a well-formed log saves the handle cached for its path. */
  lemma {:induction false} SavesFromEntries(log: seq<(Path, Handle)>, files: map<Path, Handle>)
    requires SavesFrom(log, files)
    ensures forall i :: 0 <= i < |log| ==> log[i].0 in files && log[i].1 == files[log[i].0]
  {
    if log != [] {
      var init := log[..|log| - 1];
      SavesFromEntries(init, files);
      assert forall i :: 0 <= i < |init| ==> log[i] == init[i];
    }
  }

  /** SavedPaths holds exactly the logged paths. */
  lemma {:induction false} SavedPathsMeans(log: seq<(Path, Handle)>)
    ensures forall p :: p in SavedPaths(log) <==> exists i :: 0 <= i < |log| && log[i].0 == p
  {
    if log != [] {
      var init := log[..|log| - 1];
      SavedPathsMeans(init);
      assert forall i :: 0 <= i < |init| ==> log[i] == init[i];
      assert log[|log| - 1].0 == log[|log| - 1].0;
    }
  }

  /** The paths of a well-formed log are pairwise distinct, so it has as many paths as entries. */
  lemma {:induction false} SavesFromDistinct(log: seq<(Path, Handle)>, files: map<Path, Handle>)
    requires SavesFrom(log, files)
    ensures forall i, j :: 0 <= i < j < |log| ==> log[i].0 != log[j].0
    ensures |SavedPaths(log)| == |log|
  {
    if log != [] {
      var init := log[..|log| - 1];
      SavesFromDistinct(init, files);
      SavedPathsMeans(init);
      assert forall i :: 0 <= i < |init| ==> log[i] == init[i];
    }
  }

  /** What SavesFrom means entry by entry: each entry is cached as saved, and paths are pairwise distinct. */
  lemma SavesFromMeans(log: seq<(Path, Handle)>, files: map<Path, Handle>)
    requires SavesFrom(log, files)
    ensures forall i :: 0 <= i < |log| ==> log[i].0 in files && log[i].1 == files[log[i].0]
    ensures forall i :: 0 <= i < |log| ==> log[i].0 in SavedPaths(log)
    ensures forall i, j :: 0 <= i < j < |log| ==> log[i].0 != log[j].0
    ensures |SavedPaths(log)| == |log|
  {
    SavesFromEntries(log, files);
    SavedPathsMeans(log);
    SavesFromDistinct(log, files);
  }

  /** A well-formed log that covers every cached path saves each entry exactly once. */
  lemma CommitComplete(log: seq<(Path, Handle)>, files: map<Path, Handle>)
    requires SavesFrom(log, files) && SavedPaths(log) == files.Keys
    ensures SavesEachOnce(log, files)
  {
    SavesFromMeans(log, files);
    assert |files.Keys| == |files|;
  }

  /** One turn of the commit loop: saving a pending path keeps the split into pending and saved paths. */
  lemma {:induction false} SaveStep(log: seq<(Path, Handle)>, pending: set<Path>, files: map<Path, Handle>, path: Path)
    requires pending + SavedPaths(log) == files.Keys && pending !! SavedPaths(log)
    requires SavesFrom(log, files) && path in pending
    ensures var next := log + [(path, files[path])];
            (pending - {path}) + SavedPaths(next) == files.Keys && (pending - {path}) !! SavedPaths(next) &&
            SavesFrom(next, files)
  {
    SavesFromStep(log, files, path);
  }

  /** Saves every cached file once, in some order, and returns the log of saves. */
  method SaveAll(files: map<Path, Handle>) returns (log: seq<(Path, Handle)>)
    ensures SavesEachOnce(log, files)
  {
    var pending := files.Keys;
    log := [];
    while pending != {}
      invariant pending + SavedPaths(log) == files.Keys && pending !! SavedPaths(log)
      invariant SavesFrom(log, files)
      decreases pending
    {
      var path :| path in pending;
      SaveStep(log, pending, files, path);
      log := log + [(path, files[path])];
      pending := pending - {path};
    }
    CommitComplete(log, files);
  }
}
