/**
 * wdx::plugin (plugin.cpp), the newer implementation: a read demands a
 * non-null file with both a tag and audio properties and never looks at the
 * abort flag; the formatted length and tag type are narrow strings; the tag
 * type formatting forgets to set the separator flag after "APE".
 */
module WdxPlugin {
  import opened Wrappers
  import opened ContentPlugin
  import opened TagLibHandle
  import opened Text
  import opened TrackLength
  import opened TagType
  import opened TagFields
  import WdxBase
  import Flags

  /** The field table the constructor fills; `field(name, type)` leaves the flags 0. */
  const FIELDS: seq<Field> := [
    Field("Title", StringW, "", "", CONTFLAGS_EDIT),
    Field("Artist", StringW, "", "", CONTFLAGS_EDIT),
    Field("Album", StringW, "", "", CONTFLAGS_EDIT),
    Field("Year", Numeric32, "", "", CONTFLAGS_EDIT),
    Field("Tracknumber", Numeric32, "", "", CONTFLAGS_EDIT),
    Field("Comment", StringW, "", "", CONTFLAGS_EDIT),
    Field("Genre", StringW, "", "", CONTFLAGS_EDIT),
    Field("Bitrate", Numeric32, "", "", 0),
    Field("Sample rate", Numeric32, "", "", 0),
    Field("Channels", Numeric32, "", "", 0),
    Field("Length", Numeric32, "", "", 0),
    Field("Length (formatted)", String, "", "", 0),
    Field("Tag type", String, "", "", 0)
  ]

  /** Thirteen named fields; exactly the tag fields are editable; the last two are narrow strings. */
  lemma FieldTable()
    ensures |FIELDS| == FIELD_COUNT
    ensures forall i :: 0 <= i < |FIELDS| ==> FIELDS[i].name != ""
    ensures forall i :: 0 <= i < |FIELDS| ==> (FIELDS[i].flag == CONTFLAGS_EDIT <==> IsTagField(i))
    ensures forall i :: 0 <= i < |FIELDS| ==> (FIELDS[i].flag == 0 <==> !IsTagField(i))
    ensures forall i :: 0 <= i < |FIELDS| ==> (FIELDS[i].fieldType == Numeric32 <==> IsNumericTagField(i) || FI_BITRATE <= i <= FI_LENGTH_S)
    ensures FIELDS[FI_LENGTH_M].fieldType == String && FIELDS[FI_TAGTYPE].fieldType == String
  {
  }

  /** Asking for all flags yields contflags_edit: some field is editable, and no other bit is set. */
  lemma AllFlags()
    ensures WdxBase.CombinedFlags(FIELDS) == CONTFLAGS_EDIT
  {
    var c := WdxBase.CombinedFlags(FIELDS);
    FieldTable();
    WdxBase.CombinedFlagsCover(FIELDS, FI_TITLE);
    WdxBase.CombinedFlagsExactly(FIELDS, !CONTFLAGS_EDIT);
    assert forall k :: 0 <= k < |FIELDS| ==> Flags.Clear(FIELDS[k].flag, !CONTFLAGS_EDIT);
    Flags.OnlyBit(c, CONTFLAGS_EDIT);
  }

  /** The detect string, built exactly as the older implementation builds it. */
  method OnGetDetectString(exts: seq<string>, upper: string -> string) returns (r: string)
    ensures r == DetectString(exts, upper)
  {
    var list := "";
    var i := 0;
    while i < |exts|
      invariant 0 <= i <= |exts|
      invariant list == Terminated(Clauses(exts[..i], upper), EXT_OR)
    {
      assert exts[..i + 1][..i] == exts[..i];
      assert Clauses(exts[..i + 1], upper) == Clauses(exts[..i], upper) + [Clause(exts[i], upper)];
      ghost var cs := Clauses(exts[..i], upper) + [Clause(exts[i], upper)];
      assert cs[..|cs| - 1] == Clauses(exts[..i], upper);
      list := list + (EXT_OPEN + upper(exts[i]) + EXT_CLOSE + EXT_OR);
      i := i + 1;
    }
    assert exts[..|exts|] == exts;
    if |list| != 0 {
      TerminatedIsJoin(Clauses(exts, upper), EXT_OR);
      list := list[..|list| - |EXT_OR|];
    }
    r := list;
  }

  /**
   * A read of field `index`: a null file, or one without a tag or without
   * audio properties, is a file error before any dispatch; the abort flag is
   * not consulted.
   */
  function OnGetValue(file: Handle, index: int, fmt: Formatters): (r: GetResult)
    ensures (file.isNull || file.tag.None? || file.properties.None?) <==> r == FileError
    ensures r.Success? ==> 0 <= index < |FIELDS| && r.fieldType == FIELDS[index].fieldType
    ensures r != FileError && !(0 <= index < |FIELDS|) ==> r == NoSuchField
    ensures r != FileError && index == FI_YEAR ==> (r == FieldEmpty <==> file.tag.value.year == 0)
    ensures r != FileError && index == FI_TRACKNUMBER ==> (r == FieldEmpty <==> file.tag.value.track == 0)
    ensures r == FieldEmpty ==> IsNumericTagField(index)
    ensures r != FileError && index == FI_TAGTYPE ==> r == Success(String, Text(TagTypeText(file)))
  {
    if file.isNull || file.tag.None? || file.properties.None? then FileError
    else
      var tag := file.tag.value;
      var p := file.properties.value;
      if IsTagField(index) then
        if index == FI_YEAR && tag.year == 0 then FieldEmpty
        else if index == FI_TRACKNUMBER && tag.track == 0 then FieldEmpty
        else Success(FIELDS[index].fieldType, TagField(tag, index))
      else if index == FI_BITRATE then Success(FIELDS[index].fieldType, Number(p.bitrate))
      else if index == FI_SAMPLERATE then Success(FIELDS[index].fieldType, Number(p.sampleRate))
      else if index == FI_CHANNELS then Success(FIELDS[index].fieldType, Number(p.channels))
      else if index == FI_LENGTH_S then Success(FIELDS[index].fieldType, Number(p.length))
      else if index == FI_LENGTH_M then Success(FIELDS[index].fieldType, Text(FormattedLength(p.length, fmt)))
      else if index == FI_TAGTYPE then Success(FIELDS[index].fieldType, Text(TagTypeText(file)))
      else NoSuchField
  }

  /**
   * Writing a tag field into a readable handle and reading it back returns
   * what was written, except that a zero year or track reads back as empty.
   */
  lemma ReadAfterWrite(h: Handle, index: int, buf: SetBuffer, fmt: Formatters)
    requires !h.isNull && h.tag.Some? && h.properties.Some? && IsTagField(index)
    ensures var (res, h') := EditHandle(h, index, buf);
            res == SetSuccess &&
            OnGetValue(h', index, fmt) ==
              if IsNumericTagField(index) && buf.asInt32 == 0 then FieldEmpty
              else Success(FIELDS[index].fieldType, BufferValue(index, buf))
  {
    var h' := EditHandle(h, index, buf).1;
    SetFieldExactly(h.tag.value, index, buf, index);
    SignedRoundTrip(buf.asInt32);
  }

  /**
   * The labels in the fixed order, formatted as written: the separator flag
   * is set after ID3v2 and ID3v1 but not after APE. So the result is the
   * ", "-join of the labels, except when APE and XiphComment are shown
   * without any ID3 tag: then the two labels run together.
   */
  method FormatTagType(p: Probed) returns (r: string)
    ensures !(ShowsApe(p) && ShowsXiph(p) && !ShowsId3v2(p) && !ShowsId3v1(p)) ==> r == Join(Labels(p), ", ")
    ensures ShowsApe(p) && ShowsXiph(p) && !ShowsId3v2(p) && !ShowsId3v1(p) ==> r == "APEXiphComment"
  {
    ghost var shown: seq<string> := [];
    r := "";
    var useSeparator := false;
    if p.id3v2.Some? && !p.id3v2.value.isEmpty {
      r := r + "ID3v2." + NatToString(p.id3v2.value.majorVersion) + "." + NatToString(p.id3v2.value.revisionNumber);
      assert r == Id3v2Label(p.id3v2.value);
      shown := [r];
      useSeparator := true;
    }
    assert shown == (if ShowsId3v2(p) then [Id3v2Label(p.id3v2.value)] else []);
    ghost var upToId3v1 := shown + (if ShowsId3v1(p) then ["ID3v1"] else []);
    if p.id3v1.Some? && !p.id3v1.value.isEmpty {
      AppendLabel(r, shown, "ID3v1", useSeparator);
      r := r + (if useSeparator then ", " else "") + "ID3v1";
      shown := shown + ["ID3v1"];
      useSeparator := true;
    }
    assert shown == upToId3v1;
    ghost var upToApe := shown + (if ShowsApe(p) then ["APE"] else []);
    if p.ape.Some? && !p.ape.value.isEmpty {
      AppendLabel(r, shown, "APE", useSeparator);
      r := r + (if useSeparator then ", " else "") + "APE";
      shown := shown + ["APE"];
    }
    assert shown == upToApe;
    ghost var all := shown + (if ShowsXiph(p) then ["XiphComment"] else []);
    if (p.xiph.Some? && !p.xiph.value.isEmpty) || p.justSayXiph {
      if useSeparator || !ShowsApe(p) {
        AppendLabel(r, shown, "XiphComment", shown != []);
      } else {
        assert r == "APE";
      }
      r := r + (if useSeparator then ", " else "") + "XiphComment";
      shown := shown + ["XiphComment"];
    }
    assert shown == all;
  }

  /**
   * The tag type of a file: the same probe chain as the older
   * implementation. Since no probed family yields both APE and a Xiph
   * comment, the missing separator never shows.
   */
  method GetTagType(file: Handle) returns (r: string)
    ensures r == TagTypeText(file)
  {
    var id3v2: Option<Id3v2Tag> := None;
    var id3v1: Option<SubTag> := None;
    var ape: Option<SubTag> := None;
    var xiph: Option<SubTag> := None;
    if file.kind == Mpeg && file.isValid {
      id3v2 := file.id3v2;
      id3v1 := file.id3v1;
      ape := file.ape;
    }
    if file.kind == Flac && file.isValid {
      id3v2 := file.id3v2;
      id3v1 := file.id3v1;
      xiph := file.xiph;
    }
    if file.kind == Mpc && file.isValid {
      id3v1 := file.id3v1;
      ape := file.ape;
    }
    var justSayXiph := file.kind == Ogg && file.isValid;
    if file.kind == TrueAudio && file.isValid {
      id3v2 := file.id3v2;
      id3v1 := file.id3v1;
    }
    if file.kind == WavPack && file.isValid {
      id3v1 := file.id3v1;
      ape := file.ape;
    }
    var p := Probed(id3v2, id3v1, ape, xiph, justSayXiph);
    assert p == Probe(file);
    ApeExcludesXiph(file);
    r := FormatTagType(p);
  }

  /** The plugin object: the WDXBase part and the batch of files opened for writing. */
  class Plugin {
    const base: WdxBase.Base
    var files2Write: map<Path, Handle>
    /** The save() calls made so far, in order: what reached the disk. */
    var saved: seq<(Path, Handle)>

    ghost predicate Valid()
      reads this, base
    {
      base.fields == FIELDS && base.Valid()
    }

    constructor (initiallyAborted: bool)
      ensures Valid() && fresh(base)
      ensures base.aborted == initiallyAborted && base.iniName == ""
      ensures files2Write == map[] && saved == []
    {
      base := new WdxBase.Base(FIELDS, initiallyAborted);
      files2Write := map[];
      saved := [];
    }

    /**
     * The handle for `path` in the current batch: the cached one, or else
     * the one TagLib opens (`fromDisk`), which is then cached.
     */
    method OpenFile(path: Path, fromDisk: Handle) returns (h: Handle)
      modifies this
      ensures path in old(files2Write) ==> h == old(files2Write)[path] && files2Write == old(files2Write)
      ensures path !in old(files2Write) ==> h == fromDisk && files2Write == old(files2Write)[path := fromDisk]
      ensures h == CachedOr(old(files2Write), path, fromDisk)
      ensures path in files2Write && files2Write.Keys == old(files2Write).Keys + {path}
      ensures forall p :: p in old(files2Write) ==> p in files2Write && files2Write[p] == old(files2Write)[p]
      ensures saved == old(saved)
    {
      if path !in files2Write {
        files2Write := files2Write[path := fromDisk];
        return files2Write[path];
      } else {
        return files2Write[path];
      }
    }

    /**
     * One field write: the file joins the batch first, whatever happens
     * next; then the edit is applied to the cached handle (the FileRef copy
     * works through the reference OpenFile returns).
     */
    method OnSetValue(path: Path, index: int, buf: SetBuffer, fromDisk: Handle) returns (r: SetResult)
      modifies this
      ensures var (res, h) := EditHandle(CachedOr(old(files2Write), path, fromDisk), index, buf);
              r == res && files2Write == old(files2Write)[path := h]
      ensures path in files2Write
      ensures saved == old(saved)
    {
      var file := OpenFile(path, fromDisk);
      if file.isNull || file.tag.None? {
        return SetFileError;
      }
      var tag := file.tag.value;
      if !IsTagField(index) {
        return SetNoSuchField;
      }
      files2Write := files2Write[path := file.(tag := Some(SetField(tag, index, buf)))];
      return SetSuccess;
    }

    /** Commit: save every cached handle once, then empty the batch. */
    method OnEndOfSetValue()
      modifies this
      ensures files2Write == map[]
      ensures |saved| >= |old(saved)| && saved[..|old(saved)|] == old(saved)
      ensures SavesEachOnce(saved[|old(saved)|..], old(files2Write))
      ensures old(files2Write) == map[] ==> saved == old(saved)
    {
      var before := saved;
      var log := SaveAll(files2Write);
      assert (before + log)[|before|..] == log;
      saved := before + log;
      files2Write := map[];
    }

    /**
     * The host's read entry: the index guard of the base, which lowers the
     * abort state, then OnGetValue (which ignores it); `raised` means TagLib
     * raised inside OnGetValue, which the base turns into a file error.
     */
    method GetValue(file: Handle, index: int, raised: bool, fmt: Formatters) returns (r: GetResult)
      requires Valid()
      modifies base
      ensures Valid()
      ensures !WdxBase.InRange(FIELDS, index) ==> r == NoSuchField && unchanged(base)
      ensures WdxBase.InRange(FIELDS, index) ==>
                !base.aborted && base.abortedFilename == "" && base.iniName == old(base.iniName)
      ensures WdxBase.InRange(FIELDS, index) ==>
                r == if raised then FileError else OnGetValue(file, index, fmt)
    {
      var delegate := base.GetValueGuard(index);
      if !delegate {
        return NoSuchField;
      }
      if raised {
        return FileError;
      }
      r := OnGetValue(file, index, fmt);
    }

    /**
     * The host's write entry as the shown code has it when the const base
     * defaults are the ones called (WdxBase.DefaultSetValue): nothing is
     * cached, edited or saved, whatever the call.
     */
    method SetValueAsWritten(fileName: Option<Path>, index: int) returns (r: SetResult)
      ensures r == WdxBase.DefaultSetValue(fileName, index)
    {
      var route := base.SetValueRoute(fileName, index);
      match route
      case EndOfBatch =>
        r := SetSuccess;
      case Reject =>
        r := SetNoSuchField;
      case Delegate =>
        r := SetNoSuchField;
    }

    /**
     * The host's write entry. An absent file name or index -1 commits the
     * batch and succeeds; another index outside the table is refused; the
     * rest is one field write. `raised` means TagLib raised while opening the
     * file for writing: a file error, modelled as leaving the batch as it
     * was (whether operator[] inserted an entry first is not fixed by C++).
     */
    method SetValue(fileName: Option<Path>, index: int, buf: SetBuffer, fromDisk: Handle, raised: bool)
      returns (r: SetResult)
      requires Valid()
      modifies this
      ensures Valid()
      ensures (fileName.None? || index == WdxBase.ALL_FIELDS) ==>
                r == SetSuccess && files2Write == map[] &&
                |saved| >= |old(saved)| && saved[..|old(saved)|] == old(saved) &&
                SavesEachOnce(saved[|old(saved)|..], old(files2Write))
      ensures fileName.Some? && index != WdxBase.ALL_FIELDS && !WdxBase.InRange(FIELDS, index) ==>
                r == SetNoSuchField && files2Write == old(files2Write) && saved == old(saved)
      ensures fileName.Some? && WdxBase.InRange(FIELDS, index) && raised ==>
                r == SetFileError && files2Write == old(files2Write) && saved == old(saved)
      ensures fileName.Some? && WdxBase.InRange(FIELDS, index) && !raised ==>
                var (res, h) := EditHandle(CachedOr(old(files2Write), fileName.value, fromDisk), index, buf);
                r == res && files2Write == old(files2Write)[fileName.value := h] && saved == old(saved)
    {
      var route := base.SetValueRoute(fileName, index);
      match route
      case EndOfBatch =>
        OnEndOfSetValue();
        r := SetSuccess;
      case Reject =>
        r := SetNoSuchField;
      case Delegate =>
        if raised {
          r := SetFileError;
        } else {
          r := OnSetValue(fileName.value, index, buf, fromDisk);
        }
    }
  }
}
