/**
 * How the two implementations differ on one file: where a
 * read's validity check differs, where the declared types differ, and why the
 * newer tag-type formatting quirk cannot be observed.
 */
module Variants {
  import opened Wrappers
  import opened ContentPlugin
  import opened TagLibHandle
  import opened Text
  import opened TrackLength
  import opened TagType
  import opened TagFields
  import WdxBase
  import WdxTagLib
  import WdxPlugin

  /** The audio property behind the numeric property fields 7 to 10. */
  function AudioProperty(p: Properties, index: int): Int32
    requires FI_BITRATE <= index <= FI_LENGTH_S
  {
    if index == FI_BITRATE then p.bitrate
    else if index == FI_SAMPLERATE then p.sampleRate
    else if index == FI_CHANNELS then p.channels
    else p.length
  }

  /**
   * The older implementation opens the file with accurate audio properties,
   * the newer one with TagLib's default read style, so one file can give two
   * handles that agree on everything but their properties (`hOld`, `hNew`).
   * With a tag and properties on both and no abort in progress, the reads
   * then agree on the tag fields, the tag-type text and the unknown indices.
   * The property fields report each handle's own properties, and the
   * formatted length each handle's length through each file's own
   * Int2Str/formatSeconds helpers. Only the declared type of the last two
   * fields differs (wide in the older one, narrow in the newer one).
   */
  lemma ReadsAgreeOnCompleteFiles(hOld: Handle, hNew: Handle, index: int, fmtOld: Formatters, fmtNew: Formatters)
    requires !hOld.isNull && hOld.tag.Some? && hOld.properties.Some? && hNew.properties.Some?
    requires hNew == hOld.(properties := hNew.properties)
    ensures var older := WdxTagLib.OnGetValue(hOld, index, false, fmtOld);
            var newer := WdxPlugin.OnGetValue(hNew, index, fmtNew);
            if FI_BITRATE <= index <= FI_LENGTH_S then
              older == Success(Numeric32, Number(AudioProperty(hOld.properties.value, index))) &&
              newer == Success(Numeric32, Number(AudioProperty(hNew.properties.value, index)))
            else if index == FI_LENGTH_M then
              older == Success(StringW, Text(FormattedLength(hOld.properties.value.length, fmtOld))) &&
              newer == Success(String, Text(FormattedLength(hNew.properties.value.length, fmtNew)))
            else if index == FI_TAGTYPE then
              older == Success(StringW, Text(TagTypeText(hOld))) && newer == Success(String, Text(TagTypeText(hOld)))
            else older == newer
    ensures var older := WdxTagLib.OnGetValue(hOld, index, false, fmtOld);
            var newer := WdxPlugin.OnGetValue(hNew, index, fmtNew);
            hOld.properties == hNew.properties && fmtOld == fmtNew ==>
              (older.Success? <==> newer.Success?) && (older.Success? ==> older.value == newer.value) &&
              (!older.Success? ==> older == newer)
  {
    WdxTagLib.FieldTable();
    WdxPlugin.FieldTable();
    assert Probe(hNew) == Probe(hOld);
  }

  /**
   * Where the base defaults and the implementations part ways: a tag-field
   * write to a non-null file with a tag is refused with ft_nosuchfield when
   * the const OnSetValue of the base answers it, while the edit both
   * implementations define succeeds and changes that field; and the
   * end-of-batch sentinel reports success either way.
   */
  lemma DefaultSetValueDropsEdits(h: Handle, path: Path, index: int, buf: SetBuffer)
    requires !h.isNull && h.tag.Some? && IsTagField(index)
    ensures WdxBase.DefaultSetValue(Some(path), index) == SetNoSuchField
    ensures var (res, h') := EditHandle(h, index, buf);
            res == SetSuccess && h'.tag == Some(SetField(h.tag.value, index, buf)) &&
            TagField(h'.tag.value, index) == BufferValue(index, buf)
    ensures WdxBase.DefaultSetValue(None, index) == SetSuccess
  {
  }

  /**
   * On a file without a tag, the newer implementation refuses every field as
   * a file error, while the older one reports the tag fields as empty and
   * still reports the tag type.
   */
  lemma ReadsDifferWithoutTag(h: Handle, index: int, fmt: Formatters)
    requires !h.isNull && h.tag.None?
    ensures WdxPlugin.OnGetValue(h, index, fmt) == FileError
    ensures IsTagField(index) ==> WdxTagLib.OnGetValue(h, index, false, fmt) == FieldEmpty
    ensures WdxTagLib.OnGetValue(h, FI_TAGTYPE, false, fmt) == Success(StringW, Text(TagTypeText(h)))
  {
  }

  /**
   * A raised abort flag empties every read of a non-null file in the older
   * implementation and changes nothing in the newer one.
   */
  lemma AbortOnlyInOlder(h: Handle, index: int, fmt: Formatters)
    requires !h.isNull
    ensures WdxTagLib.OnGetValue(h, index, true, fmt) == FieldEmpty
    ensures WdxPlugin.OnGetValue(h, index, fmt).FieldEmpty? ==> IsNumericTagField(index)
  {
  }

  /**
   * The newer formatting would run "APE" and "XiphComment" together for
   * sub-tags shaped like `p`, where the join has a separator; but no handle
   * probes to such sub-tags.
   */
  lemma ApeXiphQuirkUnreachable(h: Handle)
    ensures var p := Probed(None, None, Some(SubTag(false)), Some(SubTag(false)), false);
            Join(Labels(p), ", ") == "APE, XiphComment" && Probe(h) != p
  {
    var p := Probed(None, None, Some(SubTag(false)), Some(SubTag(false)), false);
    assert Labels(p) == ["APE", "XiphComment"];
    JoinSnoc(["APE"], "XiphComment", ", ");
    assert ["APE"] + ["XiphComment"] == Labels(p);
    ApeExcludesXiph(h);
  }
}
