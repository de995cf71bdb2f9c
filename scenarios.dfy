/**
 * Call sequences a host makes, written as clients of the two plugin classes:
 * what a caller can conclude from the contracts alone.
 */
module Scenarios {
  import opened Wrappers
  import opened ContentPlugin
  import opened TagLibHandle
  import opened TrackLength
  import opened TagFields
  import WdxBase
  import WdxTagLib
  import WdxPlugin

  /**
   * An abort hint followed by a read: the read lowers the flag before it
   * dispatches, so the older implementation's abort branch is not taken and
   * the title is read.
   */
  method AbortThenRead(file: Handle, fmt: Formatters)
    requires !file.isNull && file.tag.Some?
  {
    var plugin := new WdxTagLib.Plugin(false);
    plugin.base.StopGetValue("a.mp3");
    assert plugin.base.IsAborted() && plugin.base.GetAbortedFilename() == "a.mp3";
    var r := plugin.GetValue(file, FI_TITLE, false, fmt);
    assert !plugin.base.IsAborted() && plugin.base.GetAbortedFilename() == "";
    assert r == Success(StringW, Text(file.tag.value.title));
  }

  /**
   * Two edits of one file, then the end-of-batch call: the file is opened
   * once, both edits land on the same cached handle, and one save writes it.
   */
  method TwoEditsOneSave(fromDisk: Handle, other: Handle, title: SetBuffer, artist: SetBuffer)
    requires !fromDisk.isNull && fromDisk.tag.Some?
  {
    var plugin := new WdxPlugin.Plugin(false);
    var r1 := plugin.SetValue(Some("a.mp3"), FI_TITLE, title, fromDisk, false);
    var r2 := plugin.SetValue(Some("a.mp3"), FI_ARTIST, artist, other, false);
    assert r1 == SetSuccess && r2 == SetSuccess;
    var edited := fromDisk.(tag := Some(fromDisk.tag.value.(title := title.asText, artist := artist.asText)));
    assert plugin.files2Write == map["a.mp3" := edited];
    assert plugin.saved == [];
    var r3 := plugin.SetValue(None, 0, title, other, false);
    assert r3 == SetSuccess && plugin.files2Write == map[];
    SavesFromMeans(plugin.saved, map["a.mp3" := edited]);
    assert plugin.saved == [("a.mp3", edited)];
  }

  /** An end-of-batch call with nothing pending saves nothing. */
  method EmptyCommit()
  {
    var plugin := new WdxTagLib.Plugin(true);
    var missing := Handle(true, None, None, OtherKind, false, None, None, None, None);
    var r := plugin.SetValue(Some("a.mp3"), WdxBase.ALL_FIELDS, SetBuffer("", 0), missing, false);
    assert r == SetSuccess && plugin.saved == [] && plugin.files2Write == map[];
  }

  /** Setting the same ini name twice leaves the state as the first call left it. */
  method IniNameTwice(name: string)
  {
    var plugin := new WdxTagLib.Plugin(false);
    plugin.base.SetIniName(name);
    var aborted, abortedName, ini := plugin.base.aborted, plugin.base.abortedFilename, plugin.base.iniName;
    plugin.base.SetIniName(name);
    assert plugin.base.GetIniName() == name;
    assert plugin.base.aborted == aborted && plugin.base.abortedFilename == abortedName && plugin.base.iniName == ini;
  }
}
