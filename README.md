# wdxtaglib in Dafny

wdxtaglib is a Total Commander content plugin ("WDX plugin") that exposes
the tags and audio properties of music files through TagLib. The host asks
the plugin three kinds of question:

- which fields exist, and with which flags;
- what a field's value is for one file;
- whether a field may be written, and if so, writing it.

This project models the plugin's own logic and proves properties of it.
TagLib stands behind an abstract file handle.

The model has three parts:

- **The dispatcher** (`WdxBase`, from `WDXBase.cpp`), a class with the
  field table and the abort state. Its pieces:
  - the abort state: `aborted`, `abortedFilename`, kept under the
    invariant "not aborted implies no file name";
  - the ini-file name;
  - the index bounds checks;
  - the end-of-batch sentinel: a null file name or index -1;
  - the flag loop for index -1;
  - the fallback result when a delegated call raises.
- **Two implementations**, modelled separately because they differ in
  observable ways:
  - `WdxTagLib`, from `CWDXTagLib.cpp`, the older one;
  - `WdxPlugin`, from `plugin.cpp`, the newer one.

  Each has its own field table, detect string, read dispatch, tag-type text
  and write batch. The batch is a class holding the map of files opened for
  writing. It also holds a log of the `save()` calls the commit makes, as
  the model of what reached the disk.
- **Shared pieces**:
  - the content-plugin interface types and codes (`ContentPlugin`);
  - the abstract TagLib handle (`TagLibHandle`);
  - string joining and the detect string (`Text`);
  - the minutes/seconds arithmetic of the formatted length
    (`TrackLength`, with C++ truncating `%` and `/`);
  - the container probe and the tag-type labels (`TagType`);
  - the tag-field edit and the save log (`TagFields`);
  - the bit-vector facts the flag proofs use (`Flags`);
  - `Variants`: lemmas comparing the two implementations on one file (two
    handles where their read styles differ), and the write path as written
    with the intended one;
  - `Scenarios`: host call sequences as client code.

Things outside the plugin become parameters:

- TagLib: the handle `FileRef(path)` would produce (`fromDisk`), and a
  `raised` flag for an exception escaping a delegated call;
- the extension list, stated in order;
- the helpers `Int2Str`, `formatSeconds` and `String::upper`, passed as
  function values.

Two results about the implementations:

- **Reads.** The older implementation opens a file with accurate audio
  properties, the newer one with TagLib's default read style. One file can
  therefore give two handles that differ in their properties. On such a
  pair, each with a tag and properties, and no abort in progress, the two
  read paths agree on the tag fields and the tag type. The property fields
  and the formatted length report each handle's own properties. Each file
  also formats the length with its own helpers (`CUtils::` in the older
  one, `utils::` in the newer one). So the two reads agree on every value
  when the properties agree and the helpers print alike. The declared type
  of the last two fields also differs: `ft_stringw` in the older one,
  `ft_string` in the newer one.
- **The write path as written.** `WDXBase::SetValue` calls
  `OnSetValue` and `OnEndOfSetValue`. The base declares both `const`, and
  neither implementation does, so as the shown code stands the calls reach
  the base's own defaults: every write is refused and nothing is saved.
  The class headers are not shown. The model records this under
  "## Findings" and otherwise follows the evident intent: the
  implementations' write path.
- **The newer tag-type formatting.** After "APE" it does not raise the
  separator flag, so sub-tags shaped as APE plus XiphComment without ID3
  would print `APEXiphComment`. No probed container yields both, so the
  full tag-type text of the two implementations is the same function of
  the handle.

## Model

| member | source | states |
|---|---|---|
| ContentPlugin.GetCode | src/CWDXTagLib.cpp:118-245 | A read's int code is positive exactly on success, and equals ft_fieldempty, ft_fileerror or ft_nosuchfield exactly for the matching outcome |
| ContentPlugin.SetCode | src/CWDXTagLib.cpp:325-353 | A write's int code is ft_setsuccess, ft_fileerror or ft_nosuchfield exactly for the matching outcome |
| ContentPlugin.TypeCode | src/CWDXTagLib.cpp:244 | Every declared field type's code is positive, so it is never confused with an error code |
| TagLibHandle.ToUnsigned | src/CWDXTagLib.cpp:345-346 | Passing an `__int32` to setYear/setTrack keeps it modulo 2^32 and leaves non-negative values unchanged |
| TagLibHandle.ToSigned | src/CWDXTagLib.cpp:162-173 | Storing the unsigned year or track into an `__int32` keeps it modulo 2^32 and leaves values below 2^31 unchanged |
| TagLibHandle.SignedRoundTrip | src/CWDXTagLib.cpp:345-346 | Writing an `__int32` year or track and reading it back gives the same value, and the stored value is 0 exactly when the written one was |
| WdxBase.CombineFlags | src/WDXBase.cpp:146-155 | The loop that ORs every non-zero field flag into `iTotalFlags` returns the OR of all flags in table order |
| WdxBase.CombinedFlagsStep | src/WDXBase.cpp:152-153 | One loop step: a non-zero flag is ORed into the prefix total; a zero flag leaves the total as it was |
| WdxBase.CombinedFlagsClear | src/WDXBase.cpp:144-155 | A set of bits is absent from the combined flags exactly when the recursive all-clear test holds for the table |
| WdxBase.AllClearMeans | src/WDXBase.cpp:144-155 | The recursive all-clear test holds exactly when no field's flag has any of the bits |
| WdxBase.CombinedFlagsExactly | src/WDXBase.cpp:144-155 | A set of bits is absent from the combined flags exactly when it is absent from every field's flag, in both directions |
| WdxBase.CombinedFlagsCover | src/WDXBase.cpp:144-155 | Every field's flag is contained in the combined flags |
| WdxBase.DescriptorCode | src/WDXBase.cpp:69-76 | The code GetSupportedField returns is ft_nomorefields exactly when no descriptor is copied out |
| WdxBase.Base.constructor | src/WDXBase.cpp:24-29 | A new dispatcher holds the given field table, an empty ini name and no aborted file name; the abort flag is whatever the uninitialised member holds |
| WdxBase.Base.GetIniName | src/WDXBase.cpp:53-56 | Returns the name SetIniName stored last; StopGetValue, SetAborted and SetAbortedFilename leave it as it was |
| WdxBase.Base.IsAborted | src/WDXBase.cpp:208-211 | Returns the abort flag; in a valid state a lowered flag comes with no aborted file name; the flag is up after StopGetValue, equal to the value after SetAborted, untouched by SetAbortedFilename |
| WdxBase.Base.GetAbortedFilename | src/WDXBase.cpp:218-221 | Returns the file name last stored: the one StopGetValue was given, the one SetAbortedFilename set, or "" after SetAborted lowered the flag; in a valid state a non-empty name means the flag is up |
| WdxBase.Base.SetIniName | src/WDXBase.cpp:46-56 | Afterwards GetIniName returns the name; setting the current name again changes nothing; the abort state is untouched |
| WdxBase.Base.GetSupportedField | src/WDXBase.cpp:64-83 | ft_nomorefields exactly for an index outside the table or a raised copy; otherwise the field's name, its multiple-choice string as units, and its declared type |
| WdxBase.Base.GetSupportedFieldFlags | src/WDXBase.cpp:140-169 | Index -1 gives the OR of all flags; another index outside the table gives 0 (ft_nomorefields); an index in the table gives exactly that field's flag; a raised call gives 0 |
| WdxBase.Base.GetValueGuard | src/WDXBase.cpp:94-98 | An index outside the table is refused and nothing changes; an index in the table lowers the abort flag and clears the aborted file name before delegation |
| WdxBase.DefaultSetValue | src/WDXBase.cpp:109-138 | SetValue over the base's own defaults: ft_setsuccess exactly for the end-of-batch sentinel, ft_nosuchfield for every other call |
| WdxBase.Base.SetValueRoute | src/WDXBase.cpp:115-124 | A null file name or index -1 ends the batch, checked before the range check; another index outside the table is refused; only indices in the table reach OnSetValue |
| WdxBase.Base.StopGetValue | src/WDXBase.cpp:191-197 | Afterwards the flag is up, the aborted file name is the given name, and the invariant holds |
| WdxBase.Base.SetAborted | src/WDXBase.cpp:199-206 | The flag takes the value; lowering it clears the file name, so the invariant holds after a lowering and is preserved by a raising |
| WdxBase.Base.SetAbortedFilename | src/WDXBase.cpp:213-216 | Sets the file name alone; the flag and the ini name are untouched |
| Text.JoinSnoc | src/CWDXTagLib.cpp:307-320 | Appending one element to a join adds exactly one separator, and only when the join was non-empty |
| Text.TerminatedIsJoin | src/CWDXTagLib.cpp:89-96 | The accumulated list is the join plus one trailing separator (space, bar, space), so cutting that many characters leaves the join |
| Text.JoinEmpty | src/CWDXTagLib.cpp:296-322 | A join of non-empty labels is empty exactly when there are no labels |
| Text.JoinEndsWithLast | src/CWDXTagLib.cpp:94-96 | A non-empty join ends with its last element |
| Text.NatToString | src/CWDXTagLib.cpp:300-303 | The stream rendering of a version number is a non-empty run of decimal digits |
| Text.NatToStringValue | src/CWDXTagLib.cpp:300-303 | The rendering is all digits and reads back, in base ten, as the number itself |
| Text.NatToStringInjective | src/CWDXTagLib.cpp:300-303 | Two numbers with the same rendering are equal |
| Text.Clauses | src/CWDXTagLib.cpp:89-92 | One `EXT="<upper-cased ext>"` clause per extension, in enumeration order |
| Text.DetectStringEmpty | src/CWDXTagLib.cpp:94-96 | The detect string is "" exactly when there are no extensions |
| Text.DetectStringNoTrailingSeparator | src/CWDXTagLib.cpp:94-96 | A non-empty detect string ends with the closing quote of the last clause and never with the separator |
| Text.DetectStringExample | src/CWDXTagLib.cpp:78-99 | Two extensions mp3 and flac give the two clauses `EXT="MP3"` and `EXT="FLAC"` with one separator between them |
| TrackLength.SplitLength | src/CWDXTagLib.cpp:222-223 | minutes*60 + seconds equals the length; a non-negative length gives minutes >= 0 and 0 <= seconds < 60; a negative one gives non-positive minutes and -60 < seconds <= 0 (C++ truncation) |
| TrackLength.SplitLengthExamples | src/CWDXTagLib.cpp:222-223 | 125 s is 2 min 5 s, 59 s is 0 min 59 s, 0 s is 0 min 0 s |
| TrackLength.FormattedLength | src/CWDXTagLib.cpp:222-228 | The text starts with Int2Str of the truncated minutes, then "m ", and ends with "s", whatever the helpers print |
| TagType.Probe | src/CWDXTagLib.cpp:254-293 | An invalid file probes to nothing; the plain-Ogg flag is raised exactly for a valid Ogg file; each chosen sub-tag is the handle's own; ID3v2 only for MPEG, FLAC and TrueAudio, APE only for MPEG, MusePack and WavPack, Xiph only for FLAC |
| TagType.DigitsDotSplit | src/CWDXTagLib.cpp:300-303 | Two dot-joined pairs whose first parts are digit runs are equal only when both parts are equal |
| TagType.Id3v2LabelInjective | src/CWDXTagLib.cpp:300-303 | Equal `ID3v2.<major>.<revision>` labels come from equal major and revision numbers, so distinct versions print distinct labels |
| TagType.Labels | src/CWDXTagLib.cpp:297-320 | No label is the empty string |
| TagType.AppendLabel | src/CWDXTagLib.cpp:307-320 | One `(bUseSeparator ? ", " : "") << label` step extends the join by that label when the flag says whether something was written |
| TagType.ApeExcludesXiph | src/CWDXTagLib.cpp:254-293 | No probed container yields both a non-empty APE tag and a Xiph comment |
| TagType.TagTypeEmpty | src/CWDXTagLib.cpp:247-323 | The tag type is "" exactly when no label is shown |
| TagType.OggSaysXiph | src/CWDXTagLib.cpp:278-279 | A valid Ogg file reports exactly "XiphComment" |
| TagType.OnlyId3v2 | src/CWDXTagLib.cpp:254-305 | An MPEG file with only a non-empty ID3v2 tag reports just `ID3v2.<major>.<revision>` |
| TagType.Id3v2AndId3v1 | src/CWDXTagLib.cpp:254-311 | An MPEG file with non-empty ID3v2 and ID3v1 tags and no APE tag reports both, separated by ", " |
| TagFields.TagField | src/CWDXTagLib.cpp:137-189 | A tag field reads as an `__int32` exactly for year and track, and as text for the other five |
| TagFields.SetField | src/CWDXTagLib.cpp:340-348 | After the setter for field i, reading field i gives the buffer as the write path reads it: the `__int32` for year and track, the text otherwise |
| TagFields.SetFieldExactly | src/CWDXTagLib.cpp:340-350 | Setting tag field i changes field i to the value handed over and leaves every other tag field as it was |
| TagFields.EditHandle | src/CWDXTagLib.cpp:333-352 | A null or tagless handle is a file error; a tag field index succeeds and sets that field; any other index is ft_nosuchfield; only a success changes the handle |
| TagFields.SavesFromStep | src/CWDXTagLib.cpp:357-358 | Saving one more pending file extends a well-formed save log by exactly that path |
| TagFields.SavesFromEntries | src/CWDXTagLib.cpp:357-358 | Every save in a well-formed log writes the handle cached for its path |
| TagFields.SavedPathsMeans | src/CWDXTagLib.cpp:357-358 | A path is among the saved paths exactly when some entry of the log saves it |
| TagFields.SavesFromDistinct | src/CWDXTagLib.cpp:357-358 | No two saves in a well-formed log have the same path, so the log has as many paths as saves |
| TagFields.SavesFromMeans | src/CWDXTagLib.cpp:357-358 | Every save in a well-formed log writes the cached handle of its path, and no path is saved twice |
| TagFields.CommitComplete | src/CWDXTagLib.cpp:355-361 | A well-formed log that reaches every cached path saves each cached handle exactly once, as many saves as files |
| TagFields.SaveAll | src/CWDXTagLib.cpp:357-358 | The commit loop calls save() on every cached handle exactly once |
| WdxTagLib.FieldTable | src/CWDXTagLib.cpp:56-72 | Thirteen named fields; exactly the seven tag fields carry contflags_edit; the numeric ones are year, track and the four properties; the last two are ft_stringw |
| WdxTagLib.AllFlags | src/CWDXTagLib.cpp:56-72 | The flags of all fields combine to exactly contflags_edit |
| WdxTagLib.OnGetDetectString | src/CWDXTagLib.cpp:78-99 | The accumulate-then-trim loop returns the separator-join of the clauses, the separator being space, bar, space |
| WdxTagLib.OnGetValue | src/CWDXTagLib.cpp:118-245 | Null file gives ft_fileerror (only then), checked before the abort flag, which gives ft_fieldempty; success carries the table's declared type; missing tag or properties empty the affected fields; year or track 0 reads as empty (both directions); unknown index is ft_nosuchfield; the tag type is the label join |
| WdxTagLib.ReadAfterWrite | src/CWDXTagLib.cpp:333-352 | Reading the edited handle back through OnGetValue gives the value written, except that a zero year or track reads as empty |
| WdxTagLib.FormatTagType | src/CWDXTagLib.cpp:295-323 | The stream with its separator flag produces the ", "-join of the shown labels in the order ID3v2, ID3v1, APE, XiphComment |
| WdxTagLib.GetTagType | src/CWDXTagLib.cpp:247-323 | The probe chain, where later probes overwrite the sub-tags earlier ones chose, yields the label join of the probed sub-tags |
| WdxTagLib.Plugin.constructor | src/CWDXTagLib.cpp:56-72 | The dispatcher gets this implementation's field table, and the write batch and save log start empty |
| WdxTagLib.Plugin.OpenFile | src/CWDXTagLib.cpp:101-116 | A cached path returns its handle and leaves the map unchanged; otherwise exactly one entry is added with the opened handle; either way the path is cached and no other entry changes |
| WdxTagLib.Plugin.OnSetValue | src/CWDXTagLib.cpp:325-353 | After OpenFile the edit is applied to the cached handle; the path stays in the batch even on ft_fileerror or ft_nosuchfield; nothing is saved |
| WdxTagLib.Plugin.OnEndOfSetValue | src/CWDXTagLib.cpp:355-361 | Appends to the save log one save of every cached handle, each exactly once, and empties the map; an empty map saves nothing |
| WdxTagLib.Plugin.GetValue | src/WDXBase.cpp:85-107 | An index outside the table is ft_nosuchfield with nothing changed; otherwise the abort state is lowered and the result is OnGetValue's, or ft_fileerror when it raised |
| WdxTagLib.Plugin.SetValueAsWritten | src/WDXBase.cpp:109-131 | As the shown code routes it to the const base defaults: the sentinel returns ft_setsuccess and every other call ft_nosuchfield, and nothing is cached, edited or saved |
| WdxTagLib.Plugin.SetValue | src/WDXBase.cpp:109-131 | Assuming the header makes the implementation's OnSetValue and OnEndOfSetValue override the base's: the end-of-batch sentinel commits and returns ft_setsuccess; an index outside the table is ft_nosuchfield with nothing changed; a raised write is ft_fileerror; otherwise the result is OnSetValue's |
| WdxPlugin.FieldTable | src/plugin.cpp:58-73 | Thirteen named fields; exactly the seven tag fields are editable; the last two are ft_string |
| WdxPlugin.AllFlags | src/plugin.cpp:58-73 | The flags of all fields combine to exactly contflags_edit |
| WdxPlugin.OnGetDetectString | src/plugin.cpp:79-100 | The same accumulate-then-trim loop returns the separator-join of the clauses, the separator being space, bar, space |
| WdxPlugin.OnGetValue | src/plugin.cpp:120-195 | ft_fileerror exactly when the handle is null or lacks a tag or properties, before any dispatch; the abort flag plays no part; year or track 0 reads as empty (both directions); only those two fields ever read as empty; success carries the declared type; unknown index is ft_nosuchfield |
| WdxPlugin.ReadAfterWrite | src/plugin.cpp:272-314 | On a handle with properties, reading the edited handle back through OnGetValue gives the value written, except that a zero year or track reads as empty |
| WdxPlugin.FormatTagType | src/plugin.cpp:246-269 | The ", "-join of the labels, except that APE plus XiphComment without any ID3 tag prints "APEXiphComment", because the APE branch leaves the separator flag down |
| WdxPlugin.GetTagType | src/plugin.cpp:197-270 | The probe chain yields the same label join as the older implementation; the missing separator never shows |
| WdxPlugin.Plugin.constructor | src/plugin.cpp:58-73 | The dispatcher gets this implementation's field table, and the write batch and save log start empty |
| WdxPlugin.Plugin.OpenFile | src/plugin.cpp:102-118 | A cached path returns its handle and leaves the map unchanged; otherwise exactly one entry is added; either way the path is cached and no other entry changes |
| WdxPlugin.Plugin.OnSetValue | src/plugin.cpp:272-314 | The edit goes through the cached handle; the path stays in the batch even on ft_fileerror or ft_nosuchfield; indices 7-12 leave the tag unchanged |
| WdxPlugin.Plugin.OnEndOfSetValue | src/plugin.cpp:316-322 | Appends one save of every cached handle, each exactly once, and empties the map; an empty map saves nothing |
| WdxPlugin.Plugin.GetValue | src/WDXBase.cpp:85-107 | An index outside the table is ft_nosuchfield with nothing changed; otherwise the abort state is lowered and the result is OnGetValue's, or ft_fileerror when it raised |
| WdxPlugin.Plugin.SetValueAsWritten | src/WDXBase.cpp:109-131 | As the shown code routes it to the const base defaults: the sentinel returns ft_setsuccess and every other call ft_nosuchfield, and nothing is cached, edited or saved |
| WdxPlugin.Plugin.SetValue | src/WDXBase.cpp:109-131 | Assuming the header makes the implementation's OnSetValue and OnEndOfSetValue override the base's: the end-of-batch sentinel commits and returns ft_setsuccess; an index outside the table is ft_nosuchfield with nothing changed; a raised write is ft_fileerror; otherwise the result is OnSetValue's |
| Variants.ReadsAgreeOnCompleteFiles | src/plugin.cpp:120-195 | For two handles of one file that differ only in their audio properties (accurate versus default read style), each with a tag and properties, and no abort: the tag fields and unknown indices read alike; the property fields give each handle's own values; the formatted length uses each handle's length and each file's helpers; the tag type is the same text; with equal properties and helpers every read agrees, and only the last two declared types differ (wide versus narrow) |
| Variants.DefaultSetValueDropsEdits | src/WDXBase.cpp:133-138 | A tag-field write to a file with a tag is refused by the base default but succeeds and sets that field in the implementations' edit; the sentinel succeeds either way |
| Variants.ReadsDifferWithoutTag | src/plugin.cpp:125-126 | Without a tag the newer read path refuses every field as a file error, while the older one reports the tag fields empty and still reports the tag type |
| Variants.AbortOnlyInOlder | src/CWDXTagLib.cpp:129-130 | An abort flag that is up empties every read of a non-null file in the older implementation; in the newer one only a zero year or track is ever empty |
| Variants.ApeXiphQuirkUnreachable | src/plugin.cpp:263-267 | APE plus XiphComment without ID3 would need a ", " the newer code omits, but no handle probes to such sub-tags |

## Findings

| source | as written | input that shows it | evidently intended | confidence | as-written member | corrected member |
|---|---|---|---|---|---|---|
| src/WDXBase.cpp:124 | `WDXBase::OnSetValue` is `const` (lines 133-138) and `WDXTagLib::OnSetValue` is not (CWDXTagLib.cpp:325-327), so the call reaches the base default, which answers ft_nosuchfield; likewise `OnEndOfSetValue` (line 171 against CWDXTagLib.cpp:355) saves nothing | SetValue on a tagged file with field 0, then SetValue with index -1 | the implementation's write path: edit the cached handle, save on the sentinel | plausible; the class header is not shown; not executed | WdxTagLib.Plugin.SetValueAsWritten, Variants.DefaultSetValueDropsEdits | WdxTagLib.Plugin.SetValue |
| src/WDXBase.cpp:124 | the same mismatch for `plugin::OnSetValue` (plugin.cpp:272-273) and `plugin::OnEndOfSetValue` (plugin.cpp:316), if `plugin` derives from this base | SetValue on a tagged file with field 0, then SetValue with index -1 | the same | plausible; the class header is not shown; not executed | WdxPlugin.Plugin.SetValueAsWritten, Variants.DefaultSetValueDropsEdits | WdxPlugin.Plugin.SetValue |

## Left out

- TagLib itself is not modelled: opening and parsing files, `isValid()`,
  tag and property values, `save()` and `defaultFileExtensions()`. A handle
  is a value, and the disk is the log of `save()` calls.
- The `dynamic_cast` probes are a closed `Kind` choice plus a validity flag,
  not a class hierarchy.
- `CUtils::strlcpy`, `wcslcpy`, the `iMaxLen / 2` halving, `void*` buffer
  writes and wide versus narrow encodings are not modelled. A value is
  what would be written, without truncation; a write's buffer is read as
  either text or an `__int32`.
- `Int2Str`, `formatSeconds` and `TagLib::String::upper` are not defined
  here. They are function parameters, so nothing is claimed about their
  output.
- The ft_* codes and contflags_edit are those of the interface header
  contentplug.h, which is not part of this model.
- `ExceptionHandler`, `ShowError` and the diagnostic for a negative unit
  index only notify the user.
- An exception is the `raised` parameter: a copy into the host's buffers
  in GetSupportedField; TagLib inside OnGetValue; TagLib opening a file for
  a write.
- WdxTagLib.Plugin.SetValue and WdxPlugin.Plugin.SetValue: a raise while
  opening a file for writing is modelled as leaving the batch as it was.
  Before C++17, `m_Files2Write[path] = FileRef(...)` may insert a default
  entry before the constructor throws, and the model does not capture that.
- WdxTagLib.Plugin.SetValue: a `save()` that raises during the commit is
  not modelled, so a partly committed batch is not modelled either.
- WdxPlugin.Plugin.SetValue: a `save()` that raises during the commit is
  not modelled either.
- WdxTagLib.Plugin.OnEndOfSetValue: the commit saves in some order, not in
  the ascending key order of `std::map`.
- WdxPlugin.Plugin.OnEndOfSetValue: the commit saves in some order, not in
  the ascending key order of `std::map`.
- The concurrency of StopGetValue arriving from another thread during a
  read is not modelled. Only interleavings at call boundaries are: with
  sequential calls GetValue lowers the flag before delegating, so the
  older implementation's abort branch is reached only through
  `OnGetValue` with the flag up.
- The aborted file name is stored and cleared but never compared with the
  file being read, in both implementations; the model does the same.
- `SetAbortedFilename` can break "not aborted implies no aborted file name"
  when called alone. That is why the invariant is stated for StopGetValue,
  SetAborted, GetValue and SetValue, not for it.
- `m_bIsAborted` is never initialised by the constructor. Its initial
  value is a constructor parameter.
- `SetPluginInterfaceVersion` only stores two numbers nothing reads.
- `WDXBase::OnGetDetectString` (returns "") is overridden by both
  implementations, with the same `const` qualifier, and is not modelled.
- WdxTagLib.Plugin.SetValue and WdxPlugin.Plugin.SetValue assume that the
  class headers, which are not shown, declare `OnSetValue` and
  `OnEndOfSetValue` so that the implementations' versions override the
  base's. As shown, the base defines both `const` and the implementations
  do not, which hides rather than overrides them. The as-written route is
  `SetValueAsWritten`; see "## Findings".
- Reads never see the write batch: every read opens a fresh `FileRef`
  from disk, never an `m_Files2Write` handle. So a read between a write
  and the end-of-batch sentinel gives the old value. The save log is not
  connected to the handles later reads are given (`fromDisk` is a
  parameter), so nothing is claimed about reading back after a commit.
  The ReadAfterWrite lemmas are about the edited handle only.
- A `Handle` keeps `isNull` and `isValid` as independent fields, although
  `FileRef::isNull()` already holds for an invalid file. The model thus
  admits non-null invalid handles TagLib never produces; their tag type
  reads as "".
- A read's TagLib read style (accurate in the older implementation,
  default in the newer one) is not modelled beyond taking a separate
  handle per implementation.
- The base class of `plugin.cpp`'s `plugin` is not shown. It is taken to
  be the same dispatcher, `WdxBase.Base`.
- The `field` class `plugin.cpp` builds its table from is not shown
  either. `WdxPlugin.FIELDS` takes its two-argument constructor to give
  flag 0 and empty unit and multiple-choice strings.
- The declaration of `m_Files2Write` is in headers not shown. Both
  implementations are taken to hold it as a `std::map` from path to
  handle, with at most one entry per path; the model uses a `map`.
